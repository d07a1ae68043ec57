/** One run's worker and any number of live-stream pollers, as a step system over the database.

    The engine appends events; the flusher commits prefixes of them as rows; the finisher commits
    errors and the terminal status together, after the flusher has drained. A poller reads the status
    first, then the rows past its cursor, then (if the status was terminal) the errors, and emits.
    Steps of different parties interleave arbitrarily. A run has a single claimer, and row ids grow
    in commit order; ids of other runs may lie between. */
module RunStream {
  import opened Wrappers

  type Event = string
  type ErrorRow = string

  datatype RunState = QUEUED | RUNNING | SUCCEEDED | FAILED

  predicate Terminal(s: RunState) {
    s.SUCCEEDED? || s.FAILED?
  }

  datatype Row = Row(id: nat, index: nat, event: Event)

  // ---------------------------------------------------------------- parties

  /** Where the worker is: before the claim, claimed, running the engine, draining the log with a
      result in hand, after an engine crash, finished. */
  datatype Worker =
    | Unclaimed
    | Claimed
    | Executing
    | Draining(ok: bool, found: seq<ErrorRow>)
    | Crashed
    | Finished

  /** The flusher: not started, about to add rows, committing those up to `written`, just
      committed, waiting, gone. */
  datatype Flusher = Off | Adding | Committing | Committed | Sleeping | Exited

  datatype Message =
    | LogMessage(row: Row)
    | StatusMessage(status: RunState)
    | DoneMessage(status: RunState, errors: seq<ErrorRow>)
    | TimeoutMessage(status: RunState)

  datatype Stage =
    | Idle
    | GotStatus(status: RunState)
    | GotRows(status: RunState, rows: seq<Row>)
    | Emitting(status: RunState, rows: seq<Row>, errors: Option<seq<ErrorRow>>)
    | Closed

  datatype Poller = Poller(lastId: nat, lastStatus: Option<RunState>, polls: nat, stage: Stage, emitted: seq<Message>)

  const NEW_POLLER := Poller(0, None, 0, Idle, [])
  const MAX_POLLS := 4 * 60 * 15

  datatype System = System(
    status: RunState, rows: seq<Row>, errors: seq<ErrorRow>,
    worker: Worker, flusher: Flusher, buffer: seq<Event>, written: nat,
    pollers: seq<Poller>)

  const START := System(QUEUED, [], [], Unclaimed, Off, [], 0, [])

  // ---------------------------------------------------------------- steps

  datatype PollStep = ReadStatus | ReadRows | ReadErrors | EmitLog | EmitTail | Disconnect

  datatype Step =
    | Claim(pipelineExists: bool)
    | SecretMissing(error: ErrorRow)
    | Launch
    | Log(event: Event)
    | EngineReturns(ok: bool, found: seq<ErrorRow>)
    | EngineRaises
    | AddRows
    | CommitRows(ids: seq<nat>)
    | CheckStop
    | Wake
    | Finish
    | Connect
    | Poll(poller: nat, poll: PollStep)

  /** The rows that the flusher commits: the events from the committed ones up to `written`. */
  function NewRows(buffer: seq<Event>, first: nat, ids: seq<nat>): seq<Row>
    requires first + |ids| <= |buffer|
  {
    seq(|ids|, i requires 0 <= i < |ids| => Row(ids[i], first + i, buffer[first + i]))
  }

  /** Fresh ids: increasing, and past every committed row of this run. */
  predicate FreshIds(rows: seq<Row>, ids: seq<nat>) {
    && (forall i :: 0 <= i < |ids| ==> ids[i] > 0 && (rows == [] || ids[i] > rows[|rows| - 1].id))
    && forall i, j :: 0 <= i < j < |ids| ==> ids[i] < ids[j]
  }

  predicate Enabled(s: System, step: Step) {
    match step
    case Claim(_) => s.worker.Unclaimed? && s.status.QUEUED?
    case SecretMissing(_) => s.worker.Claimed?
    case Launch => s.worker.Claimed?
    case Log(_) => s.worker.Executing?
    case EngineReturns(_, _) => s.worker.Executing?
    case EngineRaises => s.worker.Executing?
    case AddRows => s.flusher.Adding?
    case CommitRows(ids) =>
      s.flusher.Committing? && |s.rows| <= s.written <= |s.buffer| && |ids| == s.written - |s.rows|
      && FreshIds(s.rows, ids)
    case CheckStop => s.flusher.Committed?
    case Wake => s.flusher.Sleeping?
    case Finish => s.worker.Draining? && s.flusher.Exited?
    case Connect => true
    case Poll(i, poll) => i < |s.pollers| && PollEnabled(s.pollers[i], poll)
  }

  predicate PollEnabled(p: Poller, poll: PollStep) {
    match poll
    case ReadStatus => p.stage.Idle?
    case ReadRows => p.stage.GotStatus?
    case ReadErrors => p.stage.GotRows?
    case EmitLog => p.stage.Emitting? && p.stage.rows != []
    case EmitTail => p.stage.Emitting? && p.stage.rows == []
    case Disconnect => p.stage.Idle?
  }

  /** `stop.is_set()`: the engine call has ended. */
  predicate Stopped(w: Worker) {
    w.Draining? || w.Crashed?
  }

  function After(s: System, step: Step): System
    requires Enabled(s, step)
  {
    match step
    case Claim(pipelineExists) =>
      if pipelineExists then s.(status := RUNNING, worker := Claimed) else s.(status := FAILED, worker := Finished)
    case SecretMissing(e) => s.(status := FAILED, errors := s.errors + [e], worker := Finished)
    case Launch => s.(worker := Executing, flusher := Adding)
    case Log(e) => s.(buffer := s.buffer + [e])
    case EngineReturns(ok, found) => s.(worker := Draining(ok, found))
    case EngineRaises => s.(worker := Crashed)
    case AddRows => s.(written := |s.buffer|, flusher := Committing)
    case CommitRows(ids) => s.(rows := s.rows + NewRows(s.buffer, |s.rows|, ids), flusher := Committed)
    case CheckStop => s.(flusher := if Stopped(s.worker) && s.written >= |s.buffer| then Exited else Sleeping)
    case Wake => s.(flusher := Adding)
    case Finish =>
      s.(status := if s.worker.ok then SUCCEEDED else FAILED, errors := s.errors + s.worker.found, worker := Finished)
    case Connect => s.(pollers := s.pollers + [NEW_POLLER])
    case Poll(i, poll) => s.(pollers := s.pollers[i := AfterPoll(s, s.pollers[i], poll)])
  }

  /** The rows past a cursor, in id order. */
  function RowsPast(rows: seq<Row>, lastId: nat): seq<Row> {
    if rows == [] then []
    else RowsPast(rows[..|rows| - 1], lastId) + if rows[|rows| - 1].id > lastId then [rows[|rows| - 1]] else []
  }

  function AfterPoll(s: System, p: Poller, poll: PollStep): Poller
    requires PollEnabled(p, poll)
  {
    match poll
    case ReadStatus => p.(stage := GotStatus(s.status))
    case ReadRows => p.(stage := GotRows(p.stage.status, RowsPast(s.rows, p.lastId)))
    case ReadErrors =>
        p.(stage := Emitting(p.stage.status, p.stage.rows, if Terminal(p.stage.status) then Some(s.errors) else None))
    case EmitLog =>
      var row := p.stage.rows[0];
      p.(lastId := row.id, emitted := p.emitted + [LogMessage(row)],
         stage := Emitting(p.stage.status, p.stage.rows[1..], p.stage.errors))
    case EmitTail => Tail(p)
    case Disconnect => p.(stage := Closed)
  }

  /** After the logs: the status if it changed, then `done`, a timeout, or another round. */
  function Tail(p: Poller): Poller
    requires p.stage.Emitting?
  {
    var st := p.stage.status;
    var told := if p.lastStatus == Some(st) then p.emitted else p.emitted + [StatusMessage(st)];
    if p.stage.errors.Some?
        then p.(lastStatus := Some(st), stage := Closed, emitted := told + [DoneMessage(st, p.stage.errors.value)])
    else if p.polls + 1 >= MAX_POLLS
        then p.(lastStatus := Some(st), polls := p.polls + 1, stage := Closed, emitted := told + [TimeoutMessage(st)])
    else p.(lastStatus := Some(st), polls := p.polls + 1, stage := Idle, emitted := told)
  }

  /** A run of the system: any interleaving of enabled steps. */
  ghost predicate IsTrace(trace: seq<System>) {
    && trace != [] && trace[0] == START
    && forall k :: 0 <= k < |trace| - 1 ==> StepsAt(trace, k)
  }

  ghost predicate StepsAt(trace: seq<System>, k: nat)
    requires k + 1 < |trace|
  {
    Steps(trace[k], trace[k + 1])
  }

  ghost predicate Steps(s: System, s': System) {
    exists step :: Enabled(s, step) && s' == After(s, step)
  }

  // ---------------------------------------------------------------- the worker's side

  /** Committed rows mirror a prefix of the events, with growing ids. */
  ghost predicate RowsMirror(s: System) {
    && |s.rows| <= |s.buffer|
    && (forall i :: 0 <= i < |s.rows| ==> s.rows[i].event == s.buffer[i] && s.rows[i].index == i && s.rows[i].id > 0)
    && IdsGrow(s.rows)
  }

  ghost predicate IdsGrow(rows: seq<Row>) {
    forall i, j :: 0 <= i < j < |rows| ==> rows[i].id < rows[j].id
  }

  lemma IdsGrowConcat(a: seq<Row>, b: seq<Row>)
    requires IdsGrow(a) && IdsGrow(b)
    requires a != [] ==> forall j :: 0 <= j < |b| ==> a[|a| - 1].id < b[j].id
    ensures IdsGrow(a + b)
  {
    var rows := a + b;
    forall i, j | 0 <= i < j < |rows| ensures rows[i].id < rows[j].id {
      if i < |a| <= j {
        assert a[i].id <= a[|a| - 1].id < b[j - |a|].id;
      }
    }
  }

  /** Everything the run logged is committed. */
  ghost predicate AllCommitted(s: System) {
    |s.rows| == |s.buffer|
  }

  ghost predicate WorkerOk(s: System) {
    && RowsMirror(s)
    && |s.rows| <= s.written <= |s.buffer|
    && (s.flusher.Committed? ==> |s.rows| == s.written)
    && (s.flusher.Exited? ==> AllCommitted(s) && !s.worker.Executing?)
    && (s.worker.Unclaimed? || s.worker.Claimed? ==>
       s.buffer == [] && s.flusher.Off? && !Terminal(s.status) && s.errors == [])
    && (s.worker.Claimed? ==> s.status.RUNNING?)
    && (s.worker.Executing? || Stopped(s.worker) ==> s.status.RUNNING? && s.errors == [] && !s.flusher.Off?)
    && (s.worker.Finished? ==> Terminal(s.status) && AllCommitted(s) && (s.flusher.Off? || s.flusher.Exited?))
  }

  lemma NewRowsMirror(s: System, ids: seq<nat>)
    requires RowsMirror(s) && |s.rows| + |ids| <= |s.buffer| && FreshIds(s.rows, ids)
    ensures RowsMirror(s.(rows := s.rows + NewRows(s.buffer, |s.rows|, ids)))
  {
    IdsGrowConcat(s.rows, NewRows(s.buffer, |s.rows|, ids));
  }

  lemma WorkerStepOk(s: System, step: Step)
    requires WorkerOk(s) && Enabled(s, step)
    ensures WorkerOk(After(s, step))
  {
    match step
    case CommitRows(ids) => NewRowsMirror(s, ids);
    case _ =>
  }

  /** What pollers rely on: logs and rows only grow, and once the status is terminal nothing changes. */
  ghost predicate Grows(s: System, s': System) {
    && s.buffer <= s'.buffer && s.rows <= s'.rows
    && (Terminal(s.status) ==>
       s'.status == s.status && s'.errors == s.errors && s'.buffer == s.buffer && s'.rows == s.rows)
  }

  lemma StepGrows(s: System, step: Step)
    requires WorkerOk(s) && Enabled(s, step)
    ensures Grows(s, After(s, step))
  {
  }

  // ---------------------------------------------------------------- the pollers' side

  /** The log rows among the messages. */
  function Logs(messages: seq<Message>): seq<Row> {
    if messages == [] then []
    else Logs(messages[..|messages| - 1]) + if messages[|messages| - 1].LogMessage?
        then [messages[|messages| - 1].row] else []
  }

  function Events(rows: seq<Row>): seq<Event> {
    seq(|rows|, i requires 0 <= i < |rows| => rows[i].event)
  }

  /** The cursor stands after the first `c` rows. */
  ghost predicate CursorAt(rows: seq<Row>, lastId: nat, c: nat) {
    c <= |rows| && lastId == if c == 0 then 0 else rows[c - 1].id
  }

  /** The rows a poller holds are those after its cursor, all of them if it saw a terminal status. */
  ghost predicate Holds(s: System, c: nat, status: RunState, held: seq<Row>) {
    && c + |held| <= |s.rows| && held == s.rows[c..c + |held|]
    && (Terminal(status) ==> s.status == status && c + |held| == |s.rows|)
  }

  ghost predicate StageOk(s: System, p: Poller, c: nat) {
    match p.stage
    case Idle => true
    case GotStatus(st) => Terminal(st) ==> s.status == st
    case GotRows(st, held) => Holds(s, c, st, held)
    case Emitting(st, held, errs) => Holds(s, c, st, held) && (errs.Some? <==> Terminal(st))
    && (errs.Some? ==> errs.value == s.errors)
    case Closed => true
  }

  /** `done` comes last, after every event, with every persisted error and the final status. */
  ghost predicate DoneOk(s: System, p: Poller, c: nat) {
    forall i :: 0 <= i < |p.emitted| && p.emitted[i].DoneMessage? ==>
      && i == |p.emitted| - 1 && p.stage.Closed?
      && Terminal(s.status) && c == |s.rows|
      && p.emitted[i] == DoneMessage(s.status, s.errors)
  }

  ghost predicate PollerOkAt(s: System, p: Poller, c: nat) {
    && CursorAt(s.rows, p.lastId, c)
    && Logs(p.emitted) == s.rows[..c]
    && StageOk(s, p, c)
    && DoneOk(s, p, c)
  }

  ghost predicate PollerOk(s: System, p: Poller) {
    exists c: nat :: PollerOkAt(s, p, c)
  }

  /** A poller stays consistent while others act. */
  lemma PollerOkGrows(s: System, s': System, p: Poller, c: nat)
    requires PollerOkAt(s, p, c) && Grows(s, s')
    ensures PollerOkAt(s', p, c)
  {
    assert s'.rows[..c] == s.rows[..c];
    if p.stage.GotRows? || p.stage.Emitting? {
      var held := p.stage.rows;
      assert s'.rows[c..c + |held|] == s.rows[c..c + |held|];
    }
  }

  lemma {:induction false} RowsPastCursor(rows: seq<Row>, c: nat, lastId: nat)
    requires CursorAt(rows, lastId, c)
    requires forall i :: 0 <= i < |rows| ==> rows[i].id > 0
    requires IdsGrow(rows)
    ensures RowsPast(rows, lastId) == rows[c..]
  {
    if c == |rows| {
      NoneEarlier(rows, lastId);
    } else {
      var front, last := rows[..|rows| - 1], rows[|rows| - 1];
      assert last.id > lastId;
      RowsPastCursor(front, c, lastId);
      assert rows[c..] == front[c..] + [last];
    }
  }

  lemma {:induction false} NoneEarlier(rows: seq<Row>, lastId: nat)
    requires forall i :: 0 <= i < |rows| ==> rows[i].id <= lastId
    ensures RowsPast(rows, lastId) == []
  {
    if rows != [] {
      NoneEarlier(rows[..|rows| - 1], lastId);
    }
  }

  lemma LogsSnoc(messages: seq<Message>, m: Message)
    ensures Logs(messages + [m]) == Logs(messages) + if m.LogMessage? then [m.row] else []
  {
    assert (messages + [m])[..|messages|] == messages;
  }

  ghost predicate NoDone(messages: seq<Message>) {
    forall i :: 0 <= i < |messages| ==> !messages[i].DoneMessage?
  }

  /** What the tail of a round adds: at most a status and one closing message. */
  lemma ToldOk(s: System, p: Poller, c: nat) returns (told: seq<Message>)
    requires PollerOkAt(s, p, c) && p.stage.Emitting?
    ensures told == if p.lastStatus == Some(p.stage.status) then p.emitted
            else p.emitted + [StatusMessage(p.stage.status)]
    ensures NoDone(told) && Logs(told) == s.rows[..c]
  {
    told := p.emitted;
    assert NoDone(told);
    if p.lastStatus != Some(p.stage.status) {
      LogsSnoc(p.emitted, StatusMessage(p.stage.status));
      told := p.emitted + [StatusMessage(p.stage.status)];
    }
  }

  /** A poller that only has its messages, status or poll count changed, and ends its round. */
  lemma RoundEnds(s: System, p: Poller, c: nat, told: seq<Message>, closing: seq<Message>, p': Poller)
    requires CursorAt(s.rows, p'.lastId, c)
    requires NoDone(told) && Logs(told) == s.rows[..c] && p'.emitted == told + closing
    requires (p'.stage.Idle? && closing == []) || (p'.stage.Closed? && |closing| == 1 && !closing[0].LogMessage?)
    requires |closing| == 1 && closing[0].DoneMessage? ==>
               Terminal(s.status) && c == |s.rows| && closing[0] == DoneMessage(s.status, s.errors)
    ensures PollerOkAt(s, p', c)
  {
    if closing == [] {
      assert p'.emitted == told;
    } else {
      assert closing == [closing[0]];
      LogsSnoc(told, closing[0]);
    }
  }

  lemma TailOk(s: System, p: Poller, c: nat)
    requires PollerOkAt(s, p, c) && p.stage.Emitting? && p.stage.rows == []
    ensures PollerOkAt(s, Tail(p), c)
  {
    var st := p.stage.status;
    var told := ToldOk(s, p, c);
    if p.stage.errors.Some? {
      RoundEnds(s, p, c, told, [DoneMessage(st, p.stage.errors.value)], Tail(p));
    } else if p.polls + 1 >= MAX_POLLS {
      RoundEnds(s, p, c, told, [TimeoutMessage(st)], Tail(p));
    } else {
      assert told + [] == told;
      RoundEnds(s, p, c, told, [], Tail(p));
    }
  }

  lemma EmitLogOk(s: System, p: Poller, c: nat)
    requires PollerOkAt(s, p, c) && p.stage.Emitting? && p.stage.rows != []
    ensures PollerOkAt(s, AfterPoll(s, p, EmitLog), c + 1)
  {
    var held := p.stage.rows;
    var row := held[0];
    assert row == s.rows[c];
    LogsSnoc(p.emitted, LogMessage(row));
    assert s.rows[..c + 1] == s.rows[..c] + [row];
    assert held[1..] == s.rows[c + 1..c + 1 + |held[1..]|];
  }

  lemma PollStepOk(s: System, p: Poller, c: nat, poll: PollStep)
    requires WorkerOk(s) && PollerOkAt(s, p, c) && PollEnabled(p, poll)
    ensures PollerOk(s, AfterPoll(s, p, poll))
  {
    match poll
    case ReadRows =>
      RowsPastCursor(s.rows, c, p.lastId);
      assert s.rows[c..] == s.rows[c..c + |s.rows[c..]|];
      assert PollerOkAt(s, AfterPoll(s, p, poll), c);
    case EmitLog => EmitLogOk(s, p, c);
    case EmitTail => TailOk(s, p, c);
    case _ => assert PollerOkAt(s, AfterPoll(s, p, poll), c);
  }

  // ---------------------------------------------------------------- every run of the system

  ghost predicate SystemOk(s: System) {
    WorkerOk(s) && forall i :: 0 <= i < |s.pollers| ==> PollerOk(s, s.pollers[i])
  }

  lemma NewPollerOk(s: System)
    ensures PollerOk(s, NEW_POLLER)
  {
    assert s.rows[..0] == [];
    assert PollerOkAt(s, NEW_POLLER, 0);
  }

  lemma SystemStepOk(s: System, step: Step)
    requires SystemOk(s) && Enabled(s, step)
    ensures SystemOk(After(s, step))
  {
    var s' := After(s, step);
    WorkerStepOk(s, step);
    StepGrows(s, step);
    forall i | 0 <= i < |s'.pollers| ensures PollerOk(s', s'.pollers[i]) {
      if i == |s.pollers| {
        NewPollerOk(s');
      } else {
        var p := s'.pollers[i];
        if step.Poll? && step.poller == i {
          var c: nat :| PollerOkAt(s, s.pollers[i], c);
          PollStepOk(s, s.pollers[i], c, step.poll);
        } else {
          assert PollerOk(s, s.pollers[i]);
        }
        var c: nat :| PollerOkAt(s, p, c);
        PollerOkGrows(s, s', p, c);
      }
    }
  }

  lemma {:induction false} EveryTraceIsOk(trace: seq<System>, k: nat)
    requires IsTrace(trace) && k < |trace|
    ensures SystemOk(trace[k])
    decreases k
  {
    if k > 0 {
      EveryTraceIsOk(trace, k - 1);
      assert StepsAt(trace, k - 1);
      var step :| Enabled(trace[k - 1], step) && trace[k] == After(trace[k - 1], step);
      SystemStepOk(trace[k - 1], step);
    }
  }

  /** In every interleaving, at every moment, for every poller: the rows it has emitted are a prefix
      of the committed ones, and their events of the run's events, without gap or repetition. */
  lemma EmittedLogsArePrefix(trace: seq<System>, k: nat, i: nat)
    requires IsTrace(trace) && k < |trace| && i < |trace[k].pollers|
    ensures Logs(trace[k].pollers[i].emitted) <= trace[k].rows
    ensures Events(Logs(trace[k].pollers[i].emitted)) <= trace[k].buffer
    ensures forall j :: 0 <= j < |trace[k].rows| ==> trace[k].rows[j].index == j
  {
    EveryTraceIsOk(trace, k);
    var s := trace[k];
    assert PollerOk(s, s.pollers[i]);
    var c: nat :| PollerOkAt(s, s.pollers[i], c);
    assert Events(s.rows[..c]) == s.buffer[..c];
  }

  /** `done` is sent only after every event of the run, is the last message, and carries the final
      status and every persisted error. */
  lemma DoneComesAfterEverything(trace: seq<System>, k: nat, i: nat, m: nat)
    requires IsTrace(trace) && k < |trace| && i < |trace[k].pollers|
    requires m < |trace[k].pollers[i].emitted| && trace[k].pollers[i].emitted[m].DoneMessage?
    ensures var s, p := trace[k], trace[k].pollers[i];
            && m == |p.emitted| - 1
            && Logs(p.emitted) == s.rows && Events(s.rows) == s.buffer
            && p.emitted[m] == DoneMessage(s.status, s.errors)
            && Terminal(s.status) && s.worker.Finished?
  {
    EveryTraceIsOk(trace, k);
    var s := trace[k];
    assert PollerOk(s, s.pollers[i]);
    var c: nat :| PollerOkAt(s, s.pollers[i], c);
    assert s.worker.Finished? by {
      assert Terminal(s.status);
    }
    assert s.rows[..c] == s.rows && Events(s.rows) == s.buffer;
  }

  /** The errors that `done` carries are those the engine reported, when the engine ran. */
  lemma FinishPersistsAllErrors(s: System)
    requires WorkerOk(s) && Enabled(s, Finish)
    ensures After(s, Finish).errors == s.worker.found
    ensures Events(After(s, Finish).rows) == s.buffer
  {
    assert [] + s.worker.found == s.worker.found;
  }

  /** The rest of a round: the logs one by one, then the tail. */
  function EmitAll(s: System, p: Poller): Poller
    requires p.stage.Emitting?
    decreases |p.stage.rows|
  {
    if p.stage.rows == [] then AfterPoll(s, p, EmitTail) else EmitAll(s, AfterPoll(s, p, EmitLog))
  }

  /** A round of a finished run ends with `done`. */
  lemma {:induction false} RoundEndsWithDone(s: System, p: Poller, c: nat)
    requires PollerOkAt(s, p, c) && p.stage.Emitting? && Terminal(p.stage.status)
    ensures var last := EmitAll(s, p);
            && PollerOk(s, last) && last.stage.Closed? && last.emitted != []
            && last.emitted[|last.emitted| - 1] == DoneMessage(s.status, s.errors)
    decreases |p.stage.rows|
  {
    if p.stage.rows == [] {
      TailOk(s, p, c);
    } else {
      EmitLogOk(s, p, c);
      RoundEndsWithDone(s, AfterPoll(s, p, EmitLog), c + 1);
    }
  }

  /** A poller that starts a round after the run has finished ends that round with `done`, by which time
      it has emitted every event of the run. */
  lemma FinishedRunGetsDone(s: System, p: Poller)
    requires SystemOk(s) && s.worker.Finished? && PollerOk(s, p) && p.stage.Idle?
    ensures var read := AfterPoll(s, AfterPoll(s, AfterPoll(s, p, ReadStatus), ReadRows), ReadErrors);
            && read.stage.Emitting?
            && var last := EmitAll(s, read);
               && last.emitted != [] && last.emitted[|last.emitted| - 1] == DoneMessage(s.status, s.errors)
               && Logs(last.emitted) == s.rows && Events(s.rows) == s.buffer
  {
    var c: nat :| PollerOkAt(s, p, c);
    RowsPastCursor(s.rows, c, p.lastId);
    var read := AfterPoll(s, AfterPoll(s, AfterPoll(s, p, ReadStatus), ReadRows), ReadErrors);
    ReadRoundOk(s, p, c);
    RoundEndsWithDone(s, read, c);
    DoneMeansAll(s, EmitAll(s, read));
  }

  lemma ReadRoundOk(s: System, p: Poller, c: nat)
    requires PollerOkAt(s, p, c) && p.stage.Idle? && RowsPast(s.rows, p.lastId) == s.rows[c..]
    ensures PollerOkAt(s, AfterPoll(s, AfterPoll(s, AfterPoll(s, p, ReadStatus), ReadRows), ReadErrors), c)
  {
    assert s.rows[c..] == s.rows[c..c + |s.rows[c..]|];
  }

  lemma DoneMeansAll(s: System, p: Poller)
    requires WorkerOk(s) && s.worker.Finished? && PollerOk(s, p)
    requires p.emitted != [] && p.emitted[|p.emitted| - 1].DoneMessage?
    ensures Logs(p.emitted) == s.rows && Events(s.rows) == s.buffer
  {
    var c: nat :| PollerOkAt(s, p, c);
    assert s.rows[..c] == s.rows;
  }

  // ---------------------------------------------------------------- an exception that escaped

  lemma {:induction false} CrashedStaysCrashed(trace: seq<System>, j: nat, k: nat)
    requires IsTrace(trace) && j <= k < |trace| && trace[j].worker.Crashed?
    ensures trace[k].worker.Crashed? && trace[k].buffer == trace[j].buffer
    decreases k
  {
    if j < k {
      CrashedStaysCrashed(trace, j, k - 1);
      assert StepsAt(trace, k - 1);
    }
  }

  /** When an exception has escaped from the engine, the run stays RUNNING without errors whatever
      happens after, and no poller is ever told that it is done. */
  lemma CrashedRunNeverEnds(trace: seq<System>, j: nat, k: nat, i: nat)
    requires IsTrace(trace) && j <= k < |trace| && trace[j].worker.Crashed? && i < |trace[k].pollers|
    ensures trace[k].status.RUNNING? && trace[k].errors == []
    ensures NoDone(trace[k].pollers[i].emitted)
  {
    CrashedStaysCrashed(trace, j, k);
    EveryTraceIsOk(trace, k);
    var s := trace[k];
    assert PollerOk(s, s.pollers[i]);
    var c: nat :| PollerOkAt(s, s.pollers[i], c);
  }

  /** The rounds of such a poller close it exactly when its polls are used up, with a timeout. */
  lemma CrashedRoundTimesOut(trace: seq<System>, j: nat, k: nat, i: nat)
    requires IsTrace(trace) && j <= k < |trace| && trace[j].worker.Crashed? && i < |trace[k].pollers|
    requires trace[k].pollers[i].stage.Emitting? && trace[k].pollers[i].stage.rows == []
    ensures var p := trace[k].pollers[i];
            var p' := AfterPoll(trace[k], p, EmitTail);
            && p'.polls == p.polls + 1
            && (p'.stage.Closed? <==> p.polls + 1 >= MAX_POLLS)
            && (p'.stage.Closed? ==> p'.emitted != [] && p'.emitted[|p'.emitted| - 1] == TimeoutMessage(p.stage.status))
            && !Terminal(p.stage.status)
  {
    CrashedRunNeverEnds(trace, j, k, i);
    EveryTraceIsOk(trace, k);
    var s := trace[k];
    assert PollerOk(s, s.pollers[i]);
    var c: nat :| PollerOkAt(s, s.pollers[i], c);
  }
}
