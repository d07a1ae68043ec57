/** From the run to the browser: what a poller emits is printed as frames, arrives in arbitrary chunks,
    and is read back. */
module LiveStream {
  import opened Json
  import RunStream
  import Sse

  /** The payloads of the frames, as JSON objects. */
  datatype Payloads = Payloads(
    log: RunStream.Row -> Value,
    status: RunStream.RunState -> Value,
    done: (RunStream.RunState, seq<RunStream.ErrorRow>) -> Value)

  function Framed(show: Payloads, m: RunStream.Message): Sse.StreamEvent {
    match m
    case LogMessage(row) => Sse.StreamEvent(Sse.Log, show.log(row))
    case StatusMessage(st) => Sse.StreamEvent(Sse.Status, show.status(st))
    case DoneMessage(st, errors) => Sse.StreamEvent(Sse.Done, show.done(st, errors))
    case TimeoutMessage(st) => Sse.StreamEvent(Sse.Timeout, show.status(st))
  }

  function FramedAll(show: Payloads, messages: seq<RunStream.Message>): seq<Sse.StreamEvent> {
    seq(|messages|, i requires 0 <= i < |messages| => Framed(show, messages[i]))
  }

  /** The log payloads among received events. */
  function LogData(events: seq<Sse.StreamEvent>): seq<Value> {
    if events == [] then []
    else LogData(events[..|events| - 1]) + if events[|events| - 1].kind.Log? then [events[|events| - 1].data] else []
  }

  function Shown(show: Payloads, rows: seq<RunStream.Row>): seq<Value> {
    seq(|rows|, i requires 0 <= i < |rows| => show.log(rows[i]))
  }

  lemma {:induction false} LogDataOfFramed(show: Payloads, messages: seq<RunStream.Message>)
    ensures LogData(FramedAll(show, messages)) == Shown(show, RunStream.Logs(messages))
  {
    if messages != [] {
      var front := messages[..|messages| - 1];
      LogDataOfFramed(show, front);
      var framed := FramedAll(show, messages);
      assert framed[..|framed| - 1] == FramedAll(show, front);
    }
  }

  lemma {:induction false} LogDataOfPrefix(a: seq<Sse.StreamEvent>, b: seq<Sse.StreamEvent>)
    requires a <= b
    ensures LogData(a) <= LogData(b)
    decreases |b|
  {
    if |a| == |b| {
      assert a == b;
    } else {
      assert a <= b[..|b| - 1];
      LogDataOfPrefix(a, b[..|b| - 1]);
    }
  }

  lemma ShownPrefix(show: Payloads, a: seq<RunStream.Row>, b: seq<RunStream.Row>)
    requires a <= b
    ensures Shown(show, a) <= Shown(show, b)
  {
  }

  predicate HasDone(events: seq<Sse.StreamEvent>) {
    exists i :: 0 <= i < |events| && events[i].kind.Done?
  }

  /** If `done` has arrived, everything has. */
  lemma DoneArrivedMeansAll(show: Payloads, messages: seq<RunStream.Message>, received: seq<Sse.StreamEvent>)
    requires received <= FramedAll(show, messages) && HasDone(received)
    requires forall m :: 0 <= m < |messages| && messages[m].DoneMessage? ==> m == |messages| - 1
    ensures received == FramedAll(show, messages) && messages != [] && messages[|messages| - 1].DoneMessage?
  {
    var i :| 0 <= i < |received| && received[i].kind.Done?;
    assert received[i] == Framed(show, messages[i]);
  }

  /** For every interleaving of the worker with any pollers, at every moment, for every poller and
      however its stream is cut into chunks: the logs the browser has received show a prefix of the
      committed rows, which mirror the first of the run's events, and all of the events once it has
      received `done`, which then comes last and carries the final status and every persisted error. */
  method FollowRun(codec: Sse.Codec, show: Payloads, chunks: seq<string>, ghost trace: seq<RunStream.System>,
                   ghost k: nat, ghost i: nat)
    returns (received: seq<Sse.StreamEvent>)
    requires RunStream.IsTrace(trace) && k < |trace| && i < |trace[k].pollers|
    requires var framed := FramedAll(show, trace[k].pollers[i].emitted);
             && (forall j :: 0 <= j < |framed| ==> Sse.EncodesWell(codec, framed[j].data))
             && Sse.Concat(chunks) <= Sse.Stream(codec, framed)
    ensures LogData(received) <= Shown(show, trace[k].rows)
    ensures RunStream.Events(trace[k].rows) <= trace[k].buffer
    ensures HasDone(received) ==>
              && LogData(received) == Shown(show, trace[k].rows) && RunStream.Events(trace[k].rows) == trace[k].buffer
              && received[|received| - 1] == Framed(show, RunStream.DoneMessage(trace[k].status, trace[k].errors))
  {
    ghost var messages := trace[k].pollers[i].emitted;
    var buffer;
    received, buffer := Sse.ReadStream(codec, chunks);
    Sse.ArrivedIsPrefix(codec, FramedAll(show, messages), Sse.Concat(chunks));
    ReceivedLogs(show, trace, k, i, received);
    RowsShowEvents(trace, k);
    if HasDone(received) {
      ReceivedDone(show, trace, k, i, received);
    }
  }

  lemma RowsShowEvents(trace: seq<RunStream.System>, k: nat)
    requires RunStream.IsTrace(trace) && k < |trace|
    ensures RunStream.Events(trace[k].rows) <= trace[k].buffer
  {
    RunStream.EveryTraceIsOk(trace, k);
  }

  lemma ReceivedLogs(show: Payloads, trace: seq<RunStream.System>, k: nat, i: nat, received: seq<Sse.StreamEvent>)
    requires RunStream.IsTrace(trace) && k < |trace| && i < |trace[k].pollers|
    requires received <= FramedAll(show, trace[k].pollers[i].emitted)
    ensures LogData(received) <= Shown(show, trace[k].rows)
  {
    var messages := trace[k].pollers[i].emitted;
    RunStream.EmittedLogsArePrefix(trace, k, i);
    LogDataOfPrefix(received, FramedAll(show, messages));
    LogDataOfFramed(show, messages);
    ShownPrefix(show, RunStream.Logs(messages), trace[k].rows);
  }

  lemma ReceivedDone(show: Payloads, trace: seq<RunStream.System>, k: nat, i: nat, received: seq<Sse.StreamEvent>)
    requires RunStream.IsTrace(trace) && k < |trace| && i < |trace[k].pollers|
    requires received <= FramedAll(show, trace[k].pollers[i].emitted) && HasDone(received)
    ensures LogData(received) == Shown(show, trace[k].rows) && received != []
    ensures RunStream.Events(trace[k].rows) == trace[k].buffer
    ensures received[|received| - 1] == Framed(show, RunStream.DoneMessage(trace[k].status, trace[k].errors))
  {
    var messages := trace[k].pollers[i].emitted;
    forall m | 0 <= m < |messages| && messages[m].DoneMessage? ensures m == |messages| - 1 {
      RunStream.DoneComesAfterEverything(trace, k, i, m);
    }
    DoneArrivedMeansAll(show, messages, received);
    RunStream.DoneComesAfterEverything(trace, k, i, |messages| - 1);
    LogDataOfFramed(show, messages);
  }
}
