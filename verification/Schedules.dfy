/** Schedules: create, update and the periodic tick, over an abstract calendar. */
module Schedules {
  import opened Wrappers

  type Time = int

  /** A cron expression with its time zone. */
  datatype Timing = Timing(cron: string, zone: string)

  /** Which timings are valid, when they fire, and `compute_next_run`. */
  datatype Calendar = Calendar(valid: Timing -> bool, instant: (Timing, Time) -> bool, next: (Timing, Time) -> Time)

  /** The next run is the least instant strictly after the given time. */
  ghost predicate Lawful(cal: Calendar) {
    forall t: Timing, now: Time :: cal.valid(t) ==> LeastAfter(cal, t, now, cal.next(t, now))
  }

  ghost predicate LeastAfter(cal: Calendar, t: Timing, now: Time, next: Time) {
    next > now && cal.instant(t, next) && forall u :: now < u < next ==> !cal.instant(t, u)
  }

  /** The columns of a schedule that its transitions read and write. */
  datatype Row = Row(timing: Timing, enabled: bool, nextRun: Option<Time>, lastRun: Option<Time>)

  datatype Patch = Patch(cron: Option<string>, zone: Option<string>, enabled: Option<bool>)

  datatype Rejection = InvalidTiming | UncaughtInvalidTiming

  // ---------------------------------------------------------------- transitions

  /** `create_schedule`. */
  function Create(cal: Calendar, now: Time, timing: Timing, enabled: bool): Result<Row, Rejection> {
    if !cal.valid(timing) then Err(InvalidTiming)
    else Ok(Row(timing, enabled, if enabled then Some(cal.next(timing, now)) else None, None))
  }

  /** `update_schedule`: fields one by one, then a new next run when the timing changed or the
      schedule is newly enabled. A rejection leaves the row alone. */
  function Update(cal: Calendar, now: Time, row: Row, patch: Patch): Result<Row, Rejection> {
    var timing := Timing(if patch.cron.Some? then patch.cron.value else row.timing.cron,
                         if patch.zone.Some? then patch.zone.value else row.timing.zone);
    var changed := patch.cron.Some? || patch.zone.Some?;
    if changed && !cal.valid(timing) then Err(InvalidTiming)
    else
      var enabled := if patch.enabled.Some? then patch.enabled.value else row.enabled;
      var row' := row.(timing := timing, enabled := enabled);
      if enabled && (changed || !row.enabled || row.nextRun.None?) then
        if cal.valid(timing) then Ok(row'.(nextRun := Some(cal.next(timing, now)))) else Err(UncaughtInvalidTiming)
      else Ok(row')
  }

  predicate Due(row: Row, now: Time) {
    row.enabled && row.nextRun.Some? && row.nextRun.value <= now
  }

  /** One schedule's part of `enqueue_due_schedules`. */
  function Tick(cal: Calendar, now: Time, row: Row): Row {
    if !Due(row, now) then row
    else if cal.valid(row.timing) then row.(lastRun := Some(now), nextRun := Some(cal.next(row.timing, now)))
    else row.(lastRun := Some(now), enabled := false)
  }

  // ---------------------------------------------------------------- every history

  datatype Operation = DoUpdate(now: Time, patch: Patch) | DoTick(now: Time)

  function Apply(cal: Calendar, row: Row, op: Operation): Row {
    match op
    case DoUpdate(now, patch) => (match Update(cal, now, row, patch) case Ok(r) => r case Err(_) => row)
    case DoTick(now) => Tick(cal, now, row)
  }

  /** The calendars may differ from step to step: time zone data can change under a schedule. */
  function History(row: Row, steps: seq<(Calendar, Operation)>): Row {
    if steps == [] then row
    else Apply(steps[|steps| - 1].0, History(row, steps[..|steps| - 1]), steps[|steps| - 1].1)
  }

  /** An enabled schedule has a next run, and it was computed from its current timing. */
  ghost predicate Armed(row: Row, calendars: set<Calendar>) {
    row.enabled ==>
        row.nextRun.Some? && exists cal, at ::
            cal in calendars && cal.valid(row.timing) && row.nextRun.value == cal.next(row.timing, at)
  }

  ghost function CalendarsOf(steps: seq<(Calendar, Operation)>): set<Calendar> {
    if steps == [] then {} else CalendarsOf(steps[..|steps| - 1]) + {steps[|steps| - 1].0}
  }

  lemma ArmedStep(row: Row, calendars: set<Calendar>, cal: Calendar, op: Operation)
    requires Armed(row, calendars)
    ensures Armed(Apply(cal, row, op), calendars + {cal})
  {
    var row' := Apply(cal, row, op);
    if row'.enabled {
      if row'.nextRun == row.nextRun && row'.timing == row.timing && row.enabled {
        var c, at :| c in calendars && c.valid(row.timing) && row.nextRun.value == c.next(row.timing, at);
        assert c in calendars + {cal};
      } else {
        assert cal in calendars + {cal};
        assert row'.nextRun.value == cal.next(row'.timing, op.now);
      }
    }
  }

  /** After any sequence of updates and ticks an enabled schedule has a next run that belongs to its
      present timing, never to an earlier one. */
  lemma {:induction false} EveryHistoryStaysArmed(created: Calendar, now: Time, timing: Timing, enabled: bool,
                                                  steps: seq<(Calendar, Operation)>)
    requires Create(created, now, timing, enabled).Ok?
    ensures Armed(History(Create(created, now, timing, enabled).value, steps), {created} + CalendarsOf(steps))
  {
    var row := Create(created, now, timing, enabled).value;
    if steps == [] {
      assert created in {created} + CalendarsOf(steps);
      assert enabled ==> row.nextRun.value == created.next(timing, now);
    } else {
      var front, last := steps[..|steps| - 1], steps[|steps| - 1];
      EveryHistoryStaysArmed(created, now, timing, enabled, front);
      ArmedStep(History(row, front), {created} + CalendarsOf(front), last.0, last.1);
      assert {created} + CalendarsOf(front) + {last.0} == {created} + CalendarsOf(steps);
    }
  }

  // ---------------------------------------------------------------- updates that raise

  /** After any history, an update raises the error that the route does not map exactly when the
      patch leaves the timing alone and turns a disabled schedule on whose stored timing is invalid
      by now. */
  lemma UpdateRaisesExactly(created: Calendar, start: Time, timing: Timing, enabled: bool,
                            steps: seq<(Calendar, Operation)>,
                            cal: Calendar, now: Time, patch: Patch)
    requires Create(created, start, timing, enabled).Ok?
    ensures var row := History(Create(created, start, timing, enabled).value, steps);
            Update(cal, now, row, patch) == Err(UncaughtInvalidTiming) <==>
              patch.cron.None? && patch.zone.None? && patch.enabled == Some(true) && !row.enabled
              && !cal.valid(row.timing)
  {
    EveryHistoryStaysArmed(created, start, timing, enabled, steps);
  }

  /** Every minute is an instant; or nothing is valid any more, as when a time zone is withdrawn. */
  const EVERY_MINUTE := Calendar(t => true, (t, u) => true, (t, u) => u + 1)
  const WITHDRAWN := Calendar(t => false, (t, u) => false, (t, u) => u + 1)

  /** A history that gets there: created, disabled by a tick once its timing has become invalid, and
      then re-enabled. */
  lemma ReenablingCanRaise(timing: Timing)
    ensures Lawful(EVERY_MINUTE)
    ensures var created := Create(EVERY_MINUTE, 0, timing, true);
            && created.Ok?
            && var row := History(created.value, [(WITHDRAWN, DoTick(5))]);
               !row.enabled && Update(WITHDRAWN, 6, row, Patch(None, None, Some(true))) == Err(UncaughtInvalidTiming)
  {
    var created := Create(EVERY_MINUTE, 0, timing, true).value;
    var steps := [(WITHDRAWN, DoTick(5))];
    assert steps[..0] == [];
    assert History(created, steps) == Apply(WITHDRAWN, History(created, []), DoTick(5));
  }

  // ---------------------------------------------------------------- when a tick fires

  ghost predicate InstantWithin(cal: Calendar, t: Timing, after: Time, upTo: Time) {
    exists u :: after < u <= upTo && cal.instant(t, u)
  }

  /** The row of an enabled, valid, unedited schedule after the tick at `at`. */
  predicate Waiting(cal: Calendar, row: Row, at: Time) {
    row.enabled && cal.valid(row.timing) && row.nextRun == Some(cal.next(row.timing, at))
  }

  /** A tick fires exactly when an instant lies since the previous tick, and leaves the schedule
      waiting for the first instant after now: an outage of any length gives one run. */
  lemma TickFires(cal: Calendar, row: Row, before: Time, now: Time)
    requires Lawful(cal) && Waiting(cal, row, before) && before <= now
    ensures Due(row, now) <==> InstantWithin(cal, row.timing, before, now)
    ensures Waiting(cal, Tick(cal, now, row), now) && Tick(cal, now, row).timing == row.timing
  {
    var next, later := cal.next(row.timing, before), cal.next(row.timing, now);
    assert LeastAfter(cal, row.timing, before, next) && LeastAfter(cal, row.timing, now, later);
    if now < next {
      assert next == later;
    }
  }

  /** The ticks of a schedule: for each, whether it created a run. */
  function Fired(cal: Calendar, row: Row, ticks: seq<Time>): (fired: seq<bool>)
    ensures |fired| == |ticks|
    decreases |ticks|
  {
    if ticks == [] then [] else [Due(row, ticks[0])] + Fired(cal, Tick(cal, ticks[0], row), ticks[1..])
  }

  predicate Increasing(start: Time, ticks: seq<Time>) {
    && (forall i :: 0 <= i < |ticks| ==> start <= ticks[i])
    && forall i, j :: 0 <= i < j < |ticks| ==> ticks[i] <= ticks[j]
  }

  /** Over any tick times: tick `i` creates a run exactly when a cron instant lies after the previous
      tick (or the creation) and not after this one. */
  lemma {:induction false} EveryTickFires(cal: Calendar, row: Row, start: Time, ticks: seq<Time>, i: nat)
    requires Lawful(cal) && Waiting(cal, row, start) && Increasing(start, ticks) && i < |ticks|
    ensures Fired(cal, row, ticks)[i] <==>
            InstantWithin(cal, row.timing, if i == 0 then start else ticks[i - 1], ticks[i])
    decreases |ticks|
  {
    TickFires(cal, row, start, ticks[0]);
    if i > 0 {
      var rest := ticks[1..];
      assert forall j :: 0 <= j < |rest| ==> rest[j] == ticks[j + 1];
      assert Increasing(ticks[0], rest);
      EveryTickFires(cal, Tick(cal, ticks[0], row), ticks[0], rest, i - 1);
    }
  }

  /** From its creation on: an enabled, valid, unedited schedule creates a run at exactly the ticks
      that have a cron instant behind them, back to the previous tick or the creation. */
  lemma CreatedScheduleFires(cal: Calendar, now: Time, timing: Timing, ticks: seq<Time>, i: nat)
    requires Lawful(cal) && cal.valid(timing) && Increasing(now, ticks) && i < |ticks|
    ensures var row := Create(cal, now, timing, true).value;
            Fired(cal, row, ticks)[i] <==> InstantWithin(cal, timing, if i == 0 then now else ticks[i - 1], ticks[i])
  {
    EveryTickFires(cal, Create(cal, now, timing, true).value, now, ticks, i);
  }

  // ---------------------------------------------------------------- the stored rows

  class Schedule {
    var timing: Timing
    var enabled: bool
    var nextRun: Option<Time>
    var lastRun: Option<Time>

    ghost function State(): Row
      reads this
    {
      Row(timing, enabled, nextRun, lastRun)
    }

    constructor (cal: Calendar, now: Time, t: Timing, on: bool)
      requires cal.valid(t)
      ensures Ok(State()) == Create(cal, now, t, on)
    {
      timing, enabled, lastRun := t, on, None;
      nextRun := if on then Some(cal.next(t, now)) else None;
    }

    /** `update_schedule`; nothing is committed when it is rejected. */
    method Change(cal: Calendar, now: Time, patch: Patch) returns (rejected: Option<Rejection>)
      modifies this
      ensures match Update(cal, now, old(State()), patch)
              case Ok(row) => State() == row && rejected == None
              case Err(e) => State() == old(State()) && rejected == Some(e)
    {
      var newTiming := Timing(if patch.cron.Some? then patch.cron.value else timing.cron,
                              if patch.zone.Some? then patch.zone.value else timing.zone);
      var changed := patch.cron.Some? || patch.zone.Some?;
      if changed && !cal.valid(newTiming) {
        return Some(InvalidTiming);
      }
      var newEnabled := if patch.enabled.Some? then patch.enabled.value else enabled;
      if newEnabled && (changed || !enabled || nextRun.None?) {
        if !cal.valid(newTiming) {
          return Some(UncaughtInvalidTiming);
        }
        nextRun := Some(cal.next(newTiming, now));
      }
      timing, enabled := newTiming, newEnabled;
      return None;
    }

    method Fire(cal: Calendar, now: Time)
      requires Due(State(), now)
      modifies this
      ensures State() == Tick(cal, now, old(State()))
    {
      lastRun := Some(now);
      if cal.valid(timing) {
        nextRun := Some(cal.next(timing, now));
      } else {
        enabled := false;
      }
    }
  }

  /** The positions of the due schedules, in order. */
  ghost function DueAmong(rows: seq<Row>, now: Time): seq<nat> {
    if rows == [] then []
    else DueAmong(rows[..|rows| - 1], now) + if Due(rows[|rows| - 1], now) then [|rows| - 1] else []
  }

  ghost function States(schedules: seq<Schedule>): seq<Row>
    reads schedules
  {
    seq(|schedules|, i requires 0 <= i < |schedules| reads schedules => schedules[i].State())
  }

  /** `enqueue_due_schedules`: one run for each due schedule, in order, and each schedule ticks. */
  method EnqueueDue(cal: Calendar, now: Time, schedules: seq<Schedule>) returns (runs: seq<nat>)
    requires forall i, j :: 0 <= i < j < |schedules| ==> schedules[i] != schedules[j]
    modifies schedules
    ensures runs == DueAmong(old(States(schedules)), now)
    ensures forall i :: 0 <= i < |schedules| ==> schedules[i].State() == Tick(cal, now, old(schedules[i].State()))
  {
    runs := [];
    ghost var before := States(schedules);
    for k := 0 to |schedules|
      invariant runs == DueAmong(before[..k], now)
      invariant forall i :: 0 <= i < k ==> schedules[i].State() == Tick(cal, now, before[i])
      invariant forall i :: k <= i < |schedules| ==> schedules[i].State() == before[i]
    {
      assert before[..k + 1][..k] == before[..k];
      var s := schedules[k];
      if s.enabled && s.nextRun.Some? && s.nextRun.value <= now {
        runs := runs + [k];
        s.Fire(cal, now);
      }
    }
    assert before[..|schedules|] == before;
  }
}
