/** The token-interval limiter. Time is real-valued; a waiter proceeds at its slot. */
module RateLimiter {

  function Max(a: real, b: real): real {
    if a < b then b else a
  }

  /** The slots given to a sequence of arrivals, from a limiter whose next slot is `next`. */
  function Slots(interval: real, next: real, arrivals: seq<real>): (slots: seq<real>)
    ensures |slots| == |arrivals|
    decreases |arrivals|
  {
    if arrivals == [] then []
    else
      var slot := Max(arrivals[0], next);
      [slot] + Slots(interval, slot + interval, arrivals[1..])
  }

  /** A first-come-first-served schedule: nobody before arriving, nobody before `next`, and
      consecutive ones at least an interval apart. */
  ghost predicate Feasible(interval: real, next: real, arrivals: seq<real>, times: seq<real>) {
    && |times| == |arrivals|
    && (forall i :: 0 <= i < |times| ==> times[i] >= arrivals[i])
    && (times != [] ==> times[0] >= next)
    && forall i, j :: 0 <= i && j == i + 1 && j < |times| ==> times[j] >= times[i] + interval
  }

  lemma {:induction false} SlotsAreFeasible(interval: real, next: real, arrivals: seq<real>)
    requires interval > 0.0
    ensures Feasible(interval, next, arrivals, Slots(interval, next, arrivals))
    decreases |arrivals|
  {
    if arrivals != [] {
      var slot := Max(arrivals[0], next);
      SlotsAreFeasible(interval, slot + interval, arrivals[1..]);
      var slots, rest := Slots(interval, next, arrivals), Slots(interval, slot + interval, arrivals[1..]);
      forall i | 0 <= i < |slots| ensures slots[i] >= arrivals[i] {
        if i > 0 {
          assert slots[i] == rest[i - 1] && arrivals[i] == arrivals[1..][i - 1];
        }
      }
      forall i, j | 0 <= i && j == i + 1 && j < |slots| ensures slots[j] >= slots[i] + interval {
        assert slots[j] == rest[i];
        if i > 0 {
          assert slots[i] == rest[i - 1];
        }
      }
    }
  }

  /** No feasible schedule serves anyone earlier. */
  lemma {:induction false} SlotsAreEarliest(interval: real, next: real, arrivals: seq<real>, times: seq<real>, i: nat)
    requires Feasible(interval, next, arrivals, times) && i < |times|
    ensures Slots(interval, next, arrivals)[i] <= times[i]
    decreases i
  {
    if i > 0 {
      var slot := Max(arrivals[0], next);
      var rest := times[1..];
      assert times[1] >= times[0] + interval;
      forall a, b | 0 <= a && b == a + 1 && b < |rest| ensures rest[b] >= rest[a] + interval {
        assert times[b + 1] >= times[a + 1] + interval;
      }
      assert Feasible(interval, slot + interval, arrivals[1..], rest);
      SlotsAreEarliest(interval, slot + interval, arrivals[1..], rest, i - 1);
    }
  }

  /** Slots that are `n` places apart are at least `n` intervals apart. */
  lemma {:induction false} SlotsSpread(interval: real, next: real, arrivals: seq<real>, i: nat, j: nat)
    requires interval > 0.0 && i <= j < |arrivals|
    ensures Slots(interval, next, arrivals)[j] >= Slots(interval, next, arrivals)[i] + (j - i) as real * interval
    decreases j - i
  {
    if i < j {
      SlotsSpread(interval, next, arrivals, i, j - 1);
      SlotsAreFeasible(interval, next, arrivals);
      var slots := Slots(interval, next, arrivals);
      assert slots[j] >= slots[j - 1] + interval;
      assert (j - i) as real * interval == (j - 1 - i) as real * interval + interval;
    }
  }

  /** The requests served within a window of time. */
  ghost function Served(slots: seq<real>, from: real, length: real): set<int> {
    set i | 0 <= i < |slots| && from <= slots[i] <= from + length
  }

  lemma {:induction false} RangeSize(lo: int, hi: int, s: set<int>)
    requires lo <= hi && forall i :: i in s ==> lo <= i < hi
    ensures |s| <= hi - lo
    decreases hi - lo
  {
    if lo == hi {
      assert forall i :: i !in s;
      assert |s| == 0;
    } else {
      RangeSize(lo, hi - 1, s - {hi - 1});
      assert s - {hi - 1} == if hi - 1 in s then s - {hi - 1} else s;
    }
  }

  lemma FloorOfQuotient(n: int, interval: real, length: real)
    requires interval > 0.0 && n >= 0 && n as real * interval <= length
    ensures n <= (length / interval).Floor
  {
    assert n as real <= length / interval by {
      assert n as real * interval / interval == n as real;
      assert n as real * interval / interval <= length / interval;
    }
  }

  /** The requests served in a window lie between two positions that are themselves in it. */
  lemma WindowRange(slots: seq<real>, from: real, length: real) returns (lo: nat, hi: nat)
    ensures lo <= hi <= |slots| && forall i :: i in Served(slots, from, length) ==> lo <= i < hi
    ensures lo < hi ==> from <= slots[lo] && slots[hi - 1] <= from + length
  {
    lo, hi := 0, |slots|;
    while lo < |slots| && slots[lo] < from
      invariant lo <= |slots| && forall i :: 0 <= i < lo ==> slots[i] < from
    {
      lo := lo + 1;
    }
    while hi > lo && slots[hi - 1] > from + length
      invariant lo <= hi <= |slots| && forall i :: hi <= i < |slots| ==> slots[i] > from + length
    {
      hi := hi - 1;
    }
  }

  /** In any window of length T at most floor(T / interval) + 1 requests are served. */
  lemma WindowBound(interval: real, next: real, arrivals: seq<real>, from: real, length: real)
    requires interval > 0.0 && length >= 0.0
    ensures |Served(Slots(interval, next, arrivals), from, length)| <= (length / interval).Floor + 1
  {
    var slots := Slots(interval, next, arrivals);
    var lo, hi := WindowRange(slots, from, length);
    RangeSize(lo, hi, Served(slots, from, length));
    var n := if lo < hi then hi - 1 - lo else 0;
    if lo < hi {
      SlotsSpread(interval, next, arrivals, lo, hi - 1);
    }
    FloorOfQuotient(n, interval, length);
  }

  // ---------------------------------------------------------------- the object

  class Limiter {
    const interval: real
    var nextSlot: real
    /** The arrivals served so far, in lock order, and their slots. */
    ghost var arrivals: seq<real>
    ghost var slots: seq<real>

    ghost predicate Valid()
      reads this
    {
      && interval > 0.0
      && slots == Slots(interval, 0.0, arrivals)
      && nextSlot == if slots == [] then 0.0 else slots[|slots| - 1] + interval
    }

    constructor (rps: real)
      requires rps > 0.0
      ensures Valid() && interval == 1.0 / rps && arrivals == []
    {
      interval := 1.0 / rps;
      nextSlot := 0.0;
      arrivals, slots := [], [];
      new;
      assert interval > 0.0 by {
        assert interval * rps == 1.0;
      }
    }

    /** `acquire` at time `now`: take the next slot, and how long to sleep for it. */
    method Acquire(now: real) returns (delay: real)
      requires Valid()
      modifies this
      ensures Valid() && arrivals == old(arrivals) + [now]
      ensures |slots| == |old(slots)| + 1 && slots[..|slots| - 1] == old(slots)
      ensures delay == slots[|slots| - 1] - now && delay >= 0.0
    {
      var slot := Max(now, nextSlot);
      SlotsSnoc(interval, 0.0, arrivals, now);
      nextSlot := slot + interval;
      delay := slot - now;
      arrivals, slots := arrivals + [now], slots + [slot];
    }
  }

  /** The slot after a sequence of arrivals depends only on the last slot. */
  lemma {:induction false} SlotsSnoc(interval: real, next: real, arrivals: seq<real>, now: real)
    ensures var slots := Slots(interval, next, arrivals);
            Slots(interval, next, arrivals + [now]) ==
              slots + [Max(now, if slots == [] then next else slots[|slots| - 1] + interval)]
    decreases |arrivals|
  {
    if arrivals == [] {
      assert (arrivals + [now])[1..] == [];
    } else {
      var slot := Max(arrivals[0], next);
      assert (arrivals + [now])[1..] == arrivals[1..] + [now];
      SlotsSnoc(interval, slot + interval, arrivals[1..], now);
    }
  }
}
