/**
 * The upload limiter: slots are reserved with even spacing and no burst allowance.
 * Times are nanoseconds since the zero time, which no clock reading precedes.
 */
module Limiter {
  const MINUTE: nat := 60_000_000_000
  const MAX_UPLOADS_PER_MINUTE := 199

  /** `time.Minute / time.Duration(perMinute)`, an integer division; 0 switches the limiter off. */
  function Interval(perMinute: int): nat {
    if perMinute <= 0 then 0 else MINUTE / perMinute
  }

  /** The slots reserved by calls whose clock readings are `nows`, in the order in which they hold the mutex. */
  function Slots(interval: nat, nows: seq<nat>): (slots: seq<nat>)
    ensures |slots| == |nows|
  {
    if nows == [] then []
    else
      var init := Slots(interval, nows[..|nows| - 1]);
      var now := nows[|nows| - 1];
      if init == [] || init[|init| - 1] + interval <= now then init + [now] else init + [init[|init| - 1] + interval]
  }

  class IntervalLimiter {
    var next: nat
    const interval: nat
    /** The clock readings of the calls so far. */
    ghost var nows: seq<nat>

    ghost predicate Valid()
      reads this
    {
      var slots := Slots(interval, nows);
      next == if slots == [] then 0 else slots[|slots| - 1] + interval
    }

    constructor (perMinute: int)
      ensures Valid() && interval == Interval(perMinute) && nows == []
    {
      interval := if perMinute <= 0 then 0 else MINUTE / perMinute;
      next, nows := 0, [];
    }

    /** Reserve a slot; the caller then sleeps until it. */
    method Reserve(now: nat) returns (slot: nat)
      requires Valid()
      modifies this
      ensures Valid()
      ensures interval == 0 ==> slot == now && nows == old(nows)
      ensures interval > 0 ==> nows == old(nows) + [now] && Slots(interval, nows) == old(Slots(interval, nows)) + [slot]
    {
      if interval == 0 {
        return now;
      }
      assert (nows + [now])[..|nows|] == nows;
      slot := now;
      if next > now {
        slot := next;
      }
      next := slot + interval;
      nows := nows + [now];
    }
  }

  // ----- the schedule in closed form -----

  function Delayed(now: nat, calls: nat, interval: nat): nat { now + calls * interval }

  /** Slot i is the greatest of now_j + (i - j) * interval over the calls j up to i. */
  lemma {:induction false} SlotIsLatestDemand(interval: nat, nows: seq<nat>, i: nat)
    requires i < |nows|
    ensures forall j: nat :: j <= i ==> Delayed(nows[j], i - j, interval) <= Slots(interval, nows)[i]
    ensures exists j: nat :: j <= i && Delayed(nows[j], i - j, interval) == Slots(interval, nows)[i]
    decreases |nows|
  {
    var init := nows[..|nows| - 1];
    if i < |init| {
      SlotIsLatestDemand(interval, init, i);
      var j: nat :| j <= i && Delayed(init[j], i - j, interval) == Slots(interval, init)[i];
      assert Delayed(nows[j], i - j, interval) == Slots(interval, nows)[i];
      forall k: nat | k <= i ensures Delayed(nows[k], i - k, interval) <= Slots(interval, nows)[i] {
        assert init[k] == nows[k];
      }
    } else {
      var slots := Slots(interval, nows);
      assert Delayed(nows[i], 0, interval) == nows[i];
      if i > 0 {
        SlotIsLatestDemand(interval, init, i - 1);
        var before := Slots(interval, init)[i - 1];
        forall k: nat | k < i ensures Delayed(nows[k], i - k, interval) <= before + interval {
          assert Delayed(init[k], i - 1 - k, interval) <= before;
          OneMoreCall(nows[k], i - k, interval);
        }
        var j: nat :| j <= i - 1 && Delayed(init[j], i - 1 - j, interval) == before;
        OneMoreCall(nows[j], i - j, interval);
        assert slots[i] == nows[i] || slots[i] == Delayed(nows[j], i - j, interval);
      }
    }
  }

  lemma OneMoreCall(now: nat, calls: nat, interval: nat)
    requires calls > 0
    ensures Delayed(now, calls, interval) == Delayed(now, calls - 1, interval) + interval
  {
  }

  /** Slots in this order, none before its call and each at least an interval after the one before. */
  ghost predicate Schedule(interval: nat, nows: seq<nat>, slots: seq<nat>) {
    |slots| == |nows| && (forall i :: 0 <= i < |slots| ==> nows[i] <= slots[i]) && Spaced(interval, slots)
  }

  ghost predicate Spaced(interval: nat, slots: seq<nat>) {
    forall i, j :: 0 <= i && j == i + 1 < |slots| ==> slots[i] + interval <= slots[j]
  }

  lemma {:induction false} SlotsAreScheduled(interval: nat, nows: seq<nat>)
    ensures Schedule(interval, nows, Slots(interval, nows))
  {
    if nows != [] {
      SlotsAreScheduled(interval, nows[..|nows| - 1]);
    }
  }

  /** The reserved slots are the earliest schedule: no other one gives any call an earlier slot. */
  lemma {:induction false} SlotsAreEarliest(interval: nat, nows: seq<nat>, other: seq<nat>, i: nat)
    requires Schedule(interval, nows, other) && i < |nows|
    ensures Schedule(interval, nows, Slots(interval, nows))
    ensures Slots(interval, nows)[i] <= other[i]
    decreases |nows|
  {
    SlotsAreScheduled(interval, nows);
    var init, rest := nows[..|nows| - 1], other[..|nows| - 1];
    assert Schedule(interval, init, rest);
    if i < |init| {
      SlotsAreEarliest(interval, init, rest, i);
    } else if i > 0 {
      SlotsAreEarliest(interval, init, rest, i - 1);
    }
  }

  // ----- slots in a window of one minute -----

  /** How many slots lie in the half-open minute from `start`. */
  function InMinute(slots: seq<nat>, start: nat): nat {
    if slots == [] then 0
    else
      var last := slots[|slots| - 1];
      InMinute(slots[..|slots| - 1], start) + if start <= last < start + MINUTE then 1 else 0
  }

  lemma {:induction false} SpacedInMinute(interval: nat, slots: seq<nat>, start: nat)
    requires Spaced(interval, slots)
    ensures var n := InMinute(slots, start);
      n >= 1 ==> (n - 1) * interval < MINUTE && slots[|slots| - 1] >= start + (n - 1) * interval
  {
    if slots != [] {
      var init := slots[..|slots| - 1];
      SpacedInMinute(interval, init, start);
      var k, n := InMinute(init, start), InMinute(slots, start);
      if k >= 1 && n == k + 1 {
        assert (n - 1) * interval == (k - 1) * interval + interval;
      }
    }
  }

  /** The most slots any minute can hold: one more than asked for, unless the division is exact. */
  function MostPerMinute(perMinute: nat): nat
    requires perMinute > 0
  {
    if MINUTE % perMinute == 0 then perMinute else perMinute + 1
  }

  lemma IntervalDivides(perMinute: nat)
    requires 0 < perMinute <= MAX_UPLOADS_PER_MINUTE
    ensures var i := Interval(perMinute);
      perMinute * i + MINUTE % perMinute == MINUTE && MINUTE % perMinute < i
  {
    if Interval(perMinute) < 1000 { SmallFactor(perMinute, Interval(perMinute)); }
  }

  lemma SmallFactor(p: nat, i: nat)
    requires p <= 199 && i < 1000
    ensures p * i < 1_000_000
  {
    assert p * i <= 199 * i;
  }

  lemma MostFillsMinute(perMinute: nat)
    requires 0 < perMinute <= MAX_UPLOADS_PER_MINUTE
    ensures MostPerMinute(perMinute) * Interval(perMinute) >= MINUTE
  {
    var interval := Interval(perMinute);
    IntervalDivides(perMinute);
    assert (perMinute + 1) * interval == perMinute * interval + interval;
  }

  /** For every configuration, clock and window: a minute holds at most the requested number of slots, plus one. */
  lemma MinuteBound(perMinute: nat, nows: seq<nat>, start: nat)
    requires 0 < perMinute <= MAX_UPLOADS_PER_MINUTE
    ensures InMinute(Slots(Interval(perMinute), nows), start) <= MostPerMinute(perMinute) <= 200
  {
    var interval := Interval(perMinute);
    var n := InMinute(Slots(interval, nows), start);
    SlotsAreScheduled(interval, nows);
    SpacedInMinute(interval, Slots(interval, nows), start);
    MostFillsMinute(perMinute);
    if n > MostPerMinute(perMinute) { ManySlotsFill(interval, n - 1, MostPerMinute(perMinute)); }
  }

  lemma ManySlotsFill(interval: nat, n: nat, m: nat)
    requires n >= m
    ensures n * interval >= m * interval
  {
  }

  function Zeros(n: nat): seq<nat> { seq(n, _ => 0) }

  lemma {:induction false} BurstSlots(interval: nat, n: nat, i: nat)
    requires i < n
    ensures Slots(interval, Zeros(n))[i] == i * interval
    decreases n
  {
    assert Zeros(n)[..n - 1] == Zeros(n - 1);
    if i < n - 1 {
      BurstSlots(interval, n - 1, i);
    } else if i > 0 {
      BurstSlots(interval, n - 1, i - 1);
      assert i * interval == (i - 1) * interval + interval;
    }
  }

  lemma {:induction false} AllInMinute(slots: seq<nat>)
    requires forall i :: 0 <= i < |slots| ==> slots[i] < MINUTE
    ensures InMinute(slots, 0) == |slots|
  {
    if slots != [] { AllInMinute(slots[..|slots| - 1]); }
  }

  /** The bound is reached: that many uploads at once get slots within one minute. */
  lemma {:induction false} MinuteBoundReached(perMinute: nat)
    requires 0 < perMinute <= MAX_UPLOADS_PER_MINUTE
    ensures InMinute(Slots(Interval(perMinute), Zeros(MostPerMinute(perMinute))), 0) == MostPerMinute(perMinute)
  {
    var interval, n := Interval(perMinute), MostPerMinute(perMinute);
    var slots := Slots(interval, Zeros(n));
    IntervalDivides(perMinute);
    assert (n - 1) * interval < MINUTE by {
      if n == perMinute { assert perMinute * interval == (perMinute - 1) * interval + interval; }
    }
    forall i | 0 <= i < n ensures slots[i] < MINUTE {
      BurstSlots(interval, n, i);
      ManySlotsFill(interval, n - 1, i);
    }
    AllInMinute(slots);
  }

  /**
   * The documented aim, fewer than 200 uploads in any minute, is met by every clock exactly for the configurations
   * up to 198: with 199, a burst gets 200 slots within a minute.
   */
  lemma Below200IffAtMost198(perMinute: nat)
    requires 0 < perMinute <= MAX_UPLOADS_PER_MINUTE
    ensures (forall nows, start :: InMinute(Slots(Interval(perMinute), nows), start) < 200) <==> perMinute <= 198
  {
    if perMinute <= 198 {
      forall nows, start ensures InMinute(Slots(Interval(perMinute), nows), start) < 200 {
        MinuteBound(perMinute, nows, start);
      }
    } else {
      MinuteBoundReached(199);
      assert perMinute == 199 && MostPerMinute(199) == 200;
      assert InMinute(Slots(Interval(perMinute), Zeros(200)), 0) == 200;
    }
  }
}
