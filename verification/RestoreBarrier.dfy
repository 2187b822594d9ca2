/**
 * The cross-window restore barrier (application/localVaultBackups.ts:257-327): a deadline re-written by a
 * heartbeat while the guarded work runs. Times are milliseconds; a heartbeat that does not fire, or whose write is
 * dropped, counts as missed.
 */
module RestoreBarrier {

  const HEARTBEAT_MS: real := 20000.0

  function Max(a: real, b: real): real { if a >= b then a else b }

  function Min(a: real, b: real): real { if a <= b then a else b }

  function Interval(hold: real): (h: real)
    ensures h >= 1000.0
  {
    Max(1000.0, Min(hold / 3.0, HEARTBEAT_MS))
  }

  /** Time of heartbeat `i`; heartbeat 0 is the write before the guarded work starts. */
  function Tick(start: real, hold: real, i: nat): real { start + (i as real) * Interval(hold) }

  /** The last heartbeat up to `i` that wrote, if any. */
  function LastFired(fired: seq<bool>, i: nat): (r: int)
    requires i < |fired|
    ensures -1 <= r <= i && (r >= 0 ==> fired[r])
    ensures forall k :: r < k <= i ==> !fired[k]
  {
    if fired[i] then i else if i == 0 then -1 else LastFired(fired, i - 1)
  }

  /** The first write lands and no two consecutive heartbeats are missed. */
  ghost predicate Steady(fired: seq<bool>) {
    fired != [] && fired[0] && forall i :: 0 < i < |fired| ==> fired[i - 1] || fired[i]
  }

  /** The deadline that stands from heartbeat `i` until the next one: the last one written, or the one from before. */
  function Deadline(before: real, start: real, hold: real, fired: seq<bool>, i: nat): real
    requires i < |fired|
  {
    if LastFired(fired, i) < 0 then before else Tick(start, hold, LastFired(fired, i)) + hold
  }

  /** Moment `t` lies between heartbeat `i` and the next one, ends included. */
  predicate During(start: real, hold: real, i: nat, t: real) {
    Tick(start, hold, i) <= t <= Tick(start, hold, i + 1)
  }

  lemma TickStep(start: real, hold: real, i: nat)
    ensures Tick(start, hold, i + 1) == Tick(start, hold, i) + Interval(hold)
  {
  }

  /** At every moment of the guarded work the deadline lies strictly ahead. */
  ghost predicate AlwaysHeld(before: real, start: real, hold: real, fired: seq<bool>) {
    forall i: nat, t: real :: i < |fired| && During(start, hold, i, t) ==> Deadline(before, start, hold, fired, i) > t
  }

  lemma SteadyHolds(before: real, start: real, hold: real, fired: seq<bool>)
    requires Steady(fired) && hold > 2000.0
    ensures AlwaysHeld(before, start, hold, fired)
  {
    forall i: nat, t: real | i < |fired| && During(start, hold, i, t)
      ensures Deadline(before, start, hold, fired, i) > t
    {
      var last := LastFired(fired, i);
      if i > 0 {
        assert fired[i - 1] || fired[i];
        TickStep(start, hold, i - 1);
      }
      TickStep(start, hold, i);
      assert last == i || last == i - 1;
      assert 2.0 * Interval(hold) < hold;
    }
  }

  lemma ShortHoldLapses(before: real, start: real, hold: real)
    requires hold <= 2000.0
    ensures !AlwaysHeld(before, start, hold, [true, false])
  {
    var fired := [true, false];
    var t := Tick(start, hold, 2);
    assert LastFired(fired, 1) == 0;
    assert Interval(hold) == 1000.0;
    TickStep(start, hold, 0);
    TickStep(start, hold, 1);
    assert During(start, hold, 1, t);
    assert Deadline(before, start, hold, fired, 1) <= t;
  }

  /** One missed heartbeat at a time is harmless exactly when a hold lasts longer than two seconds. */
  lemma HoldThreshold(before: real, start: real, hold: real)
    ensures (forall fired | Steady(fired) :: AlwaysHeld(before, start, hold, fired)) <==> hold > 2000.0
  {
    if hold > 2000.0 {
      forall fired | Steady(fired) ensures AlwaysHeld(before, start, hold, fired) {
        SteadyHolds(before, start, hold, fired);
      }
    } else {
      ShortHoldLapses(before, start, hold);
      assert Steady([true, false]);
    }
  }

  /** Whatever is missed, no deadline outlasts the later of the old one and one hold after its own heartbeat. */
  lemma LastNotLater(before: real, start: real, hold: real, fired: seq<bool>, i: nat)
    requires i < |fired|
    ensures LastFired(fired, i) >= 0 ==> Deadline(before, start, hold, fired, i) <= Tick(start, hold, i) + hold
  {
    var last := LastFired(fired, i);
    if last >= 0 {
      assert (last as real) * Interval(hold) <= (i as real) * Interval(hold);
    }
  }

  // ---- How many heartbeats in a row may be missed ----

  ghost predicate FiresWithin(fired: seq<bool>, i: nat, m: nat) {
    exists k :: i <= k <= i + m && k < |fired| && fired[k]
  }

  /** The first write lands, and of any `m + 1` heartbeats in a row one is not missed. */
  ghost predicate MissesAtMost(fired: seq<bool>, m: nat) {
    fired != [] && fired[0] && forall i: nat :: i + m < |fired| ==> FiresWithin(fired, i, m)
  }

  /** All writes but the first are missed. */
  function OnlyFirst(m: nat): seq<bool> { [true] + seq(m, i => false) }

  lemma RecentlyFired(fired: seq<bool>, m: nat, i: nat)
    requires MissesAtMost(fired, m) && i < |fired|
    ensures LastFired(fired, i) >= 0 && LastFired(fired, i) >= i - m
  {
    if i >= m {
      assert FiresWithin(fired, i - m, m);
    } else {
      assert fired[0];
    }
  }

  lemma Apart(start: real, hold: real, i: nat, k: nat)
    requires k <= i
    ensures Tick(start, hold, i) == Tick(start, hold, k) + ((i - k) as real) * Interval(hold)
  {
    assert (i as real) * Interval(hold) == (k as real) * Interval(hold) + ((i - k) as real) * Interval(hold);
  }

  lemma FewGaps(a: nat, b: nat, h: real)
    requires a <= b && h >= 0.0
    ensures (a as real) * h <= (b as real) * h
  {
  }

  lemma AheadWhileFewMissed(before: real, start: real, hold: real, fired: seq<bool>, m: nat, i: nat)
    requires MissesAtMost(fired, m) && i < |fired|
    ensures Deadline(before, start, hold, fired, i) >=
              Tick(start, hold, i + 1) + hold - ((m + 1) as real) * Interval(hold)
  {
    RecentlyFired(fired, m, i);
    var last: nat := LastFired(fired, i);
    var gaps: nat := i + 1 - last;
    Apart(start, hold, i + 1, last);
    FewGaps(gaps, m + 1, Interval(hold));
    assert Deadline(before, start, hold, fired, i) == Tick(start, hold, last) + hold;
    assert Tick(start, hold, i + 1) == Tick(start, hold, last) + (gaps as real) * Interval(hold);
  }

  lemma FewMissesHold(before: real, start: real, hold: real, fired: seq<bool>, m: nat)
    requires MissesAtMost(fired, m) && ((m + 1) as real) * Interval(hold) < hold
    ensures AlwaysHeld(before, start, hold, fired)
  {
    forall i: nat, t: real | i < |fired| && During(start, hold, i, t)
      ensures Deadline(before, start, hold, fired, i) > t
    {
      AheadWhileFewMissed(before, start, hold, fired, m, i);
    }
  }

  lemma ManyMissesLapse(before: real, start: real, hold: real, m: nat)
    requires ((m + 1) as real) * Interval(hold) >= hold
    ensures MissesAtMost(OnlyFirst(m), m) && !AlwaysHeld(before, start, hold, OnlyFirst(m))
  {
    var fired, t := OnlyFirst(m), Tick(start, hold, m + 1);
    assert fired[0];
    assert LastFired(fired, m) == 0;
    assert FiresWithin(fired, 0, m);
    Apart(start, hold, m + 1, 0);
    TickStep(start, hold, m);
    assert During(start, hold, m, t);
    assert Deadline(before, start, hold, fired, m) <= t;
  }

  /** Up to `m` misses in a row are harmless exactly when a hold is longer than `m + 1` intervals. */
  lemma MissesSurvived(before: real, start: real, hold: real, m: nat)
    ensures (forall fired | MissesAtMost(fired, m) :: AlwaysHeld(before, start, hold, fired)) <==>
              ((m + 1) as real) * Interval(hold) < hold
  {
    if ((m + 1) as real) * Interval(hold) < hold {
      forall fired | MissesAtMost(fired, m) ensures AlwaysHeld(before, start, hold, fired) {
        FewMissesHold(before, start, hold, fired, m);
      }
    } else {
      ManyMissesLapse(before, start, hold, m);
    }
  }

  /** The default hold of a minute survives one miss, and not two; a hold of a hundred seconds survives three. */
  lemma UsualHolds(before: real, start: real, m: nat)
    ensures (forall fired | MissesAtMost(fired, m) :: AlwaysHeld(before, start, 60000.0, fired)) <==> m <= 1
    ensures (forall fired | MissesAtMost(fired, m) :: AlwaysHeld(before, start, 100000.0, fired)) <==> m <= 3
  {
    MissesSurvived(before, start, 60000.0, m);
    MissesSurvived(before, start, 100000.0, m);
  }

  class Barrier {
    /** The persisted key that other windows read. */
    var deadline: real

    /**
     * runWithRestoreBarrier: the guarded work lasts through the heartbeats of `fired` and ends normally, with an
     * error, or with the window; storage may drop the closing write. `stood` lists the deadline after each heartbeat.
     */
    method Run(start: real, hold: real, fired: seq<bool>, crashed: bool, closes: bool)
      returns (ghost stood: seq<real>)
      requires fired != []
      modifies this
      ensures |stood| == |fired|
      ensures forall i :: 0 <= i < |fired| ==> stood[i] == Deadline(old(deadline), start, hold, fired, i)
      ensures Steady(fired) && hold > 2000.0 ==>
                forall i: nat, t: real :: i < |fired| && During(start, hold, i, t) ==> stood[i] > t
      ensures !crashed && closes ==> deadline == 0.0
      ensures crashed || !closes ==>
                && deadline == Deadline(old(deadline), start, hold, fired, |fired| - 1)
                && (true in fired ==> deadline <= Tick(start, hold, |fired| - 1) + hold)
                && (true !in fired ==> deadline == old(deadline))
    {
      if fired[0] {
        deadline := start + hold;
      }
      stood := [deadline];
      for i := 1 to |fired|
        invariant |stood| == i && deadline == stood[i - 1]
        invariant forall k :: 0 <= k < i ==> stood[k] == Deadline(old(deadline), start, hold, fired, k)
      {
        if fired[i] {
          deadline := Tick(start, hold, i) + hold;
        }
        stood := stood + [deadline];
      }
      if Steady(fired) && hold > 2000.0 {
        SteadyHolds(old(deadline), start, hold, fired);
      }
      LastNotLater(old(deadline), start, hold, fired, |fired| - 1);
      if !crashed && closes {
        deadline := 0.0;
      }
    }
  }
}
