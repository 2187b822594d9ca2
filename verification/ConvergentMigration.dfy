/**
 * Migration to convergent sync (application/convergentSyncMigration.ts:58-205) and the restore that relies on it
 * (application/convergentSyncReplica.ts:19-46). The planner and the conversion of a restored payload stay
 * parameters, payloads carry no sync envelope, and answers are listed in the order in which they arrive. A crash
 * may cut the initialization after any persisted step.
 */
module ConvergentMigration {
  import opened Prelude

  datatype Payload = Payload(content: string)

  datatype Crdt = Crdt(content: string)

  datatype Meta = Meta(version: int, updatedAt: int, deviceId: string)

  datatype Remote =
    | DownloadFails
    | NoRemote
    | Legacy(meta: Meta, payload: Payload)
    | Convergent(meta: Meta, payload: Payload, state: Crdt)

  /** What one provider answered; None means that its trusted baseline could not be read. */
  datatype Answer = Answer(provider: string, trusted: Option<Option<Payload>>, remote: Remote)

  datatype Baseline = Baseline(provider: string, meta: Meta, payload: Payload, state: Crdt)

  datatype Plan = Plan(canInitialize: bool, state: Option<Crdt>, payload: Option<Payload>)

  datatype Prepared = Prepared(plan: Plan, baselines: seq<Baseline>, snapshot: Payload)

  datatype Replica = Replica(state: Crdt, updatedAt: int)

  type Planner = (Payload, Option<Payload>, seq<Answer>) -> Plan

  // ---- Preparation ----

  function TrustedOf(a: Answer): seq<Payload> {
    match a.trusted
    case Some(Some(p)) => [p]
    case _ => []
  }

  /** The baselines that could be read and are not absent. */
  function TrustedBaselines(answers: seq<Answer>): seq<Payload> {
    if answers == [] then [] else TrustedOf(answers[0]) + TrustedBaselines(answers[1..])
  }

  /** selectLocalTrustedBaseline: the common baseline, if all agree with the first. */
  function SelectTrusted(baselines: seq<Payload>, same: (Payload, Payload) -> bool): Option<Payload> {
    if baselines == [] then None
    else if forall b :: b in baselines ==> same(baselines[0], b) then Some(baselines[0])
    else None
  }

  /** The remote of this answer was reached, so the migration records a baseline for it. */
  predicate Ready(a: Answer) { a.trusted.Some? && (a.remote.Legacy? || a.remote.Convergent?) }

  /** A v2 provider keeps its own state; a v1 provider gets the plan's canonical state. */
  function BaselineFor(a: Answer, plan: Plan): Option<Baseline> {
    if a.trusted.None? then None
    else match a.remote
      case Convergent(meta, payload, state) => Some(Baseline(a.provider, meta, payload, state))
      case Legacy(meta, payload) =>
        if plan.state.Some? then Some(Baseline(a.provider, meta, payload, plan.state.value)) else None
      case _ => None
  }

  function V2Of(a: Answer): seq<Baseline> {
    if Ready(a) && a.remote.Convergent? then [Baseline(a.provider, a.remote.meta, a.remote.payload, a.remote.state)]
    else []
  }

  /** Baselines of v2 providers, and the v1 providers that wait for the plan. */
  function V2Baselines(answers: seq<Answer>): seq<Baseline> {
    if answers == [] then [] else V2Of(answers[0]) + V2Baselines(answers[1..])
  }

  function SeedOf(a: Answer): seq<Answer> { if Ready(a) && a.remote.Legacy? then [a] else [] }

  function Seeds(answers: seq<Answer>): (r: seq<Answer>)
    ensures forall a :: a in r ==> a.remote.Legacy?
  {
    if answers == [] then [] else SeedOf(answers[0]) + Seeds(answers[1..])
  }

  function Seeded(seeds: seq<Answer>, state: Crdt): seq<Baseline>
    requires forall a :: a in seeds ==> a.remote.Legacy?
  {
    if seeds == [] then []
    else [Baseline(seeds[0].provider, seeds[0].remote.meta, seeds[0].remote.payload, state)] + Seeded(seeds[1..], state)
  }

  function AllBaselines(answers: seq<Answer>, plan: Plan): seq<Baseline> {
    V2Baselines(answers) + if plan.state.Some? then Seeded(Seeds(answers), plan.state.value) else []
  }

  lemma {:induction false} V2Exactly(answers: seq<Answer>, b: Baseline)
    ensures b in V2Baselines(answers) <==>
              exists a :: a in answers && Ready(a) && a.remote == Convergent(b.meta, b.payload, b.state) &&
                          a.provider == b.provider
  {
    if answers != [] {
      V2Exactly(answers[1..], b);
      assert answers == [answers[0]] + answers[1..];
    }
  }

  lemma {:induction false} SeedsExactly(answers: seq<Answer>, a: Answer)
    ensures a in Seeds(answers) <==> a in answers && Ready(a) && a.remote.Legacy?
  {
    if answers != [] {
      SeedsExactly(answers[1..], a);
      assert answers == [answers[0]] + answers[1..];
    }
  }

  lemma {:induction false} SeededExactly(seeds: seq<Answer>, state: Crdt, b: Baseline)
    requires forall a :: a in seeds ==> a.remote.Legacy?
    ensures b in Seeded(seeds, state) <==>
              && b.state == state
              && exists a :: a in seeds && a.provider == b.provider && a.remote == Legacy(b.meta, b.payload)
  {
    if seeds != [] {
      SeededExactly(seeds[1..], state, b);
      assert seeds == [seeds[0]] + seeds[1..];
    }
  }

  /** The recorded baselines are exactly those of the reached providers: v2 with its state, v1 with the plan's. */
  lemma BaselinesExactly(answers: seq<Answer>, plan: Plan, b: Baseline)
    ensures b in AllBaselines(answers, plan) <==> exists a :: a in answers && BaselineFor(a, plan) == Some(b)
  {
    V2Exactly(answers, b);
    if plan.state.Some? {
      var state := plan.state.value;
      SeededExactly(Seeds(answers), state, b);
      forall a ensures a in Seeds(answers) <==> a in answers && Ready(a) && a.remote.Legacy? {
        SeedsExactly(answers, a);
      }
    }
  }

  /** This answer came with a baseline that could be read. */
  predicate HasBaseline(a: Answer) { a.trusted.Some? && a.trusted.value.Some? }

  lemma {:induction false} TrustedExactly(answers: seq<Answer>, p: Payload)
    ensures p in TrustedBaselines(answers) <==> exists a :: a in answers && a.trusted == Some(Some(p))
  {
    if answers != [] {
      TrustedExactly(answers[1..], p);
      assert answers == [answers[0]] + answers[1..];
    }
  }

  ghost predicate IsFirstBaseline(answers: seq<Answer>, i: int) {
    0 <= i < |answers| && HasBaseline(answers[i]) && forall j :: 0 <= j < i ==> !HasBaseline(answers[j])
  }

  lemma {:induction false} FirstListed(answers: seq<Answer>, i: nat)
    requires IsFirstBaseline(answers, i)
    ensures TrustedBaselines(answers) != [] && TrustedBaselines(answers)[0] == answers[i].trusted.value.value
  {
    if i > 0 {
      assert !HasBaseline(answers[0]) && TrustedOf(answers[0]) == [];
      assert forall j :: 0 <= j < |answers[1..]| ==> answers[1..][j] == answers[j + 1];
      FirstListed(answers[1..], i - 1);
    }
  }

  lemma SomeFirst(answers: seq<Answer>) returns (i: nat)
    requires exists a :: a in answers && HasBaseline(a)
    ensures IsFirstBaseline(answers, i)
  {
    i := 0;
    while !HasBaseline(answers[i])
      invariant i < |answers| && forall j :: 0 <= j < i ==> !HasBaseline(answers[j])
      decreases |answers| - i
    {
      assert exists k :: 0 <= k < |answers| && HasBaseline(answers[k]);
      i := i + 1;
    }
  }

  /** There is a trusted baseline exactly if every readable one agrees with the first, and then it is the first. */
  lemma TrustedIsCommon(answers: seq<Answer>, same: (Payload, Payload) -> bool, p: Payload)
    ensures SelectTrusted(TrustedBaselines(answers), same) == Some(p) <==>
              exists i :: IsFirstBaseline(answers, i) && p == answers[i].trusted.value.value &&
                          forall a :: a in answers && HasBaseline(a) ==> same(p, a.trusted.value.value)
  {
    var trusted := TrustedBaselines(answers);
    forall q ensures q in trusted <==> exists a :: a in answers && a.trusted == Some(Some(q)) {
      TrustedExactly(answers, q);
    }
    if trusted != [] {
      var a :| a in answers && a.trusted == Some(Some(trusted[0]));
      var i := SomeFirst(answers);
      FirstListed(answers, i);
      assert forall k :: IsFirstBaseline(answers, k) ==> k == i;
    }
    forall i | IsFirstBaseline(answers, i) ensures trusted != [] {
      FirstListed(answers, i);
    }
  }

  /** The loop body: what one answer adds to the three lists. */
  method Collect(answer: Answer, trusted0: seq<Payload>, baselines0: seq<Baseline>, seeds0: seq<Answer>)
    returns (trusted: seq<Payload>, baselines: seq<Baseline>, seeds: seq<Answer>)
    ensures trusted == trusted0 + TrustedOf(answer)
    ensures baselines == baselines0 + V2Of(answer)
    ensures seeds == seeds0 + SeedOf(answer)
  {
    trusted, baselines, seeds := trusted0, baselines0, seeds0;
    match answer.trusted {
      case Some(Some(p)) => trusted := trusted + [p];
      case _ =>
    }
    if Ready(answer) {
      if answer.remote.Convergent? {
        var remote := answer.remote;
        baselines := baselines + [Baseline(answer.provider, remote.meta, remote.payload, remote.state)];
      } else {
        seeds := seeds + [answer];
      }
    }
  }

  lemma Regroup<T>(done: seq<T>, more: seq<T>, rest: seq<T>)
    ensures done + (more + rest) == (done + more) + rest
  {
  }

  method PushSeeds(direct: seq<Baseline>, seeds: seq<Answer>, state: Crdt) returns (baselines: seq<Baseline>)
    requires forall a :: a in seeds ==> a.remote.Legacy?
    ensures baselines == direct + Seeded(seeds, state)
  {
    baselines := direct;
    for i := 0 to |seeds|
      invariant baselines + Seeded(seeds[i..], state) == direct + Seeded(seeds, state)
    {
      assert seeds[i..][0] == seeds[i] && seeds[i..][1..] == seeds[i + 1..];
      baselines := baselines + [Baseline(seeds[i].provider, seeds[i].remote.meta, seeds[i].remote.payload, state)];
    }
  }

  /** prepareConvergentSyncMigration, without the final sort of the baselines by provider. */
  method Prepare(local: Payload, answers: seq<Answer>, planner: Planner, same: (Payload, Payload) -> bool)
    returns (prepared: Prepared)
    ensures prepared.snapshot == local
    ensures prepared.plan == planner(local, SelectTrusted(TrustedBaselines(answers), same), answers)
    ensures prepared.baselines == AllBaselines(answers, prepared.plan)
  {
    var baselines, seeds, trusted := [], [], [];
    for i := 0 to |answers|
      invariant trusted + TrustedBaselines(answers[i..]) == TrustedBaselines(answers)
      invariant baselines + V2Baselines(answers[i..]) == V2Baselines(answers)
      invariant seeds + Seeds(answers[i..]) == Seeds(answers)
    {
      var answer := answers[i];
      ghost var rest := answers[i + 1..];
      assert answers[i..] == [answer] + rest;
      Regroup(trusted, TrustedOf(answer), TrustedBaselines(rest));
      Regroup(baselines, V2Of(answer), V2Baselines(rest));
      Regroup(seeds, SeedOf(answer), Seeds(rest));
      trusted, baselines, seeds := Collect(answer, trusted, baselines, seeds);
    }
    assert answers[|answers|..] == [];
    assert seeds == Seeds(answers) && baselines == V2Baselines(answers) && trusted == TrustedBaselines(answers);
    var plan := planner(local, SelectTrusted(trusted, same), answers);
    if plan.state.Some? {
      baselines := PushSeeds(baselines, seeds, plan.state.value);
    }
    prepared := Prepared(plan, baselines, local);
  }

  // ---- Initialization ----

  datatype End = Initialized | Blocked | Locked | Stale | SaveFailed | Crashed

  datatype Restore = NothingToCommit | Commit(replica: Replica) | ReplicaMissing

  /**
   * The step that does not happen, if any, because it throws or because the window dies: step 0 applies the
   * payload, then come the baselines in order, the replica and the flag.
   */
  datatype Course = Course(cutAt: Option<nat>, crash: bool)

  /** The steps up to this one happen. */
  predicate Reaches(c: Course, step: nat) { c.cutAt.None? || c.cutAt.value > step }

  function Ended(c: Course): End { if c.crash then Crashed else SaveFailed }

  /** The stored baselines after these have been saved one by one. */
  function Updated(before: map<string, Baseline>, saved: seq<Baseline>): map<string, Baseline> {
    if saved == [] then before
    else Updated(before, saved[..|saved| - 1])[saved[|saved| - 1].provider := saved[|saved| - 1]]
  }

  ghost predicate NoLater(saved: seq<Baseline>, i: nat) {
    forall j :: i < j < |saved| ==> saved[j].provider != saved[i].provider
  }

  ghost predicate Missing(saved: seq<Baseline>, provider: string) {
    forall i :: 0 <= i < |saved| ==> saved[i].provider != provider
  }

  /** Each provider of the list has the last baseline that the list gives to it; all others have what they had. */
  ghost predicate AllSaved(before: map<string, Baseline>, after: map<string, Baseline>, saved: seq<Baseline>) {
    && (forall i: nat :: i < |saved| && NoLater(saved, i) ==>
          saved[i].provider in after && after[saved[i].provider] == saved[i])
    && (forall p :: Missing(saved, p) ==>
          (p in after <==> p in before) && (p in after ==> after[p] == before[p]))
  }

  lemma {:induction false} UpdatedAt(before: map<string, Baseline>, saved: seq<Baseline>, i: nat)
    requires i < |saved| && NoLater(saved, i)
    ensures saved[i].provider in Updated(before, saved) && Updated(before, saved)[saved[i].provider] == saved[i]
  {
    if i < |saved| - 1 {
      UpdatedAt(before, saved[..|saved| - 1], i);
      assert saved[|saved| - 1].provider != saved[i].provider;
    }
  }

  lemma {:induction false} NotUpdated(before: map<string, Baseline>, saved: seq<Baseline>, p: string)
    requires Missing(saved, p)
    ensures p in Updated(before, saved) <==> p in before
    ensures p in before ==> Updated(before, saved)[p] == before[p]
  {
    if saved != [] {
      NotUpdated(before, saved[..|saved| - 1], p);
      assert saved[|saved| - 1].provider != p;
    }
  }

  lemma UpdatedExactly(before: map<string, Baseline>, saved: seq<Baseline>)
    ensures AllSaved(before, Updated(before, saved), saved)
  {
    forall i: nat | i < |saved| && NoLater(saved, i)
      ensures saved[i].provider in Updated(before, saved) && Updated(before, saved)[saved[i].provider] == saved[i]
    {
      UpdatedAt(before, saved, i);
    }
    forall p | Missing(saved, p)
      ensures p in Updated(before, saved) <==> p in before
      ensures p in before ==> Updated(before, saved)[p] == before[p]
    {
      NotUpdated(before, saved, p);
    }
  }

  class SyncStore {
    var vault: Payload
    var baselines: map<string, Baseline>
    var replica: Option<Replica>
    var initialized: bool

    /** An initialized configuration always has its replica. */
    ghost predicate Valid()
      reads this
    {
      initialized ==> replica.Some?
    }

    constructor (vault: Payload)
      ensures Valid() && !initialized && this.vault == vault
    {
      this.vault, baselines, replica, initialized := vault, map[], None, false;
    }

    method SaveBaselines(prepared: seq<Baseline>, c: Course) returns (all: bool)
      requires Reaches(c, 0)
      modifies `baselines
      ensures all <==> Reaches(c, |prepared|)
      ensures baselines == Updated(old(baselines), if all then prepared else prepared[..c.cutAt.value - 1])
    {
      for i := 0 to |prepared|
        invariant baselines == Updated(old(baselines), prepared[..i]) && Reaches(c, i)
      {
        if c.cutAt == Some(1 + i) { return false; }
        assert prepared[..i + 1][..i] == prepared[..i];
        baselines := baselines[prepared[i].provider := prepared[i]];
      }
      assert prepared[..|prepared|] == prepared;
      all := true;
    }

    /**
     * The protected part of initializePreparedConvergentMigration (lines 173-205): payload, baselines,
     * replica, flag. However it ends, the flag is newly set only over everything else.
     */
    method Initialize(prepared: Prepared, unlocked: bool, current: Payload, same: (Payload, Payload) -> bool, now: int,
                      c: Course)
      returns (end: End)
      requires Valid()
      modifies this
      ensures Valid()
      ensures initialized <==> old(initialized) || end.Initialized?
      ensures end.Initialized? ==>
                && prepared.plan.payload.Some? && vault == prepared.plan.payload.value
                && AllSaved(old(baselines), baselines, prepared.baselines)
                && prepared.plan.state.Some? && replica == Some(Replica(prepared.plan.state.value, now))
      ensures end.Blocked? || end.Locked? || end.Stale? ==>
                && vault == old(vault) && baselines == old(baselines)
                && replica == old(replica) && initialized == old(initialized)
      ensures end.Blocked? <==> !prepared.plan.canInitialize || prepared.plan.state.None? || prepared.plan.payload.None?
      ensures end.Locked? <==> !end.Blocked? && !unlocked
      ensures end.Stale? <==> !end.Blocked? && unlocked && !same(prepared.snapshot, current)
      ensures !end.Blocked? && !end.Locked? && !end.Stale? ==>
                var last := 2 + |prepared.baselines|;
                && end == (if Reaches(c, last) then Initialized else if c.crash then Crashed else SaveFailed)
                && (Reaches(c, 0) ==> vault == prepared.plan.payload.value)
                && baselines == (if !Reaches(c, 0) then old(baselines)
                                 else Updated(old(baselines), if Reaches(c, last - 2) then prepared.baselines
                                                              else prepared.baselines[..c.cutAt.value - 1]))
                && replica == (if Reaches(c, last - 1) then Some(Replica(prepared.plan.state.value, now))
                               else old(replica))
    {
      if !prepared.plan.canInitialize || prepared.plan.state.None? || prepared.plan.payload.None? {
        return Blocked;
      }
      if !unlocked {
        return Locked;
      }
      if !same(prepared.snapshot, current) {
        return Stale;
      }
      if c.cutAt == Some(0) {
        vault := *;
        return Ended(c);
      }
      vault := prepared.plan.payload.value;
      var n := |prepared.baselines|;
      var all := SaveBaselines(prepared.baselines, c);
      UpdatedExactly(old(baselines), prepared.baselines);
      if !all || c.cutAt == Some(n + 1) {
        return Ended(c);
      }
      replica := Some(Replica(prepared.plan.state.value, now));
      if c.cutAt == Some(n + 2) {
        return Ended(c);
      }
      initialized := true;
      end := Initialized;
    }

    /** prepareRestoredPayloadConvergentWrites: after any number of migrations the replica is there. */
    method PrepareRestore(restored: Payload, asWrites: (Replica, Payload, int) -> Crdt, now: int)
      returns (commit: Restore)
      requires Valid()
      ensures commit != ReplicaMissing
      ensures commit.Commit? <==> initialized
      ensures commit.Commit? ==> commit.replica == Replica(asWrites(replica.value, restored, now), now)
    {
      if !initialized {
        return NothingToCommit;
      }
      if replica.None? {
        return ReplicaMissing;
      }
      commit := Commit(Replica(asWrites(replica.value, restored, now), now));
    }

    /** The returned closure: a single save. */
    method CommitRestore(commit: Restore)
      requires Valid() && commit != ReplicaMissing
      modifies `replica
      ensures Valid() && replica == if commit.Commit? then Some(commit.replica) else old(replica)
    {
      if commit.Commit? {
        replica := Some(commit.replica);
      }
    }
  }
}
