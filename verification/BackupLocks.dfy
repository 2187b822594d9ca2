/**
 * Restores, crashes, retention and backup clearing across windows (application/localVaultBackups.ts:98-106, 283-293,
 * 438-478) over the main process, which runs backup jobs one at a time (electron/bridges/vaultBackupBridge.cjs:
 * 321-331, 345-347, 372-411). Restores hold a lock in shared mode; clearing takes it exclusively, only if it is
 * free at once, and only while no interrupted apply is recorded. Any number of windows may interleave and crash;
 * a job that a crashed window has ordered still runs, but its answer reaches nobody.
 */
module BackupLocks {
  import opened Prelude
  import opened Retention

  type Window = nat

  /** A job of the main process, with the window that waits for its answer. */
  datatype Job = MakeBackup(asker: Option<Window>) | ClearAll(asker: Option<Window>) | Trim(asker: Option<Window>)

  /** What a backup job comes to: a new record, the latest one if it has the same content, or none. */
  datatype Answer = NewRecord(id: nat) | Latest | NoRecord

  /**
   * `restoring` gives the backup that the host has answered to a window's current apply; `backups` are listed
   * newest first; `used` are the ids ever given.
   */
  datatype State = State(
    locksAvailable: bool,
    waiting: set<Window>,
    restoring: map<Window, Option<nat>>,
    clearing: Option<Window>,
    jobs: seq<Job>,
    sentinel: Option<Option<nat>>,
    backups: seq<nat>,
    used: set<nat>)

  /** `stuck` are the files that cannot be unlinked. */
  datatype Step =
    | Request(w: Window)
    | Grant(w: Window)
    | AskBackup(asker: Option<Window>)
    | AskTrim
    | RunBackup(answer: Answer, keep: nat, stuck: set<nat>)
    | RunTrim(keep: nat, stuck: set<nat>)
    | RunClear(stuck: set<nat>)
    | MarkApply(w: Window)
    | FinishApply(w: Window)
    | Release(w: Window)
    | BeginClear(w: Window)
    | EndClear(w: Window)
    | Acknowledge
    | Crash(w: Window)

  predicate Initial(s: State) {
    && s.waiting == {} && s.restoring == map[] && s.clearing == None && s.jobs == [] && s.sentinel == None
    && (forall i :: 0 <= i < |s.backups| ==> s.backups[i] in s.used)
    && (forall i, j :: 0 <= i < j < |s.backups| ==> s.backups[i] != s.backups[j])
  }

  /** The window waits for an answer of the main process. */
  predicate Awaits(s: State, w: Window) {
    exists i :: 0 <= i < |s.jobs| && s.jobs[i].asker == Some(w)
  }

  predicate Enabled(s: State, step: Step) {
    match step
    case Request(w) => w !in s.waiting && w !in s.restoring && s.clearing != Some(w) && !Awaits(s, w)
    case Grant(w) => w in s.waiting && (s.clearing.None? || !s.locksAvailable)
    // A restore asks for its protective backup; other code may ask for backups and trims at any time.
    case AskBackup(asker) => asker.Some? ==> asker.value in s.restoring && !Awaits(s, asker.value)
    case AskTrim => true
    case RunBackup(answer, keep, _) =>
      && s.jobs != [] && s.jobs[0].MakeBackup? && keep >= 1
      && (answer.NewRecord? ==> answer.id !in s.used) && (answer.Latest? ==> s.backups != [])
    case RunTrim(keep, _) => s.jobs != [] && s.jobs[0].Trim? && keep >= 1
    case RunClear(_) => s.jobs != [] && s.jobs[0].ClearAll?
    case MarkApply(w) => w in s.restoring && !Awaits(s, w)
    case FinishApply(w) => w in s.restoring && !Awaits(s, w)
    case Release(w) => w in s.restoring && !Awaits(s, w)
    case BeginClear(w) =>
      && s.locksAvailable && w !in s.waiting && !Awaits(s, w)
      && s.restoring == map[] && s.clearing.None? && s.sentinel.None?
    case EndClear(w) => s.clearing == Some(w) && !Awaits(s, w)
    case Acknowledge => true
    case Crash(_) => true
  }

  /** Jobs of a window that is gone keep their place, and nobody gets their answers. */
  function Orphaned(jobs: seq<Job>, w: Window): (r: seq<Job>)
    ensures |r| == |jobs|
    ensures forall i :: 0 <= i < |jobs| ==>
              r[i] == if jobs[i].asker == Some(w) then jobs[i].(asker := None) else jobs[i]
  {
    seq(|jobs|, i requires 0 <= i < |jobs| => if jobs[i].asker == Some(w) then jobs[i].(asker := None) else jobs[i])
  }

  function AfterBackup(s: State, answer: Answer, keep: nat, stuck: set<nat>): State
    requires Enabled(s, RunBackup(answer, keep, stuck))
  {
    var asker := s.jobs[0].asker;
    var told := match answer
      case NewRecord(id) => Some(id)
      case Latest => Some(s.backups[0])
      case NoRecord => None;
    s.(jobs := s.jobs[1..],
       backups := if answer.NewRecord? then Prune([answer.id] + s.backups, keep, stuck) else s.backups,
       used := if answer.NewRecord? then s.used + {answer.id} else s.used,
       restoring := if asker.Some? && asker.value in s.restoring then s.restoring[asker.value := told] else s.restoring)
  }

  function Apply(s: State, step: Step): State
    requires Enabled(s, step)
  {
    match step
    case Request(w) => s.(waiting := s.waiting + {w})
    case Grant(w) => s.(waiting := s.waiting - {w}, restoring := s.restoring[w := None])
    case AskBackup(asker) => s.(jobs := s.jobs + [MakeBackup(asker)])
    case AskTrim => s.(jobs := s.jobs + [Trim(None)])
    case RunBackup(answer, keep, stuck) => AfterBackup(s, answer, keep, stuck)
    case RunTrim(keep, stuck) => s.(jobs := s.jobs[1..], backups := Prune(s.backups, keep, stuck))
    case RunClear(stuck) => s.(jobs := s.jobs[1..], backups := OnlyStuck(s.backups, stuck))
    case MarkApply(w) => s.(sentinel := Some(s.restoring[w]))
    case FinishApply(_) => s.(sentinel := None)
    case Release(w) => s.(restoring := s.restoring - {w})
    case BeginClear(w) => s.(clearing := Some(w), jobs := s.jobs + [ClearAll(Some(w))])
    case EndClear(_) => s.(clearing := None)
    case Acknowledge => s.(sentinel := None)
    case Crash(w) => s.(waiting := s.waiting - {w}, restoring := s.restoring - {w}, jobs := Orphaned(s.jobs, w),
                        clearing := if s.clearing == Some(w) then None else s.clearing)
  }

  function After(start: State, steps: seq<Step>): State {
    if steps == [] then start
    else
      var before := After(start, steps[..|steps| - 1]);
      if Enabled(before, steps[|steps| - 1]) then Apply(before, steps[|steps| - 1]) else before
  }

  /** A run: each step is enabled where it is taken. */
  predicate IsRun(start: State, steps: seq<Step>) {
    steps == [] ||
    (IsRun(start, steps[..|steps| - 1]) && Enabled(After(start, steps[..|steps| - 1]), steps[|steps| - 1]))
  }

  // ---- What every run keeps ----

  predicate Names(sentinel: Option<Option<nat>>, id: nat) { sentinel == Some(Some(id)) }

  /** The backup is one that recovery relies on: the sentinel names it, or a restore was told of it. */
  predicate Protected(s: State, id: nat) {
    Names(s.sentinel, id) || exists w :: w in s.restoring && s.restoring[w] == Some(id)
  }

  /** The window that clears holds the lock alone. */
  predicate ClearIsAlone(s: State) {
    s.clearing.Some? ==> s.locksAvailable && s.restoring == map[] && s.sentinel == None
  }

  /**
   * While a clear is ordered, even by a window that is gone, nothing is protected yet, and no restore's backup
   * is made before the clear.
   */
  predicate ClearComesFirst(s: State) {
    forall j :: 0 <= j < |s.jobs| && s.jobs[j].ClearAll? ==>
      && (s.sentinel.Some? ==> s.sentinel.value.None?)
      && (forall w :: w in s.restoring ==> s.restoring[w].None?)
      && (forall i :: 0 <= i < j && s.jobs[i].MakeBackup? ==> s.jobs[i].asker.None?)
  }

  /** Only windows that restore or clear wait for an answer. */
  predicate AskersAreActive(s: State) {
    forall i :: 0 <= i < |s.jobs| && s.jobs[i].asker.Some? ==>
      match s.jobs[i]
      case MakeBackup(asker) => asker.value in s.restoring
      case ClearAll(asker) => s.clearing == asker
      case Trim(_) => false
  }

  /** Every record is listed once, under an id that is never given again. */
  ghost predicate RecordsAreUnique(s: State) {
    Distinct(s.backups) && forall i :: 0 <= i < |s.backups| ==> s.backups[i] in s.used
  }

  ghost predicate Inv(s: State) {
    ClearIsAlone(s) && ClearComesFirst(s) && AskersAreActive(s) && RecordsAreUnique(s)
  }

  lemma StepKeepsRecords(s: State, step: Step)
    requires RecordsAreUnique(s) && Enabled(s, step)
    ensures RecordsAreUnique(Apply(s, step)) && s.used <= Apply(s, step).used
  {
    var next := Apply(s, step);
    match step {
      case RunBackup(NewRecord(id), keep, stuck) =>
        NewestStays(s.backups, id, keep, stuck);
        forall i | 0 <= i < |next.backups| ensures next.backups[i] in next.used {
          assert next.backups[i] in next.backups;
        }
      case RunTrim(keep, stuck) =>
        forall i | 0 <= i < |next.backups| ensures next.backups[i] in next.used {
          PruneExactly(s.backups, keep, stuck, next.backups[i]);
        }
        PruneExactly(s.backups, keep, stuck, 0);
      case RunClear(stuck) =>
        OnlyStuckExactly(s.backups, stuck);
        forall i | 0 <= i < |next.backups| ensures next.backups[i] in next.used {
          assert next.backups[i] in next.backups;
        }
      case _ =>
    }
  }

  lemma StepKeepsLocks(s: State, step: Step)
    requires ClearIsAlone(s) && AskersAreActive(s) && Enabled(s, step)
    ensures ClearIsAlone(Apply(s, step)) && AskersAreActive(Apply(s, step))
  {
  }

  lemma StepKeepsClearFirst(s: State, step: Step)
    requires ClearIsAlone(s) && ClearComesFirst(s) && AskersAreActive(s) && Enabled(s, step)
    ensures ClearComesFirst(Apply(s, step))
  {
  }

  lemma StepKeepsInv(s: State, step: Step)
    requires Inv(s) && Enabled(s, step)
    ensures Inv(Apply(s, step))
  {
    StepKeepsLocks(s, step);
    StepKeepsClearFirst(s, step);
    StepKeepsRecords(s, step);
  }

  lemma {:induction false} RunKeepsInv(start: State, steps: seq<Step>)
    requires Initial(start) && IsRun(start, steps)
    ensures Inv(After(start, steps))
    decreases |steps|
  {
    if steps != [] {
      RunKeepsInv(start, steps[..|steps| - 1]);
      StepKeepsInv(After(start, steps[..|steps| - 1]), steps[|steps| - 1]);
    }
  }

  lemma {:induction false} RunPrefix(start: State, steps: seq<Step>, n: nat)
    requires IsRun(start, steps) && n <= |steps|
    ensures IsRun(start, steps[..n])
    decreases |steps|
  {
    if n < |steps| {
      RunPrefix(start, steps[..|steps| - 1], n);
      assert steps[..|steps| - 1][..n] == steps[..n];
    } else {
      assert steps[..n] == steps;
    }
  }

  /** What a run has done after `n` steps, and that its next step is enabled there. */
  lemma AtMoment(start: State, steps: seq<Step>, n: nat)
    requires Initial(start) && IsRun(start, steps) && n < |steps|
    ensures Inv(After(start, steps[..n])) && Enabled(After(start, steps[..n]), steps[n])
    ensures After(start, steps[..n + 1]) == Apply(After(start, steps[..n]), steps[n])
  {
    RunPrefix(start, steps, n);
    RunKeepsInv(start, steps[..n]);
    RunPrefix(start, steps, n + 1);
    assert steps[..n + 1][..n] == steps[..n];
  }

  /**
   * In every run, when clearing removes files, no backup is protected, even if the window that ordered it
   * crashed and restores began since; and the window that clears holds the lock alone.
   */
  lemma ClearNeverTakesARecoveryBackup(start: State, steps: seq<Step>, n: nat)
    requires Initial(start) && IsRun(start, steps) && n < |steps|
    ensures var s := After(start, steps[..n]);
            && ClearIsAlone(s)
            && (steps[n].RunClear? ==>
                  && (forall id: nat :: s.sentinel != Some(Some(id)))
                  && (forall w :: w in s.restoring ==> s.restoring[w] == None))
  {
    AtMoment(start, steps, n);
  }

  /** A clear begins only when no window restores, no apply is marked, and nobody waits for the main process. */
  lemma ClearBeginsInQuiet(start: State, steps: seq<Step>, n: nat)
    requires Initial(start) && IsRun(start, steps) && n < |steps| && steps[n].BeginClear?
    ensures var s := After(start, steps[..n]);
            s.restoring == map[] && s.sentinel == None && forall i :: 0 <= i < |s.jobs| ==> s.jobs[i].asker == None
  {
    AtMoment(start, steps, n);
  }

  /** In every run a mark ends only when an apply that holds the lock finishes, or when the user acknowledges it. */
  lemma MarkEndsOnlyByItsApply(start: State, steps: seq<Step>, n: nat)
    requires Initial(start) && IsRun(start, steps) && n < |steps|
    requires After(start, steps[..n]).sentinel.Some? && After(start, steps[..n + 1]).sentinel.None?
    ensures steps[n].Acknowledge? || (steps[n].FinishApply? && steps[n].w in After(start, steps[..n]).restoring)
    ensures After(start, steps[..n]).clearing.None?
  {
    AtMoment(start, steps, n);
  }

  // ---- Which backups a run takes away ----

  predicate Makes(step: Step) { step.RunBackup? && step.answer.NewRecord? }

  function MadeIn(steps: seq<Step>): nat {
    if steps == [] then 0 else MadeIn(steps[..|steps| - 1]) + if Makes(steps[|steps| - 1]) then 1 else 0
  }

  /** The step unlinks records beyond this count. */
  function Bound(step: Step): Option<nat> {
    match step
    case RunBackup(NewRecord(_), keep, _) => Some(keep)
    case RunTrim(keep, _) => Some(keep)
    case _ => None
  }

  function StuckIn(step: Step): set<nat> {
    match step
    case RunBackup(_, _, stuck) => stuck
    case RunTrim(_, stuck) => stuck
    case RunClear(stuck) => stuck
    case _ => {}
  }

  /** One step takes a record away exactly if it clears, or finds at least as many newer records as it keeps. */
  lemma StepTakes(s: State, step: Step, id: nat)
    requires RecordsAreUnique(s) && Enabled(s, step) && id in s.backups && id !in StuckIn(step)
    ensures var i, next := IndexOf(s.backups, id) + (if Makes(step) then 1 else 0), Apply(s, step).backups;
            && (id in next <==> !step.RunClear? && (Bound(step).Some? ==> i < Bound(step).value))
            && (id in next ==> IndexOf(next, id) == i)
  {
    match step {
      case RunBackup(NewRecord(made), keep, stuck) => NewestStays(s.backups, made, keep, stuck);
      case RunTrim(keep, stuck) => PruneExactly(s.backups, keep, stuck, id);
      case RunClear(stuck) => OnlyStuckExactly(s.backups, stuck);
      case _ =>
    }
  }

  /** A record that is gone never comes back. */
  lemma StepGivesNoneBack(s: State, step: Step, id: nat)
    requires RecordsAreUnique(s) && Enabled(s, step) && id in s.used && id !in s.backups
    ensures id in Apply(s, step).used && id !in Apply(s, step).backups
  {
    match step {
      case RunBackup(NewRecord(made), keep, stuck) => NewestStays(s.backups, made, keep, stuck);
      case RunTrim(keep, stuck) => PruneExactly(s.backups, keep, stuck, id);
      case RunClear(stuck) => OnlyStuckExactly(s.backups, stuck);
      case _ =>
    }
  }

  /** Each prune of the steps finds fewer newer records than it keeps: `newer` ones, and those made meanwhile. */
  predicate HasRoom(steps: seq<Step>, newer: nat) {
    forall k :: 0 <= k < |steps| && Bound(steps[k]).Some? ==> newer + MadeIn(steps[..k + 1]) < Bound(steps[k]).value
  }

  lemma HasRoomStep(steps: seq<Step>, newer: nat)
    requires steps != []
    ensures var front, last := steps[..|steps| - 1], steps[|steps| - 1];
            HasRoom(steps, newer) <==>
              HasRoom(front, newer) && (Bound(last).Some? ==> newer + MadeIn(steps) < Bound(last).value)
  {
    var front := steps[..|steps| - 1];
    assert steps[..|front| + 1] == steps;
    forall k | 0 <= k < |front| ensures front[..k + 1] == steps[..k + 1] && front[k] == steps[k] {
    }
  }

  /** Without a clear, a record survives a run exactly if every prune has room for it. */
  lemma {:induction false} SurvivesRun(start: State, before: seq<Step>, more: seq<Step>, id: nat)
    requires Initial(start) && IsRun(start, before + more) && id in After(start, before).backups
    requires forall k :: 0 <= k < |more| ==> !more[k].RunClear? && id !in StuckIn(more[k])
    ensures var newer, last := IndexOf(After(start, before).backups, id), After(start, before + more);
            && (id in last.backups <==> HasRoom(more, newer)) && id in last.used
            && (id in last.backups ==> IndexOf(last.backups, id) == newer + MadeIn(more))
    decreases |more|
  {
    if more == [] {
      assert before + more == before;
      RunKeepsInv(start, before);
    } else {
      var front, step := more[..|more| - 1], more[|more| - 1];
      assert before + more == (before + front) + [step];
      assert (before + more)[..|before + front|] == before + front;
      SurvivesRun(start, before, front, id);
      AtMoment(start, before + more, |before + front|);
      assert (before + more)[..|before + front| + 1] == before + more;
      HasRoomStep(more, IndexOf(After(start, before).backups, id));
      var s := After(start, before + front);
      if id in s.backups {
        StepTakes(s, step, id);
        StepKeepsRecords(s, step);
      } else {
        StepGivesNoneBack(s, step, id);
      }
    }
  }

  lemma ClearFindsNothing(start: State, before: seq<Step>, more: seq<Step>, k: nat, id: nat)
    requires Initial(start) && IsRun(start, before + more) && k < |more|
    requires Protected(After(start, before + more[..k]), id)
    ensures !more[k].RunClear?
  {
    assert (before + more)[..|before| + k] == before + more[..k] && (before + more)[|before| + k] == more[k];
    ClearNeverTakesARecoveryBackup(start, before + more, |before| + k);
  }

  /**
   * While a backup is protected, no run clears it away; it survives exactly if each backup or trim meanwhile
   * keeps more records than have become newer.
   */
  lemma {:induction false} MarkedBackupStays(start: State, before: seq<Step>, more: seq<Step>, id: nat)
    requires Initial(start) && IsRun(start, before + more) && id in After(start, before).backups
    requires forall k :: 0 <= k <= |more| ==> Protected(After(start, before + more[..k]), id)
    requires forall k :: 0 <= k < |more| ==> id !in StuckIn(more[k])
    ensures id in After(start, before + more).backups <==> HasRoom(more, IndexOf(After(start, before).backups, id))
  {
    forall k | 0 <= k < |more| ensures !more[k].RunClear? {
      ClearFindsNothing(start, before, more, k, id);
    }
    SurvivesRun(start, before, more, id);
  }

  /** The backup that a restore has just been told of is the newest. */
  lemma AnswerIsNewest(s: State, answer: Answer, keep: nat, stuck: set<nat>)
    requires Inv(s) && Enabled(s, RunBackup(answer, keep, stuck)) && !answer.NoRecord?
    ensures var next := AfterBackup(s, answer, keep, stuck);
            && next.backups != [] && IndexOf(next.backups, next.backups[0]) == 0
            && (answer.NewRecord? ==> next.backups[0] == answer.id)
            && (s.jobs[0].asker.Some? ==> next.restoring[s.jobs[0].asker.value] == Some(next.backups[0]))
  {
    if answer.NewRecord? {
      NewestStays(s.backups, answer.id, keep, stuck);
    }
  }

  /**
   * The protective backup of an apply survives until recovery exactly if every later backup or trim keeps more
   * records than were made since.
   */
  lemma ProtectiveBackupSurvivesIff(start: State, before: seq<Step>, answer: Answer, keep: nat, stuck: set<nat>,
                                    more: seq<Step>, id: nat)
    requires Initial(start) && !answer.NoRecord?
    requires IsRun(start, before + [RunBackup(answer, keep, stuck)] + more)
    requires After(start, before).jobs != [] && After(start, before).jobs[0].asker.Some?
    requires var told := before + [RunBackup(answer, keep, stuck)];
             && After(start, told).backups != [] && id == After(start, told).backups[0]
             && (forall k :: 0 <= k <= |more| ==> Protected(After(start, told + more[..k]), id))
             && (forall k :: 0 <= k < |more| ==> id !in StuckIn(more[k]))
    ensures id in After(start, before + [RunBackup(answer, keep, stuck)] + more).backups <==> HasRoom(more, 0)
  {
    var told := before + [RunBackup(answer, keep, stuck)];
    assert IndexOf(After(start, told).backups, id) == 0;
    MarkedBackupStays(start, told, more, id);
  }

  // ---- What can be done ----

  ghost predicate Reaches(start: State, steps: seq<Step>, s: State) { IsRun(start, steps) && After(start, steps) == s }

  lemma Then(start: State, steps: seq<Step>, s: State, step: Step, next: State) returns (more: seq<Step>)
    requires Reaches(start, steps, s) && Enabled(s, step) && Apply(s, step) == next
    ensures Reaches(start, more, next) && more == steps + [step]
  {
    more := steps + [step];
    assert more[..|steps|] == steps;
  }

  lemma Granted(s: State, next: State, w: Window)
    requires s.waiting == {w} && s.restoring == map[] && s.clearing == None
    requires next == s.(waiting := {}, restoring := map[w := None])
    ensures Enabled(s, Grant(w)) && Apply(s, Grant(w)) == next
  {
    assert s.waiting - {w} == {};
  }

  /** No window waits, restores or clears, and the main process has nothing to do. */
  predicate IsIdle(s: State) {
    s.waiting == {} && s.restoring == map[] && s.clearing == None && s.jobs == []
  }

  lemma Asked(s: State, next: State, w: Window)
    requires s.jobs == [] && s.restoring == map[w := None] && next == s.(jobs := [MakeBackup(Some(w))])
    ensures Enabled(s, AskBackup(Some(w))) && Apply(s, AskBackup(Some(w))) == next
  {
  }

  lemma Told(s: State, next: State, w: Window, id: nat, keep: nat, stuck: set<nat>)
    requires s.jobs == [MakeBackup(Some(w))] && s.restoring == map[w := None] && id !in s.used && keep >= 1
    requires next == s.(jobs := [], restoring := map[w := Some(id)], used := s.used + {id},
                        backups := Prune([id] + s.backups, keep, stuck))
    ensures Enabled(s, RunBackup(NewRecord(id), keep, stuck)) && Apply(s, RunBackup(NewRecord(id), keep, stuck)) == next
  {
    assert s.jobs[1..] == [];
    assert s.restoring[w := Some(id)] == map[w := Some(id)];
  }

  lemma Released(s: State, next: State, w: Window, told: Option<nat>)
    requires s.restoring == map[w := told] && s.jobs == [] && next == s.(restoring := map[])
    ensures Enabled(s, Release(w)) && Apply(s, Release(w)) == next
  {
    assert s.restoring - {w} == map[];
  }

  /** A window restores up to its backup, which the host answers with a new record. */
  lemma BackedUp(start: State, steps: seq<Step>, s: State, w: Window, id: nat, keep: nat, stuck: set<nat>)
    returns (more: seq<Step>)
    requires Reaches(start, steps, s) && IsIdle(s) && id !in s.used && keep >= 1
    ensures Reaches(start, more, s.(restoring := map[w := Some(id)], used := s.used + {id},
                                    backups := Prune([id] + s.backups, keep, stuck)))
  {
    var s1, s2 := s.(waiting := {w}), s.(restoring := map[w := None]);
    more := Then(start, steps, s, Request(w), s1);
    Granted(s1, s2, w);
    more := Then(start, more, s1, Grant(w), s2);
    var s3 := s2.(jobs := [MakeBackup(Some(w))]);
    Asked(s2, s3, w);
    more := Then(start, more, s2, AskBackup(Some(w)), s3);
    var s4 := s.(restoring := map[w := Some(id)], used := s.used + {id},
                 backups := Prune([id] + s.backups, keep, stuck));
    Told(s3, s4, w, id, keep, stuck);
    more := Then(start, more, s3, RunBackup(NewRecord(id), keep, stuck), s4);
  }

  /**
   * A restore can go through wherever all is idle: it ends with its backup listed, with no mark, whatever was marked
   * before, and with the lock free.
   */
  lemma RestoreGoesThrough(start: State, steps: seq<Step>, s: State, w: Window, id: nat, keep: nat, stuck: set<nat>)
    returns (more: seq<Step>)
    requires Reaches(start, steps, s) && IsIdle(s) && id !in s.used && keep >= 1
    ensures Reaches(start, more, s.(sentinel := None, used := s.used + {id},
                                    backups := Prune([id] + s.backups, keep, stuck)))
  {
    more := BackedUp(start, steps, s, w, id, keep, stuck);
    var s1 := s.(restoring := map[w := Some(id)], used := s.used + {id},
                 backups := Prune([id] + s.backups, keep, stuck));
    var s2, s3 := s1.(sentinel := Some(Some(id))), s1.(sentinel := None);
    more := Then(start, more, s1, MarkApply(w), s2);
    more := Then(start, more, s2, FinishApply(w), s3);
    Released(s3, s3.(restoring := map[]), w, Some(id));
    more := Then(start, more, s3, Release(w), s3.(restoring := map[]));
  }

  /** A clear can go through wherever all is idle and nothing is marked: only files that cannot be unlinked stay. */
  lemma ClearGoesThrough(start: State, steps: seq<Step>, s: State, w: Window, stuck: set<nat>)
    returns (more: seq<Step>)
    requires Reaches(start, steps, s) && IsIdle(s) && s.locksAvailable && s.sentinel == None
    ensures Reaches(start, more, s.(backups := OnlyStuck(s.backups, stuck)))
  {
    var s1 := s.(clearing := Some(w), jobs := [ClearAll(Some(w))]);
    more := Then(start, steps, s, BeginClear(w), s1);
    var s2 := s.(clearing := Some(w), backups := OnlyStuck(s.backups, stuck));
    assert s1.jobs[1..] == [];
    more := Then(start, more, s1, RunClear(stuck), s2);
    more := Then(start, more, s2, EndClear(w), s.(backups := OnlyStuck(s.backups, stuck)));
  }

  /** A trim can go through wherever the main process has nothing to do: retention takes the oldest records. */
  lemma TrimGoesThrough(start: State, steps: seq<Step>, s: State, keep: nat, stuck: set<nat>) returns (more: seq<Step>)
    requires Reaches(start, steps, s) && s.jobs == [] && keep >= 1
    ensures Reaches(start, more, s.(backups := Prune(s.backups, keep, stuck)))
  {
    var s1 := s.(jobs := [Trim(None)]);
    more := Then(start, steps, s, AskTrim, s1);
    assert s1.jobs[1..] == [];
    more := Then(start, more, s1, RunTrim(keep, stuck), s.(backups := Prune(s.backups, keep, stuck)));
  }

  /** The user can end every mark, and every window can die: nothing shuts clearing out for good. */
  lemma {:induction false} AllWindowsGone(start: State, steps: seq<Step>, s: State)
    returns (more: seq<Step>, left: State)
    requires Reaches(start, steps, s)
    ensures Reaches(start, more, left) && left.restoring == map[] && steps <= more
    ensures left.locksAvailable == s.locksAvailable && left.backups == s.backups
    decreases |s.restoring|
  {
    if s.restoring == map[] {
      more, left := steps, s;
    } else {
      var w :| w in s.restoring;
      var next := Apply(s, Crash(w));
      more := Then(start, steps, s, Crash(w), next);
      assert s.restoring.Keys == next.restoring.Keys + {w};
      more, left := AllWindowsGone(start, more, next);
    }
  }

  lemma ClearIsNeverShutOut(start: State, steps: seq<Step>, w: Window) returns (more: seq<Step>)
    requires IsRun(start, steps) && After(start, steps).locksAvailable
    ensures IsRun(start, more) && steps <= more && Enabled(After(start, more), BeginClear(w))
    ensures After(start, more).backups == After(start, steps).backups
  {
    var s;
    more, s := AllWindowsGone(start, steps, After(start, steps));
    if s.clearing.Some? {
      var next := Apply(s, Crash(s.clearing.value));
      assert next.restoring == map[];
      more := Then(start, more, s, Crash(s.clearing.value), next);
      s := next;
    }
    var alone := Apply(s, Crash(w));
    assert alone.restoring == map[];
    more := Then(start, more, s, Crash(w), alone);
    more := Then(start, more, alone, Acknowledge, alone.(sentinel := None));
  }

  // ---- A sentinel can name a backup that retention took away ----

  lemma OnlyNewest(backups: seq<nat>, id: nat)
    requires |backups| <= 1
    ensures Prune([id] + backups, 1, {}) == [id]
  {
    if |backups| == 1 {
      assert ([id] + backups)[..1] == [id] && ([id] + backups)[1..] == backups;
      assert OnlyStuck(backups, {}) == [];
    }
  }

  /**
   * With a maximum count of one: an apply is cut after its mark; the next apply's backup takes the named one
   * away, and its window dies before it marks.
   */
  lemma NamedBackupMayBeTrimmed(a: Window, b: Window) returns (start: State, steps: seq<Step>)
    ensures Initial(start) && IsRun(start, steps)
    ensures Names(After(start, steps).sentinel, 1) && 1 !in After(start, steps).backups
  {
    start := State(true, {}, map[], None, [], None, [], {});
    OnlyNewest([], 1);
    steps := BackedUp(start, [], start, a, 1, 1, {});
    var s1 := start.(restoring := map[a := Some(1)], backups := [1], used := {1});
    assert start.used + {1} == s1.used;
    var s2 := s1.(sentinel := Some(Some(1)));
    steps := Then(start, steps, s1, MarkApply(a), s2);
    var s3 := s2.(restoring := map[]);
    assert Apply(s2, Crash(a)) == s3;
    steps := Then(start, steps, s2, Crash(a), s3);
    OnlyNewest([1], 2);
    steps := BackedUp(start, steps, s3, b, 2, 1, {});
    var s4 := s3.(restoring := map[b := Some(2)], backups := [2], used := {1, 2});
    assert s3.used + {2} == s4.used;
    steps := Then(start, steps, s4, Crash(b), Apply(s4, Crash(b)));
  }
}
