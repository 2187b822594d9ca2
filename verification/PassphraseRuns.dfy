/**
 * Whole runs of one window's passphrase code (application/defaultKeyPassphrases.ts:46-165, 490-528): mutations go
 * through the queue and write while they run, loads run outside it, and the key list may change at any time.
 */
module PassphraseRuns {
  import opened Prelude
  import Q = MutationQueue
  import KeyPaths
  import opened PassphraseStore
  import opened PassphraseImport

  datatype State = State(promises: seq<Q.Promise>, world: World)

  /** Mutation `i`, named by its promise, writes only while it runs; a load takes effect at once. */
  datatype Action =
    | Queue(move: Q.Move)
    | Write(i: nat, after: World)
    | LoadEffect(after: World)
    | EditKeys(keys: seq<SshKey>)

  /** A load that found matching entries takes effect in state `seen` and leaves `after`. */
  ghost predicate IsLoadEffect(seen: World, after: World) {
    exists keyPath, aliasKeys, isPlaceholder, start, events, value, path, full ::
      && LoadSpec(keyPath, aliasKeys, isPlaceholder, start, events, Done(value), seen, path, after, full)
      && Matching(seen.store, aliasKeys) != map[]
  }

  ghost predicate Enabled(s: State, action: Action) {
    match action
    case Queue(move) => Q.CanMove(s.promises, move)
    case Write(i, _) => i < |s.promises| && s.promises[i].status.Running?
    case LoadEffect(after) => IsLoadEffect(s.world, after)
    case EditKeys(_) => true
  }

  ghost function Apply(s: State, action: Action): State
    requires Enabled(s, action)
  {
    match action
    case Queue(move) => s.(promises := Q.Moved(s.promises, move))
    case Write(_, after) => s.(world := after)
    case LoadEffect(after) => s.(world := after)
    case EditKeys(keys) => s.(world := s.world.(keys := keys))
  }

  /** The state after these actions of a window with a new queue. */
  ghost function After(world: World, actions: seq<Action>): State {
    if actions == [] then State(Q.After([]), world)
    else
      var before := After(world, actions[..|actions| - 1]);
      if Enabled(before, actions[|actions| - 1]) then Apply(before, actions[|actions| - 1]) else before
  }

  ghost predicate IsRun(world: World, actions: seq<Action>) {
    actions == [] ||
    (IsRun(world, actions[..|actions| - 1]) && Enabled(After(world, actions[..|actions| - 1]), actions[|actions| - 1]))
  }

  lemma {:induction false} RunKeepsOrder(world: World, actions: seq<Action>)
    requires IsRun(world, actions)
    ensures Q.Shaped(After(world, actions).promises) && Q.InOrder(After(world, actions).promises)
    decreases |actions|
  {
    if actions != [] {
      var before, last := actions[..|actions| - 1], actions[|actions| - 1];
      RunKeepsOrder(world, before);
      if last.Queue? { Q.MoveKeepsOrder(After(world, before).promises, last.move); }
    } else {
      assert Q.After([]) == [Q.Promise(Q.Initial, Q.Fulfilled)];
    }
  }

  lemma {:induction false} RunPrefix(world: World, actions: seq<Action>, n: nat)
    requires IsRun(world, actions) && n <= |actions|
    ensures IsRun(world, actions[..n])
    decreases |actions|
  {
    if n < |actions| {
      RunPrefix(world, actions[..|actions| - 1], n);
      assert actions[..|actions| - 1][..n] == actions[..n];
    } else {
      assert actions[..n] == actions;
    }
  }

  lemma AtMoment(world: World, actions: seq<Action>, n: nat)
    requires IsRun(world, actions) && n < |actions|
    ensures Enabled(After(world, actions[..n]), actions[n])
    ensures After(world, actions[..n + 1]) == Apply(After(world, actions[..n]), actions[n])
    ensures Q.Shaped(After(world, actions[..n]).promises) && Q.InOrder(After(world, actions[..n]).promises)
  {
    RunPrefix(world, actions, n);
    RunKeepsOrder(world, actions[..n]);
    RunPrefix(world, actions, n + 1);
    assert actions[..n + 1][..n] == actions[..n];
  }

  // ---- While a mutation runs ----

  /** The mutation itself writes or settles. */
  predicate IsOwn(action: Action, i: nat) {
    || (action.Write? && action.i == i)
    || (action.Queue? && action.move.Settle? && action.move.i == i)
  }

  /** The mutation neither settles nor writes from moment `n` to moment `m`. */
  predicate Undisturbed(actions: seq<Action>, i: nat, n: nat, m: nat) {
    forall k :: n <= k < m && k < |actions| ==> !IsOwn(actions[k], i)
  }

  ghost predicate Runs(s: State, i: nat) { i < |s.promises| && s.promises[i].status.Running? }

  /** Only the running mutation writes; a load effect only removes entries. */
  lemma OthersOnlyRemove(s: State, action: Action, i: nat)
    requires Q.Shaped(s.promises) && Q.InOrder(s.promises) && Runs(s, i) && Enabled(s, action)
    requires !IsOwn(action, i)
    ensures Runs(Apply(s, action), i) && SubStore(Apply(s, action).world.store, s.world.store)
  {
    if action.LoadEffect? {
      var keyPath, aliasKeys, isPlaceholder, start, events, value, path, full :|
        LoadSpec(keyPath, aliasKeys, isPlaceholder, start, events, Done(value), s.world, path, action.after, full)
        && Matching(s.world.store, aliasKeys) != map[];
      LoadOnlyRemoves(keyPath, aliasKeys, isPlaceholder, start, events, value, s.world, path, action.after, full);
    }
  }

  /** From the moment a mutation last wrote, the store only shrinks until it writes again. */
  lemma {:induction false} ShrinksMeanwhile(world: World, actions: seq<Action>, i: nat, n: nat, m: nat)
    requires IsRun(world, actions) && n <= m <= |actions|
    requires Runs(After(world, actions[..n]), i) && Undisturbed(actions, i, n, m)
    ensures Runs(After(world, actions[..m]), i)
    ensures SubStore(After(world, actions[..m]).world.store, After(world, actions[..n]).world.store)
    decreases m - n
  {
    if n < m {
      ShrinksMeanwhile(world, actions, i, n, m - 1);
      AtMoment(world, actions, m - 1);
      OthersOnlyRemove(After(world, actions[..m - 1]), actions[m - 1], i);
    }
  }

  // ---- A log seen within a run ----

  /**
   * The log of a mutation from moment `n` on: each state it saw others leave is that of the run at a marked
   * moment, in the order of the marks.
   */
  ghost predicate SeenWithin(world: World, actions: seq<Action>, n: nat, m: nat, events: seq<Event>, marks: seq<nat>) {
    && n <= m <= |actions| && |marks| == |events|
    && (forall j :: 0 <= j < |marks| ==> n <= marks[j] <= m)
    && (forall j, k :: 0 <= j < k < |marks| ==> marks[j] <= marks[k])
    && (forall j :: 0 <= j < |events| && events[j].Others? ==>
          events[j].after == After(world, actions[..marks[j]]).world)
  }

  /** What the log last saw is the state of the run at an earlier mark. */
  lemma {:induction false} LastSeen(world: World, actions: seq<Action>, n: nat, m: nat, events: seq<Event>,
                                    marks: seq<nat>, j: nat) returns (k: nat)
    requires SeenWithin(world, actions, n, m, events, marks) && NoOwn(events) && j <= |events|
    ensures n <= k <= m && (j < |events| ==> k <= marks[j])
    ensures StateAfter(After(world, actions[..n]).world, events[..j]) == After(world, actions[..k]).world
    decreases j
  {
    if j == 0 {
      k := n;
    } else {
      assert events[..j][..j - 1] == events[..j - 1];
      if events[j - 1].Others? {
        k := marks[j - 1];
      } else {
        k := LastSeen(world, actions, n, m, events, marks, j - 1);
      }
    }
  }

  /** So, with all writers in the queue, what a running mutation sees others do only removes entries. */
  lemma QueueShields(world: World, actions: seq<Action>, i: nat, n: nat, m: nat, events: seq<Event>, marks: seq<nat>)
    requires IsRun(world, actions) && SeenWithin(world, actions, n, m, events, marks) && NoOwn(events)
    requires Runs(After(world, actions[..n]), i) && Undisturbed(actions, i, n, m)
    ensures OnlyShrinks(After(world, actions[..n]).world, events)
  {
    var from := After(world, actions[..n]).world;
    forall j | 0 <= j < |events| && events[j].Others?
      ensures SubStore(events[j].after.store, StateAfter(from, events[..j]).store)
    {
      var k := LastSeen(world, actions, n, m, events, marks, j);
      ShrinksMeanwhile(world, actions, i, n, k);
      ShrinksMeanwhile(world, actions, i, k, marks[j]);
    }
  }

  lemma NoOwnWithin(events: seq<Event>, n: nat, m: nat)
    requires n <= m <= |events| && NoOwn(events[..m])
    ensures NoOwn(events[n..m])
  {
    forall j | 0 <= j < m - n ensures !events[n..m][j].Own? {
      assert events[n..m][j] == events[..m][n + j];
    }
  }

  /**
   * In every run of one window: an import that runs as mutation `i` and writes replaces no different
   * passphrase, since each entry it replaces had been decrypted to the imported one, and leaves its own only.
   */
  lemma QueuedImportLosesNothing(world: World, actions: seq<Action>, i: nat, n: nat, m: nat, marks: seq<nat>,
                                 keyPath: string, aliasKeys: set<string>, passphrase: string,
                                 before: (string, string) -> bool, isPlaceholder: string -> bool, start: World,
                                 events: seq<Event>, at: Moments, result: ImportResult, after: World, full: bool)
    requires ImportSpec(keyPath, aliasKeys, passphrase, before, isPlaceholder, start, events, at, result, after, full)
    requires Wrote(result)
    requires KeyPaths.PathKey(keyPath) in aliasKeys
    requires IsRun(world, actions) && SeenWithin(world, actions, n, m, events[at.n..at.m], marks)
    requires Runs(After(world, actions[..n]), i) && After(world, actions[..n]).world == at.checked
    requires Undisturbed(actions, i, n, m)
    ensures StoreAgrees(at.seen.store, aliasKeys, events[..at.n], passphrase)
    ensures !full ==> Matching(after.store, aliasKeys) == map[keyPath := at.stored.value]
    ensures !full ==> SameOutside(at.seen.store, after.store, keyPath, aliasKeys)
  {
    NoOwnWithin(events, at.n, at.m);
    QueueShields(world, actions, i, n, m, events[at.n..at.m], marks);
    ImportLosesNothing(keyPath, aliasKeys, passphrase, before, isPlaceholder, start, events, at, result, after, full);
  }
}
