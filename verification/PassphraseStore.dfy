/**
 * Remembered key passphrases (application/defaultKeyPassphrases.ts). The store and the key list are
 * shared with other code; every await is a point where that code may replace both. A log records what
 * others and this code did, so that a contract can say where an operation takes effect.
 */
module PassphraseStore {
  import opened Prelude
  import KeyPaths

  type Store = map<string, string>

  datatype SshKey = SshKey(
    id: string,
    title: string,
    source: string,
    filePath: string,
    passphrase: Option<string>,
    savePassphrase: Option<bool>)
  {
    predicate IsReferenceTo(aliasKeys: set<string>) {
      source == "reference" && filePath != "" && KeyPaths.PathKey(filePath) in aliasKeys
    }
  }

  datatype World = World(store: Option<Store>, keys: seq<SshKey>)

  /** The outcome of awaiting decryptField; Text("") stands for every empty result. */
  datatype Answer = Text(text: string) | Rejected

  datatype Event =
    | Others(after: World)
    | Own(after: World)
    | Decrypted(cipher: string, answer: Answer)
    | Encrypted(plain: string, stored: Option<string>)

  datatype Attempt = Again | Done(value: Option<string>) | Threw

  // ---- Specification vocabulary ----

  predicate Readable(answer: Answer, isPlaceholder: string -> bool) {
    answer.Text? && answer.text != "" && !isPlaceholder(answer.text)
  }

  /** The entries remembered under one of the alias keys. */
  function Matching(store: Option<Store>, aliasKeys: set<string>): Store {
    var entries := store.GetOr(map[]);
    map p | p in entries && KeyPaths.PathKey(p) in aliasKeys :: entries[p]
  }

  /** But for `keyPath` and the entries under the alias keys, which are gone, both stores are the same. */
  ghost predicate SameOutside(before: Option<Store>, after: Option<Store>, keyPath: string, aliasKeys: set<string>) {
    var was, now := before.GetOr(map[]), after.GetOr(map[]);
    forall p :: p != keyPath ==>
      && (p in now <==> p in was && KeyPaths.PathKey(p) !in aliasKeys)
      && (p in now ==> now[p] == was[p])
  }

  /** The store after a write of `keyPath`: every other spelling is dropped. */
  function Written(store: Option<Store>, keyPath: string, cipher: string, aliasKeys: set<string>): (r: Store)
    ensures keyPath in r && r[keyPath] == cipher
    ensures SameOutside(store, Some(r), keyPath, aliasKeys)
  {
    (store.GetOr(map[]) - Matching(store, aliasKeys).Keys)[keyPath := cipher]
  }

  ghost function StateAfter(start: World, events: seq<Event>): World {
    if events == [] then start
    else match events[|events| - 1]
      case Others(w) => w
      case Own(w) => w
      case _ => StateAfter(start, events[..|events| - 1])
  }

  ghost predicate NoOwn(events: seq<Event>) {
    forall i :: 0 <= i < |events| ==> !events[i].Own?
  }

  ghost predicate AllOwn(events: seq<Event>) {
    forall i :: 0 <= i < |events| ==> events[i].Own?
  }

  ghost predicate EffectAt(start: World, events: seq<Event>, n: nat, seen: World, after: World)
    requires n <= |events|
  {
    && NoOwn(events[..n]) && AllOwn(events[n..])
    && StateAfter(start, events[..n]) == seen
    && StateAfter(start, events) == after
  }

  /** All own writes come last with nobody in between: the operation takes effect at once, in state `seen`. */
  ghost predicate Atomic(start: World, events: seq<Event>, seen: World, after: World) {
    exists n :: 0 <= n <= |events| && EffectAt(start, events, n, seen, after)
  }

  ghost predicate Unread(cipher: string, events: seq<Event>, isPlaceholder: string -> bool) {
    exists a :: Decrypted(cipher, a) in events && !Readable(a, isPlaceholder)
  }

  lemma StateAfterAppend(start: World, events: seq<Event>, e: Event)
    ensures StateAfter(start, events + [e]) ==
              if e.Others? || e.Own? then e.after else StateAfter(start, events)
  {
  }

  lemma UnreadGrows(cipher: string, events: seq<Event>, more: seq<Event>, isPlaceholder: string -> bool)
    requires Unread(cipher, events, isPlaceholder) && events <= more
    ensures Unread(cipher, more, isPlaceholder)
  {
  }

  /** Own writes that nobody interrupts take effect in the state before them. */
  lemma OwnTailIsAtomic(start: World, events: seq<Event>, wrote: seq<Event>, seen: World, after: World)
    requires NoOwn(events) && StateAfter(start, events) == seen
    requires AllOwn(wrote) && StateAfter(start, events + wrote) == after
    ensures Atomic(start, events + wrote, seen, after)
  {
    var all := events + wrote;
    assert all[..|events|] == events && all[|events|..] == wrote;
    assert EffectAt(start, all, |events|, seen, after);
  }

  /** What one load attempt promises; `path` is the entry whose value is returned. */
  ghost predicate LoadSpec(keyPath: string, aliasKeys: set<string>, isPlaceholder: string -> bool, start: World,
                           events: seq<Event>, attempt: Attempt, seen: World, path: string, after: World, full: bool)
  {
    var entries := Matching(seen.store, aliasKeys);
    match attempt
    case Threw =>
      && NoOwn(events)
      && (exists c :: c in Matching(start.store, aliasKeys).Values && Decrypted(c, Rejected) in events)
    case Again =>
      NoOwn(events) && StateAfter(start, events) == seen && entries != Matching(start.store, aliasKeys)
    case Done(Some(v)) =>
      && Atomic(start, events, seen, after)
      && path in entries && v != "" && !isPlaceholder(v) && Decrypted(entries[path], Text(v)) in events
      && (keyPath in entries && path != keyPath ==> Unread(entries[keyPath], events, isPlaceholder))
      && after == (if full then seen else seen.(store := Some(seen.store.GetOr(map[]) - (entries.Keys - {path}))))
    case Done(None) =>
      && (forall p :: p in entries ==> Unread(entries[p], events, isPlaceholder))
      && (if entries == map[] then NoOwn(events) && seen == start
          else && Atomic(start, events, seen, after)
               && after == if full then seen else seen.(store := Some(seen.store.GetOr(map[]) - entries.Keys)))
  }

  // ---- The store ----

  lemma MovedToFront(paths: seq<string>, i: nat)
    requires Distinct(paths) && i < |paths|
    ensures var moved := [paths[i]] + paths[..i] + paths[i + 1..];
            Distinct(moved) && forall p :: p in paths <==> p in moved
  {
  }

  method StoredPaths(store: Store, aliasKeys: set<string>, keyPath: string) returns (paths: seq<string>)
    ensures Distinct(paths)
    ensures forall p :: p in paths <==> p in Matching(Some(store), aliasKeys)
    ensures keyPath in Matching(Some(store), aliasKeys) ==> paths[0] == keyPath
  {
    var rest := store.Keys;
    paths := [];
    while rest != {}
      invariant rest <= store.Keys && Distinct(paths)
      invariant forall p :: p in paths <==> p in Matching(Some(store), aliasKeys) && p !in rest
      decreases |rest|
    {
      var p :| p in rest;
      rest := rest - {p};
      if KeyPaths.PathKey(p) in aliasKeys {
        paths := paths + [p];
      }
    }
    if keyPath in paths {
      var i :| 0 <= i < |paths| && paths[i] == keyPath;
      MovedToFront(paths, i);
      paths := [paths[i]] + paths[..i] + paths[i + 1..];
    }
  }

  method DropDuplicates(latest: Store, paths: seq<string>, keep: string) returns (next: Store, changed: bool)
    ensures next == latest - (set p | p in paths && p != keep)
    ensures changed <==> next != latest
  {
    next, changed := latest, false;
    for i := 0 to |paths|
      invariant next == latest - (set p | p in paths[..i] && p != keep)
      invariant changed <==> next != latest
    {
      if paths[i] != keep && paths[i] in next {
        next := next - {paths[i]};
        changed := true;
      }
    }
    assert paths[..|paths|] == paths;
  }

  method DropInvalid(latest: Store, paths: seq<string>, invalid: Store) returns (next: Store, changed: bool)
    requires forall p :: p in paths ==> p in invalid
    ensures next == latest - (set p | p in paths && p in latest && latest[p] == invalid[p])
    ensures changed <==> next != latest
  {
    next, changed := latest, false;
    for i := 0 to |paths|
      invariant next == latest - (set p | p in paths[..i] && p in latest && latest[p] == invalid[p])
      invariant changed <==> next != latest
    {
      if paths[i] in next && next[paths[i]] == invalid[paths[i]] {
        next := next - {paths[i]};
        changed := true;
      }
    }
    assert paths[..|paths|] == paths;
  }

  /** The loop of a write: every other spelling goes. */
  method DropOthers(stored: Store, keyPath: string, aliasKeys: set<string>) returns (store: Store)
    ensures store == stored - (set p | p in Matching(Some(stored), aliasKeys) && p != keyPath)
  {
    store := stored;
    var rest := store.Keys;
    while rest != {}
      invariant rest <= stored.Keys
      invariant store == stored - (set p | p in Matching(Some(stored), aliasKeys) && p != keyPath && p !in rest)
      decreases |rest|
    {
      var storedPath :| storedPath in rest;
      if storedPath != keyPath && KeyPaths.PathKey(storedPath) in aliasKeys {
        store := store - {storedPath};
      }
      rest := rest - {storedPath};
    }
  }

  // ---- Lemmas about logs ----

  /** Nobody touches the entries under the alias keys while `events` happen. */
  ghost predicate Quiet(start: World, events: seq<Event>, aliasKeys: set<string>) {
    forall i :: 0 <= i < |events| && events[i].Others? ==>
      Matching(events[i].after.store, aliasKeys) == Matching(start.store, aliasKeys)
  }

  lemma {:induction false} StateAfterConcat(start: World, a: seq<Event>, b: seq<Event>)
    ensures StateAfter(start, a + b) == StateAfter(StateAfter(start, a), b)
    decreases |b|
  {
    if b == [] {
      assert a + b == a;
    } else {
      StateAfterConcat(start, a, b[..|b| - 1]);
      assert a + b == (a + b[..|b| - 1]) + [b[|b| - 1]];
      StateAfterAppend(start, a + b[..|b| - 1], b[|b| - 1]);
    }
  }

  lemma {:induction false} QuietKeepsMatching(start: World, events: seq<Event>, aliasKeys: set<string>)
    requires NoOwn(events) && Quiet(start, events, aliasKeys)
    ensures Matching(StateAfter(start, events).store, aliasKeys) == Matching(start.store, aliasKeys)
    decreases |events|
  {
    if events != [] { QuietKeepsMatching(start, events[..|events| - 1], aliasKeys); }
  }

  /** An attempt retries only when somebody else changed an entry it looks at. */
  lemma RetryMeansChange(start: World, earlier: seq<Event>, more: seq<Event>, aliasKeys: set<string>)
    requires NoOwn(earlier) && NoOwn(more)
    requires var from := StateAfter(start, earlier);
             Matching(StateAfter(from, more).store, aliasKeys) != Matching(from.store, aliasKeys)
    ensures !Quiet(start, earlier + more, aliasKeys)
  {
    if Quiet(start, earlier + more, aliasKeys) {
      assert (earlier + more)[..|earlier|] == earlier;
      QuietKeepsMatching(start, earlier, aliasKeys);
      QuietKeepsMatching(start, earlier + more, aliasKeys);
      StateAfterConcat(start, earlier, more);
    }
  }

  /** An attempt that lasted from `n` to `m` met a change of the entries it looks at. */
  ghost predicate RetriedAt(start: World, events: seq<Event>, n: nat, m: nat, aliasKeys: set<string>) {
    && n <= m <= |events|
    && Matching(StateAfter(start, events[..m]).store, aliasKeys) !=
       Matching(StateAfter(start, events[..n]).store, aliasKeys)
  }

  /** Where the attempt `k` ends, which is where the next one begins. */
  function EndOf(starts: seq<nat>, k: nat, end: nat): nat { if k + 1 < |starts| then starts[k + 1] else end }

  /** The attempts that began at these points of `events` each asked for a retry. */
  ghost predicate EachRetried(start: World, events: seq<Event>, starts: seq<nat>, aliasKeys: set<string>) {
    && (if starts == [] then events == [] else starts[0] == 0)
    && NoOwn(events)
    && forall k :: 0 <= k < |starts| ==> RetriedAt(start, events, starts[k], EndOf(starts, k, |events|), aliasKeys)
  }

  lemma RetriedAtLater(start: World, events: seq<Event>, more: seq<Event>, n: nat, m: nat, aliasKeys: set<string>)
    requires RetriedAt(start, events, n, m, aliasKeys)
    ensures RetriedAt(start, events + more, n, m, aliasKeys)
  {
    assert (events + more)[..m] == events[..m] && (events + more)[..n] == events[..n];
  }

  lemma OneMoreRetry(start: World, earlier: seq<Event>, starts: seq<nat>, more: seq<Event>, aliasKeys: set<string>)
    requires EachRetried(start, earlier, starts, aliasKeys) && NoOwn(more)
    requires var from := StateAfter(start, earlier);
             Matching(StateAfter(from, more).store, aliasKeys) != Matching(from.store, aliasKeys)
    ensures EachRetried(start, earlier + more, starts + [|earlier|], aliasKeys)
  {
    var events, next := earlier + more, starts + [|earlier|];
    StateAfterConcat(start, earlier, more);
    assert events[..|events|] == events && events[..|earlier|] == earlier;
    assert RetriedAt(start, events, |earlier|, |events|, aliasKeys);
    forall k | 0 <= k < |next| ensures RetriedAt(start, events, next[k], EndOf(next, k, |events|), aliasKeys) {
      if k < |starts| {
        assert RetriedAt(start, earlier, starts[k], EndOf(starts, k, |earlier|), aliasKeys);
        RetriedAtLater(start, earlier, more, starts[k], EndOf(starts, k, |earlier|), aliasKeys);
      }
    }
  }

  lemma PrefixOf(start: World, events: seq<Event>, more: seq<Event>, m: nat, aliasKeys: set<string>)
    requires m <= |events| && NoOwn(events)
    ensures NoOwn(events[..m]) && (Quiet(start, events + more, aliasKeys) ==> Quiet(start, events[..m], aliasKeys))
  {
    assert forall i :: 0 <= i < m ==> events[..m][i] == events[i] == (events + more)[i];
  }

  lemma FirstRetry(start: World, events: seq<Event>, starts: seq<nat>, aliasKeys: set<string>) returns (end: nat)
    requires EachRetried(start, events, starts, aliasKeys) && starts != []
    ensures end <= |events|
    ensures Matching(StateAfter(start, events[..end]).store, aliasKeys) != Matching(start.store, aliasKeys)
  {
    end := EndOf(starts, 0, |events|);
    assert RetriedAt(start, events, starts[0], end, aliasKeys);
    assert StateAfter(start, events[..0]) == start;
  }

  /** If nobody touches the entries, no attempt asks for a retry. */
  lemma RetriesMeanChange(start: World, events: seq<Event>, starts: seq<nat>, more: seq<Event>, aliasKeys: set<string>)
    requires EachRetried(start, events, starts, aliasKeys)
    ensures Quiet(start, events + more, aliasKeys) ==> starts == [] && events == []
  {
    if starts != [] {
      var end := FirstRetry(start, events, starts, aliasKeys);
      PrefixOf(start, events, more, end, aliasKeys);
      var first := events[..end];
      assert [] + first == first && StateAfter(start, []) == start;
      RetryMeansChange(start, [], first, aliasKeys);
    }
  }

  // ---- What saving and loading mean together ----

  /** After a save under `p`, the only entry found under any alias `q` of `p` is the saved one. */
  lemma OnlyTheSavedEntry(before: Option<Store>, p: string, q: string, cipher: string, home: string)
    requires KeyPaths.IsPosixHome(home) && KeyPaths.IsCleanHome(home)
    requires !KeyPaths.LooksLikeWindows(p) && !KeyPaths.LooksLikeWindows(q)
    requires KeyPaths.Finds(p, q, Some(home))
    ensures Matching(Some(Written(before, p, cipher, KeyPaths.AliasKeys(p, Some(home)))),
                     KeyPaths.AliasKeys(q, Some(home))) == map[p := cipher]
  {
    KeyPaths.AliasClassesAgree(p, q, home);
  }

  /** A load that takes effect where a single entry matches returns what that entry decrypts to. */
  lemma OnlyEntryIsReturned(p: string, q: string, aliasKeys: set<string>, passphrase: string, cipher: string,
                            isPlaceholder: string -> bool, start: World, events: seq<Event>, value: Option<string>,
                            seen: World, path: string, after: World, full: bool)
    requires passphrase != "" && !isPlaceholder(passphrase)
    requires Matching(seen.store, aliasKeys) == map[p := cipher]
    requires LoadSpec(q, aliasKeys, isPlaceholder, start, events, Done(value), seen, path, after, full)
    requires forall a :: Decrypted(cipher, a) in events ==> a == Text(passphrase)
    ensures value == Some(passphrase) && after == seen
  {
    var entries := Matching(seen.store, aliasKeys);
    assert entries.Keys == {p} && entries[p] == cipher;
    assert !Unread(cipher, events, isPlaceholder);
    if value.Some? {
      assert path == p && entries.Keys - {path} == {};
      assert seen.store.value - {} == seen.store.value;
    }
  }

  /**
   * Round trip: a load under any alias that takes effect in the store left by the save returns the
   * saved passphrase and leaves that store as it is.
   */
  lemma SavedIsLoaded(before: Option<Store>, p: string, q: string, passphrase: string, cipher: string, home: string,
                      isPlaceholder: string -> bool, start: World, events: seq<Event>, value: Option<string>,
                      seen: World, path: string, after: World, full: bool)
    requires KeyPaths.IsPosixHome(home) && KeyPaths.IsCleanHome(home)
    requires !KeyPaths.LooksLikeWindows(p) && !KeyPaths.LooksLikeWindows(q)
    requires KeyPaths.Finds(p, q, Some(home))
    requires passphrase != "" && !isPlaceholder(passphrase)
    requires seen.store == Some(Written(before, p, cipher, KeyPaths.AliasKeys(p, Some(home))))
    requires LoadSpec(q, KeyPaths.AliasKeys(q, Some(home)), isPlaceholder, start, events, Done(value), seen, path,
                      after, full)
    requires forall a :: Decrypted(cipher, a) in events ==> a == Text(passphrase)
    ensures value == Some(passphrase) && after == seen
  {
    OnlyTheSavedEntry(before, p, q, cipher, home);
    OnlyEntryIsReturned(p, q, KeyPaths.AliasKeys(q, Some(home)), passphrase, cipher, isPlaceholder, start, events,
                        value, seen, path, after, full);
  }

  /** A load that nobody disturbs, from a state where a single entry matches, returns what it decrypts to. */
  lemma QuietLoadReturns(p: string, q: string, aliasKeys: set<string>, passphrase: string, cipher: string,
                         isPlaceholder: string -> bool, start: World, events: seq<Event>, outcome: Attempt,
                         seen: World, path: string, after: World, full: bool)
    requires passphrase != "" && !isPlaceholder(passphrase)
    requires Matching(start.store, aliasKeys) == map[p := cipher] && Quiet(start, events, aliasKeys)
    requires LoadSpec(q, aliasKeys, isPlaceholder, start, events, outcome, seen, path, after, full) && !outcome.Again?
    requires forall a :: Decrypted(cipher, a) in events ==> a == Text(passphrase)
    ensures outcome == Done(Some(passphrase))
  {
    if outcome.Done? {
      if seen != start {
        var n :| 0 <= n <= |events| && EffectAt(start, events, n, seen, after);
        QuietKeepsMatching(start, events[..n], aliasKeys);
      }
      OnlyEntryIsReturned(p, q, aliasKeys, passphrase, cipher, isPlaceholder, start, events, outcome.value, seen, path,
                          after, full);
    }
  }

  /** A load never adds or changes an entry, and touches no entry outside the alias keys. */
  lemma LoadOnlyRemoves(keyPath: string, aliasKeys: set<string>, isPlaceholder: string -> bool, start: World,
                        events: seq<Event>, value: Option<string>, seen: World, path: string, after: World, full: bool)
    requires LoadSpec(keyPath, aliasKeys, isPlaceholder, start, events, Done(value), seen, path, after, full)
    requires Matching(seen.store, aliasKeys) != map[]
    ensures after.keys == seen.keys
    ensures forall p :: p in after.store.GetOr(map[]) ==>
              p in seen.store.GetOr(map[]) && after.store.GetOr(map[])[p] == seen.store.GetOr(map[])[p]
    ensures forall p :: p in seen.store.GetOr(map[]) && KeyPaths.PathKey(p) !in aliasKeys ==>
              p in after.store.GetOr(map[])
    ensures !full ==> Matching(after.store, aliasKeys).Keys == if value.Some? then {path} else {}
  {
  }

  ghost predicate TriedAt(store: Store, path: string, invalid: Store, events: seq<Event>,
                          isPlaceholder: string -> bool) {
    && path in store && path in invalid && invalid[path] == store[path]
    && Unread(store[path], events, isPlaceholder)
  }

  /** The loop state of a load attempt: the first `i` entries were decrypted and none was readable. */
  ghost predicate Tried(store: Store, paths: seq<string>, i: nat, invalid: Store, start: World, events: seq<Event>,
                        now: World, isPlaceholder: string -> bool)
  {
    && i <= |paths|
    && NoOwn(events) && StateAfter(start, events) == now
    && (invalid == map[] <==> i == 0)
    && (forall j :: 0 <= j < i ==> TriedAt(store, paths[j], invalid, events, isPlaceholder))
  }

  lemma AfterDecrypt(start: World, before: seq<Event>, cipher: string, answer: Answer, now: World)
    requires NoOwn(before)
    ensures var events := before + [Decrypted(cipher, answer)] + [Others(now)];
            NoOwn(events) && StateAfter(start, events) == now && events[|before|] == Decrypted(cipher, answer)
  {
  }

  lemma TriedOneMore(store: Store, paths: seq<string>, i: nat, invalid: Store, start: World, before: seq<Event>,
                     answer: Answer, was: World, now: World, isPlaceholder: string -> bool)
    requires i < |paths| && paths[i] in store && !Readable(answer, isPlaceholder)
    requires Tried(store, paths, i, invalid, start, before, was, isPlaceholder)
    ensures Tried(store, paths, i + 1, invalid[paths[i] := store[paths[i]]], start,
                  before + [Decrypted(store[paths[i]], answer)] + [Others(now)], now, isPlaceholder)
  {
    var cipher := store[paths[i]];
    var events := before + [Decrypted(cipher, answer)] + [Others(now)];
    AfterDecrypt(start, before, cipher, answer, now);
    assert Unread(cipher, events, isPlaceholder) by { assert Decrypted(cipher, answer) in events; }
    var more := invalid[paths[i] := cipher];
    forall j | 0 <= j < i + 1 ensures TriedAt(store, paths[j], more, events, isPlaceholder) {
      if j < i {
        assert TriedAt(store, paths[j], invalid, before, isPlaceholder);
        UnreadGrows(store[paths[j]], before, events, isPlaceholder);
      }
    }
    assert paths[i] in more;
  }

  /** The exact spelling is tried first, so another entry is used only after it was found unreadable. */
  lemma ExactTriedFirst(keyPath: string, aliasKeys: set<string>, store: Store, paths: seq<string>, i: nat,
                        invalid: Store, start: World, before: seq<Event>, events: seq<Event>, was: World,
                        isPlaceholder: string -> bool)
    requires i < |paths| && before <= events
    requires Tried(store, paths, i, invalid, start, before, was, isPlaceholder)
    requires keyPath in Matching(Some(store), aliasKeys) ==> paths[0] == keyPath
    ensures keyPath in Matching(Some(store), aliasKeys) && paths[i] != keyPath ==>
              Unread(store[keyPath], events, isPlaceholder)
  {
  }

  lemma Found(keyPath: string, aliasKeys: set<string>, isPlaceholder: string -> bool, start: World,
              events: seq<Event>, store: Store, text: string, seen: World, path: string, after: World, full: bool)
    requires Atomic(start, events, seen, after)
    requires Matching(Some(store), aliasKeys) == Matching(seen.store, aliasKeys)
    requires path in Matching(Some(store), aliasKeys) && text != "" && !isPlaceholder(text)
    requires Decrypted(store[path], Text(text)) in events
    requires keyPath in Matching(Some(store), aliasKeys) && path != keyPath ==>
               Unread(store[keyPath], events, isPlaceholder)
    requires after.keys == seen.keys
    requires after.store == if full then seen.store
               else Some(seen.store.GetOr(map[]) - (Matching(seen.store, aliasKeys).Keys - {path}))
    ensures LoadSpec(keyPath, aliasKeys, isPlaceholder, start, events, Done(Some(text)), seen, path, after, full)
  {
  }

  lemma Forgotten(keyPath: string, aliasKeys: set<string>, isPlaceholder: string -> bool, start: World,
                  events: seq<Event>, store: Store, seen: World, path: string, after: World, full: bool)
    requires Atomic(start, events, seen, after)
    requires Matching(Some(store), aliasKeys) == Matching(seen.store, aliasKeys) != map[]
    requires forall p :: p in Matching(Some(store), aliasKeys) ==> Unread(store[p], events, isPlaceholder)
    requires after.keys == seen.keys
    requires after.store == if full then seen.store
               else Some(seen.store.GetOr(map[]) - Matching(seen.store, aliasKeys).Keys)
    ensures LoadSpec(keyPath, aliasKeys, isPlaceholder, start, events, Done(None), seen, path, after, full)
  {
  }

  lemma Reassociate(a: seq<Event>, b: seq<Event>, c: seq<Event>)
    ensures (a + b) + c == a + (b + c)
  {
  }

  lemma OwnTail(start: World, mine: seq<Event>, wrote: seq<Event>, seen: World, after: World)
    requires NoOwn(mine) && StateAfter(start, mine) == seen
    requires AllOwn(wrote) && |wrote| <= 1
    requires if wrote == [] then after == seen else wrote[0].after == after
    ensures Atomic(start, mine + wrote, seen, after)
    ensures StateAfter(start, mine + wrote) == after
  {
    if wrote == [] {
      assert mine + wrote == mine;
    } else {
      assert mine + wrote == mine + [wrote[0]];
      StateAfterAppend(start, mine, wrote[0]);
    }
    OwnTailIsAtomic(start, mine, wrote, seen, after);
  }

  lemma AllUnread(store: Store, paths: seq<string>, invalid: Store, start: World, mine: seq<Event>, events: seq<Event>,
                  was: World, aliasKeys: set<string>, isPlaceholder: string -> bool)
    requires mine <= events
    requires forall p :: p in paths <==> p in Matching(Some(store), aliasKeys)
    requires Tried(store, paths, |paths|, invalid, start, mine, was, isPlaceholder)
    ensures forall p :: p in Matching(Some(store), aliasKeys) ==> Unread(store[p], events, isPlaceholder)
    ensures forall p :: p in paths ==> p in store && p in invalid && invalid[p] == store[p]
  {
  }

  class PassphraseStorage {
    var slot: Option<Store>
    var keys: seq<SshKey>
    /** The storage quota is exhausted, so writes are dropped silently. */
    var full: bool
    const isPlaceholder: string -> bool
    ghost var log: seq<Event>

    constructor (isPlaceholder: string -> bool)
      ensures slot == None && keys == [] && log == [] && this.isPlaceholder == isPlaceholder
    {
      this.isPlaceholder := isPlaceholder;
      slot, keys, full, log := None, [], false, [];
    }

    function Now(): World
      reads this
    {
      World(slot, keys)
    }

    /** An await: other code may replace the store and the keys. */
    method AwaitOthers()
      modifies this
      ensures log == old(log) + [Others(Now())]
    {
      slot, keys, full := *, *, *;
      log := log + [Others(Now())];
    }

    method Decrypt(cipher: string) returns (answer: Answer)
      modifies this
      ensures log == old(log) + [Decrypted(cipher, answer)] + [Others(Now())]
    {
      answer := *;
      log := log + [Decrypted(cipher, answer)];
      AwaitOthers();
    }

    method TryWrite(next: Store)
      modifies `slot, `log
      ensures slot == if full then old(slot) else Some(next)
      ensures log == if full then old(log) else old(log) + [Own(Now())]
    {
      if !full {
        slot := Some(next);
        log := log + [Own(Now())];
      }
    }

    /** The end of an attempt that decrypted an entry: re-read, compare, drop the other spellings. */
    method KeepOnly(store: Store, paths: seq<string>, path: string, aliasKeys: set<string>)
      returns (retry: bool, ghost wrote: seq<Event>)
      requires forall p :: p in paths <==> p in Matching(Some(store), aliasKeys)
      requires path in paths
      modifies `slot, `log
      ensures log == old(log) + wrote && AllOwn(wrote) && |wrote| <= 1
      ensures wrote == [] ==> Now() == old(Now())
      ensures wrote != [] ==> wrote[0].after == Now()
      ensures retry <==> Matching(Some(store), aliasKeys) != Matching(old(slot), aliasKeys)
      ensures retry ==> wrote == []
      ensures !retry ==> slot == if full then old(slot)
                                 else Some(old(slot).GetOr(map[]) - (Matching(old(slot), aliasKeys).Keys - {path}))
    {
      wrote := [];
      retry := Matching(Some(store), aliasKeys) != Matching(slot, aliasKeys);
      if !retry {
        assert slot.Some? by { assert path in Matching(slot, aliasKeys); }
        var next, changed := DropDuplicates(slot.value, paths, path);
        assert (set p | p in paths && p != path) == Matching(slot, aliasKeys).Keys - {path};
        if changed {
          TryWrite(next);
          wrote := log[|old(log)|..];
        }
      }
    }

    /** The end of an attempt that decrypted nothing: re-read, compare, drop every unreadable entry. */
    method ForgetUnreadable(store: Store, paths: seq<string>, invalid: Store, aliasKeys: set<string>)
      returns (retry: bool, ghost wrote: seq<Event>)
      requires forall p :: p in paths <==> p in Matching(Some(store), aliasKeys)
      requires forall p :: p in paths ==> p in invalid && invalid[p] == store[p]
      requires paths != []
      modifies `slot, `log
      ensures log == old(log) + wrote && AllOwn(wrote) && |wrote| <= 1
      ensures wrote == [] ==> Now() == old(Now())
      ensures wrote != [] ==> wrote[0].after == Now()
      ensures retry <==> Matching(Some(store), aliasKeys) != Matching(old(slot), aliasKeys)
      ensures retry ==> wrote == []
      ensures !retry ==> slot == if full then old(slot)
                                 else Some(old(slot).GetOr(map[]) - Matching(old(slot), aliasKeys).Keys)
    {
      wrote := [];
      ghost var entries := Matching(Some(store), aliasKeys);
      retry := Matching(Some(store), aliasKeys) != Matching(slot, aliasKeys);
      if !retry {
        assert paths[0] in Matching(slot, aliasKeys);
        var latest := slot.value;
        var next, changed := DropInvalid(latest, paths, invalid);
        assert (set p | p in paths && p in latest && latest[p] == invalid[p]) == entries.Keys by {
          forall p | p in entries ensures p in latest && latest[p] == invalid[p] {
            assert p in paths;
            assert Matching(slot, aliasKeys)[p] == entries[p];
          }
        }
        if changed {
          TryWrite(next);
          wrote := log[|old(log)|..];
        }
      }
    }

    /** An entry was readable: the first part of an attempt that decides (lines 118-134). */
    method Take(keyPath: string, store: Store, paths: seq<string>, i: nat, text: string, invalid: Store,
                aliasKeys: set<string>, ghost start: World, ghost before: seq<Event>, ghost was: World,
                ghost mine: seq<Event>)
      returns (attempt: Attempt, ghost wrote: seq<Event>, ghost seen: World)
      requires start.store == Some(store) && i < |paths|
      requires forall p :: p in paths <==> p in Matching(Some(store), aliasKeys)
      requires keyPath in Matching(Some(store), aliasKeys) ==> paths[0] == keyPath
      requires Tried(store, paths, i, invalid, start, before, was, isPlaceholder) && before <= mine
      requires NoOwn(mine) && StateAfter(start, mine) == Now()
      requires paths[i] in store && Decrypted(store[paths[i]], Text(text)) in mine &&
               Readable(Text(text), isPlaceholder)
      modifies `slot, `log
      ensures log == old(log) + wrote && Now() == StateAfter(start, mine + wrote)
      ensures LoadSpec(keyPath, aliasKeys, isPlaceholder, start, mine + wrote, attempt, seen, paths[i], Now(), full)
    {
      seen := Now();
      var retry;
      retry, wrote := KeepOnly(store, paths, paths[i], aliasKeys);
      OwnTail(start, mine, wrote, seen, Now());
      attempt := if retry then Again else Done(Some(text));
      if retry {
        assert mine + wrote == mine;
      } else {
        ExactTriedFirst(keyPath, aliasKeys, store, paths, i, invalid, start, before, mine + wrote, was, isPlaceholder);
        Found(keyPath, aliasKeys, isPlaceholder, start, mine + wrote, store, text, seen, paths[i], Now(), full);
      }
    }

    /** Every matching entry was unreadable: the last part of an attempt (lines 138-155). */
    method GiveUp(keyPath: string, store: Store, paths: seq<string>, invalid: Store, aliasKeys: set<string>,
                  ghost start: World, ghost mine: seq<Event>, ghost path: string)
      returns (attempt: Attempt, ghost wrote: seq<Event>, ghost seen: World)
      requires invalid != map[] && start.store == Some(store)
      requires forall p :: p in paths <==> p in Matching(Some(store), aliasKeys)
      requires Tried(store, paths, |paths|, invalid, start, mine, Now(), isPlaceholder)
      modifies `slot, `log
      ensures log == old(log) + wrote && Now() == StateAfter(start, mine + wrote)
      ensures LoadSpec(keyPath, aliasKeys, isPlaceholder, start, mine + wrote, attempt, seen, path, Now(), full)
    {
      seen := Now();
      AllUnread(store, paths, invalid, start, mine, mine, seen, aliasKeys, isPlaceholder);
      var retry;
      retry, wrote := ForgetUnreadable(store, paths, invalid, aliasKeys);
      OwnTail(start, mine, wrote, seen, Now());
      attempt := if retry then Again else Done(None);
      if retry {
        assert mine + wrote == mine;
      } else {
        AllUnread(store, paths, invalid, start, mine, mine + wrote, seen, aliasKeys, isPlaceholder);
        assert paths[0] in Matching(Some(store), aliasKeys);
        Forgotten(keyPath, aliasKeys, isPlaceholder, start, mine + wrote, store, seen, path, Now(), full);
      }
    }

    method SetKeys(next: seq<SshKey>)
      modifies `keys, `log
      ensures keys == next && log == old(log) + [Own(Now())]
    {
      keys := next;
      log := log + [Own(Now())];
    }

    /** One load attempt (lines 98-157). */
    method LoadOnce(keyPath: string, home: Option<string>)
      returns (attempt: Attempt, ghost events: seq<Event>, ghost seen: World, ghost path: string)
      modifies this
      ensures log == old(log) + events
      ensures Now() == StateAfter(old(Now()), events)
      ensures LoadSpec(keyPath, KeyPaths.AliasKeys(keyPath, home), isPlaceholder, old(Now()), events, attempt, seen,
                       path, Now(), full)
    {
      ghost var start := Now();
      events, seen, path := [], start, keyPath;
      var store := slot;
      if store.None? {
        attempt := Done(None);
        return;
      }
      AwaitOthers();
      events := [Others(Now())];
      var aliasKeys := KeyPaths.AliasKeys(keyPath, home);
      var paths := StoredPaths(store.value, aliasKeys, keyPath);
      var invalid: Store := map[];
      var i := 0;
      while i < |paths|
        invariant 0 <= i <= |paths| && seen == start
        invariant log == old(log) + events
        invariant Tried(store.value, paths, i, invalid, start, events, Now(), isPlaceholder)
      {
        var storedPath := paths[i];
        assert storedPath in Matching(store, aliasKeys);
        var cipher := store.value[storedPath];
        ghost var before, was := events, Now();
        var answer := Decrypt(cipher);
        events := before + [Decrypted(cipher, answer)] + [Others(Now())];
        Reassociate(old(log), before, [Decrypted(cipher, answer)]);
        Reassociate(old(log), before + [Decrypted(cipher, answer)], [Others(Now())]);
        assert log == old(log) + events;
        AfterDecrypt(start, before, cipher, answer, Now());
        if answer.Rejected? {
          assert cipher in Matching(store, aliasKeys).Values && events[|before|] == Decrypted(cipher, Rejected);
          attempt := Threw;
          return;
        }
        if Readable(answer, isPlaceholder) {
          path := storedPath;
          ghost var mine := events;
          assert mine[|before|] == Decrypted(cipher, answer);
          ghost var wrote;
          attempt, wrote, seen := Take(keyPath, store.value, paths, i, answer.text, invalid, aliasKeys, start, before,
                                       was, mine);
          events := mine + wrote;
          Reassociate(old(log), mine, wrote);
          assert log == old(log) + events;
          return;
        }
        TriedOneMore(store.value, paths, i, invalid, start, before, answer, was, Now(), isPlaceholder);
        invalid := invalid[storedPath := cipher];
        i := i + 1;
      }
      if invalid != map[] {
        ghost var mine := events;
        ghost var wrote;
        attempt, wrote, seen := GiveUp(keyPath, store.value, paths, invalid, aliasKeys, start, mine, path);
        events := mine + wrote;
        Reassociate(old(log), mine, wrote);
        assert log == old(log) + events;
        return;
      }
      attempt := Done(None);
    }

    /**
     * Up to three attempts (lines 159-165): `retried` is where those that asked for a retry begin, and `last` where
     * the deciding one does.
     */
    method Load(keyPath: string, home: Option<string>)
      returns (outcome: Attempt, ghost exhausted: bool, ghost retried: seq<nat>, ghost last: nat,
               ghost events: seq<Event>, ghost seen: World, ghost path: string)
      modifies this
      ensures log == old(log) + events && Now() == StateAfter(old(Now()), events)
      ensures last <= |events| && !outcome.Again?
      ensures EachRetried(old(Now()), events[..last], retried, KeyPaths.AliasKeys(keyPath, home))
      ensures |retried| <= 3 && (exhausted <==> |retried| == 3)
      ensures exhausted ==> outcome == Done(None) && last == |events|
      ensures !exhausted ==>
                LoadSpec(keyPath, KeyPaths.AliasKeys(keyPath, home), isPlaceholder,
                         StateAfter(old(Now()), events[..last]), events[last..], outcome, seen, path, Now(), full)
      ensures Quiet(old(Now()), events, KeyPaths.AliasKeys(keyPath, home)) ==> !exhausted && last == 0
    {
      ghost var aliasKeys := KeyPaths.AliasKeys(keyPath, home);
      events, last, retried, seen, path := [], 0, [], Now(), keyPath;
      for i := 0 to 3
        invariant log == old(log) + events && StateAfter(old(Now()), events) == Now()
        invariant |retried| == i && EachRetried(old(Now()), events, retried, aliasKeys)
      {
        last := |events|;
        ghost var earlier, from := events, Now();
        ghost var more;
        outcome, more, seen, path := LoadOnce(keyPath, home);
        events := earlier + more;
        Reassociate(old(log), earlier, more);
        assert log == old(log) + events;
        StateAfterConcat(old(Now()), earlier, more);
        assert events[..last] == earlier && events[last..] == more;
        if !outcome.Again? {
          exhausted := false;
          RetriesMeanChange(old(Now()), earlier, retried, more, aliasKeys);
          return;
        }
        OneMoreRetry(old(Now()), earlier, retried, more, aliasKeys);
        retried := retried + [|earlier|];
      }
      outcome, exhausted, last := Done(None), true, |events|;
      assert events[..last] == events && events + [] == events;
      RetriesMeanChange(old(Now()), events, retried, [], aliasKeys);
    }

    /** Awaits encryptField; None is a rejection, and an undefined result stands for the plain text. */
    method Encrypt(plain: string) returns (stored: Option<string>, ghost events: seq<Event>)
      modifies this
      ensures log == old(log) + events && NoOwn(events) && events != []
      ensures forall w :: StateAfter(w, events) == Now()
      ensures Encrypted(plain, stored) in events
    {
      var result: Option<Option<string>> := *;
      stored := match result
        case None => None
        case Some(answer) => Some(answer.GetOr(plain));
      events := [Encrypted(plain, stored)];
      log := log + events;
      AwaitOthers();
      assert (events + [Others(Now())])[0] == Encrypted(plain, stored);
      events := events + [Others(Now())];
    }

    /** The synchronous write at the end of every mutation (lines 54-68). */
    method WriteUnlocked(keyPath: string, cipher: string, aliasKeys: set<string>) returns (ghost wrote: seq<Event>)
      requires KeyPaths.PathKey(keyPath) in aliasKeys
      modifies `slot, `log
      ensures log == old(log) + wrote && AllOwn(wrote) && |wrote| <= 1
      ensures if wrote == [] then Now() == old(Now()) else wrote[0].after == Now()
      ensures slot == if full then old(slot) else Some(Written(old(slot), keyPath, cipher, aliasKeys))
      ensures !full ==>
                && keyPath in slot.value && slot.value[keyPath] == cipher
                && SameOutside(old(slot), slot, keyPath, aliasKeys)
    {
      var store := DropOthers(slot.GetOr(map[]), keyPath, aliasKeys);
      store := store[keyPath := cipher];
      assert store == Written(slot, keyPath, cipher, aliasKeys);
      wrote := [];
      TryWrite(store);
      wrote := log[|old(log)|..];
    }

    /** The queued mutation that remembers one passphrase (lines 70-74). */
    method Save(keyPath: string, passphrase: string, home: Option<string>)
      returns (saved: bool, ghost events: seq<Event>, ghost seen: World, ghost cipher: string)
      modifies this
      ensures log == old(log) + events
      ensures Encrypted(passphrase, if saved then Some(cipher) else None) in events
      ensures !saved ==> NoOwn(events)
      ensures saved ==>
                && Atomic(old(Now()), events, seen, Now())
                && Now() == (if full then seen else
                     seen.(store := Some(Written(seen.store, keyPath, cipher, KeyPaths.AliasKeys(keyPath, home)))))
      ensures saved && !full ==>
                && slot.Some? && keyPath in slot.value && slot.value[keyPath] == cipher
                && SameOutside(seen.store, slot, keyPath, KeyPaths.AliasKeys(keyPath, home))
    {
      seen, cipher := Now(), passphrase;
      AwaitOthers();
      events := [Others(Now())];
      var aliasKeys := KeyPaths.AliasKeys(keyPath, home);
      var stored, more := Encrypt(passphrase);
      ghost var mine := events + more;
      StateAfterConcat(old(Now()), events, more);
      Reassociate(old(log), events, more);
      assert log == old(log) + mine;
      events, seen, saved := mine, Now(), stored.Some?;
      if saved {
        cipher := stored.value;
        var wrote := WriteUnlocked(keyPath, stored.value, aliasKeys);
        events := mine + wrote;
        Reassociate(old(log), mine, wrote);
        assert log == old(log) + events;
        OwnTail(old(Now()), mine, wrote, seen, Now());
      }
    }
  }

  // ---- Saving, then loading ----

  /** The save was stored, nobody touched the matching entries since, and decryption undoes encryption. */
  ghost predicate IsFaithful(saved: World, rest: seq<Event>, aliasKeys: set<string>, passphrase: string,
                             cipher: string) {
    Quiet(saved, rest, aliasKeys) && forall a :: Decrypted(cipher, a) in rest ==> a == Text(passphrase)
  }

  lemma QuietLater(start: World, first: World, events: seq<Event>, aliasKeys: set<string>)
    requires Quiet(start, [Others(first)] + events, aliasKeys)
    ensures Matching(first.store, aliasKeys) == Matching(start.store, aliasKeys) && Quiet(first, events, aliasKeys)
  {
    var all := [Others(first)] + events;
    assert all[0] == Others(first);
    forall i | 0 <= i < |events| && events[i].Others?
      ensures Matching(events[i].after.store, aliasKeys) == Matching(first.store, aliasKeys)
    {
      assert all[i + 1] == events[i];
    }
  }

  /**
   * Round trip in one run: save under `p`, let others act, load under any alias `q` of `p`. A save that was stored
   * is what the load returns, if nobody touches the entries of `q` meanwhile.
   */
  method SaveThenLoad(storage: PassphraseStorage, p: string, q: string, passphrase: string, home: string)
    returns (outcome: Attempt, ghost stored: bool, ghost saved: World, ghost rest: seq<Event>, ghost cipher: string)
    modifies storage
    ensures exists first :: storage.log == old(storage.log) + (first + rest) &&
              (stored ==>
                 Encrypted(passphrase, Some(cipher)) in first && StateAfter(old(storage.Now()), first) == saved)
    ensures && stored && KeyPaths.IsPosixHome(home) && KeyPaths.IsCleanHome(home)
            && !KeyPaths.LooksLikeWindows(p) && !KeyPaths.LooksLikeWindows(q) && KeyPaths.Finds(p, q, Some(home))
            && passphrase != "" && !storage.isPlaceholder(passphrase)
            && IsFaithful(saved, rest, KeyPaths.AliasKeys(q, Some(home)), passphrase, cipher)
            ==> outcome == Done(Some(passphrase))
  {
    var ok, first, seen, encrypted := storage.Save(p, passphrase, Some(home));
    stored, saved, cipher := ok && !storage.full, storage.Now(), encrypted;
    storage.AwaitOthers();
    ghost var between := storage.Now();
    var loaded, exhausted, retried, last, events, at, path := storage.Load(q, Some(home));
    outcome, rest := loaded, [Others(between)] + events;
    Reassociate(old(storage.log), first, [Others(between)]);
    Reassociate(old(storage.log), first + [Others(between)], events);
    Reassociate(first, [Others(between)], events);
    assert storage.log == old(storage.log) + (first + rest);
    ghost var aliasKeys := KeyPaths.AliasKeys(q, Some(home));
    if && stored && KeyPaths.IsPosixHome(home) && KeyPaths.IsCleanHome(home)
       && !KeyPaths.LooksLikeWindows(p) && !KeyPaths.LooksLikeWindows(q) && KeyPaths.Finds(p, q, Some(home))
       && passphrase != "" && !storage.isPlaceholder(passphrase)
       && IsFaithful(saved, rest, aliasKeys, passphrase, cipher)
    {
      OnlyTheSavedEntry(seen.store, p, q, cipher, home);
      QuietLater(saved, between, events, aliasKeys);
      assert events[..0] == [] && events[0..] == events;
      forall a | Decrypted(cipher, a) in events ensures a == Text(passphrase) {
        assert Decrypted(cipher, a) in rest;
      }
      QuietLoadReturns(p, q, aliasKeys, passphrase, cipher, storage.isPlaceholder, between, events, outcome, at, path,
                       storage.Now(), storage.full);
    }
  }
}
