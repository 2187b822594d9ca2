/**
 * Importing a passphrase (application/defaultKeyPassphrases.ts:178-235, 245-273, 474-528): verify that
 * nothing different is remembered, encrypt, check that the matching keys are still the same, write.
 */
module PassphraseImport {
  import opened Prelude
  import KeyPaths
  import opened PassphraseStore

  datatype Verification = Verification(values: set<string>, unreadable: bool)

  /** `KeysNotKept` is the rejection of an import that has written, when updating the key list is rejected. */
  datatype ImportResult = Saved | Conflict | Unreadable | Failed | KeysNotKept

  predicate Wrote(result: ImportResult) { result.Saved? || result.KeysNotKept? }

  // ---- The fingerprint of the matching reference keys ----

  datatype KeyMark = KeyMark(id: string, filePath: string, passphrase: Option<string>, savePassphrase: Option<bool>)

  function Marks(keys: seq<SshKey>, aliasKeys: set<string>): seq<KeyMark> {
    if keys == [] then []
    else (if keys[0].IsReferenceTo(aliasKeys)
          then [KeyMark(keys[0].id, keys[0].filePath, keys[0].passphrase, keys[0].savePassphrase)]
          else []) + Marks(keys[1..], aliasKeys)
  }

  /** Stable insertion by id; `before` is the locale's order, about which nothing is assumed. */
  function InsertById(mark: KeyMark, sorted: seq<KeyMark>, before: (string, string) -> bool): seq<KeyMark> {
    if sorted == [] || !before(sorted[0].id, mark.id) then [mark] + sorted
    else [sorted[0]] + InsertById(mark, sorted[1..], before)
  }

  function SortById(marks: seq<KeyMark>, before: (string, string) -> bool): seq<KeyMark> {
    if marks == [] then [] else InsertById(marks[0], SortById(marks[1..], before), before)
  }

  function Fingerprint(keys: seq<SshKey>, aliasKeys: set<string>, before: (string, string) -> bool): seq<KeyMark> {
    SortById(Marks(keys, aliasKeys), before)
  }

  lemma {:induction false} InsertKeepsAll(mark: KeyMark, sorted: seq<KeyMark>, before: (string, string) -> bool)
    ensures multiset(InsertById(mark, sorted, before)) == multiset{mark} + multiset(sorted)
  {
    if sorted != [] && before(sorted[0].id, mark.id) {
      InsertKeepsAll(mark, sorted[1..], before);
      assert sorted == [sorted[0]] + sorted[1..];
    }
  }

  lemma {:induction false} SortKeepsAll(marks: seq<KeyMark>, before: (string, string) -> bool)
    ensures multiset(SortById(marks, before)) == multiset(marks)
  {
    if marks != [] {
      SortKeepsAll(marks[1..], before);
      InsertKeepsAll(marks[0], SortById(marks[1..], before), before);
      assert marks == [marks[0]] + marks[1..];
    }
  }

  /** A strict order of all ids. */
  ghost predicate IsOrder(before: (string, string) -> bool) {
    && (forall a, b :: before(a, b) ==> !before(b, a))
    && (forall a, b, c :: before(a, b) && before(b, c) ==> before(a, c))
    && (forall a, b :: a != b ==> before(a, b) || before(b, a))
  }

  ghost predicate Ascending(marks: seq<KeyMark>, before: (string, string) -> bool) {
    forall i, j :: 0 <= i < j < |marks| ==> !before(marks[j].id, marks[i].id)
  }

  lemma {:induction false} InsertAscends(mark: KeyMark, sorted: seq<KeyMark>, before: (string, string) -> bool)
    requires IsOrder(before) && Ascending(sorted, before)
    ensures Ascending(InsertById(mark, sorted, before), before)
  {
    if sorted != [] {
      if before(sorted[0].id, mark.id) {
        InsertAscends(mark, sorted[1..], before);
        InsertKeepsAll(mark, sorted[1..], before);
        var rest := InsertById(mark, sorted[1..], before);
        forall j | 0 <= j < |rest| ensures !before(rest[j].id, sorted[0].id) {
          assert rest[j] in multiset(rest);
          assert rest[j] == mark || rest[j] in sorted[1..];
        }
      } else {
        forall j | 0 <= j < |sorted| ensures !before(sorted[j].id, mark.id) {
          assert j > 0 ==> !before(sorted[j].id, sorted[0].id);
        }
      }
    }
  }

  lemma {:induction false} SortAscends(marks: seq<KeyMark>, before: (string, string) -> bool)
    requires IsOrder(before)
    ensures Ascending(SortById(marks, before), before)
  {
    if marks != [] {
      SortAscends(marks[1..], before);
      InsertAscends(marks[0], SortById(marks[1..], before), before);
    }
  }

  ghost predicate UniqueIds(marks: multiset<KeyMark>) {
    && (forall m :: m in marks ==> marks[m] == 1)
    && (forall m, n :: m in marks && n in marks && m.id == n.id ==> m == n)
  }

  lemma SameLeast(a: seq<KeyMark>, b: seq<KeyMark>, all: multiset<KeyMark>, before: (string, string) -> bool)
    requires IsOrder(before) && Ascending(a, before) && Ascending(b, before)
    requires multiset(a) == multiset(b) <= all && UniqueIds(all) && a != [] && b != []
    ensures a[0] == b[0]
  {
    assert a[0] in multiset(b) && b[0] in multiset(a);
    var i :| 0 <= i < |b| && b[i] == a[0];
    var j :| 0 <= j < |a| && a[j] == b[0];
    assert a[0] in all && b[0] in all;
  }

  lemma Tail(a: seq<KeyMark>, before: (string, string) -> bool) returns (rest: seq<KeyMark>)
    requires a != [] && Ascending(a, before)
    ensures a == [a[0]] + rest && Ascending(rest, before) && multiset(a) == multiset{a[0]} + multiset(rest)
  {
    rest := a[1..];
    assert a == [a[0]] + rest;
  }

  lemma Cancel(m: KeyMark, a: multiset<KeyMark>, b: multiset<KeyMark>)
    requires multiset{m} + a == multiset{m} + b
    ensures a == b && a <= multiset{m} + a
  {
    assert (multiset{m} + a) - multiset{m} == a && (multiset{m} + b) - multiset{m} == b;
  }

  lemma {:induction false} OneAscent(a: seq<KeyMark>, b: seq<KeyMark>, all: multiset<KeyMark>,
                                     before: (string, string) -> bool)
    requires IsOrder(before) && Ascending(a, before) && Ascending(b, before)
    requires |a| == |b| && multiset(a) == multiset(b) <= all && UniqueIds(all)
    ensures a == b
    decreases |a|
  {
    if a != [] {
      SameLeast(a, b, all, before);
      var x := Tail(a, before);
      var y := Tail(b, before);
      Cancel(a[0], multiset(x), multiset(y));
      OneAscent(x, y, all, before);
    }
  }

  /** If ids are unique, the fingerprints of two key lists are equal exactly when they mark the same keys. */
  lemma FingerprintIgnoresOrder(first: seq<SshKey>, latest: seq<SshKey>, aliasKeys: set<string>,
                                before: (string, string) -> bool)
    requires IsOrder(before) && UniqueIds(multiset(Marks(first, aliasKeys)))
    ensures Fingerprint(first, aliasKeys, before) == Fingerprint(latest, aliasKeys, before) <==>
              multiset(Marks(first, aliasKeys)) == multiset(Marks(latest, aliasKeys))
  {
    var a, b := Marks(first, aliasKeys), Marks(latest, aliasKeys);
    SortKeepsAll(a, before);
    SortKeepsAll(b, before);
    SortAscends(a, before);
    SortAscends(b, before);
    if multiset(a) == multiset(b) {
      var x, y := SortById(a, before), SortById(b, before);
      assert |x| == |multiset(x)| == |multiset(y)| == |y|;
      OneAscent(x, y, multiset(a), before);
    }
  }

  lemma {:induction false} MarkedExactly(keys: seq<SshKey>, aliasKeys: set<string>)
    ensures forall k :: k in keys && k.IsReferenceTo(aliasKeys) ==>
              KeyMark(k.id, k.filePath, k.passphrase, k.savePassphrase) in Marks(keys, aliasKeys)
    ensures forall m :: m in Marks(keys, aliasKeys) ==>
              exists k :: k in keys && k.IsReferenceTo(aliasKeys) &&
                          m == KeyMark(k.id, k.filePath, k.passphrase, k.savePassphrase)
  {
    if keys != [] {
      MarkedExactly(keys[1..], aliasKeys);
      assert keys == [keys[0]] + keys[1..];
      forall m | m in Marks(keys, aliasKeys)
        ensures exists k :: k in keys && k.IsReferenceTo(aliasKeys) &&
                            m == KeyMark(k.id, k.filePath, k.passphrase, k.savePassphrase)
      {
        if m in Marks(keys[1..], aliasKeys) {
          var k :| k in keys[1..] && k.IsReferenceTo(aliasKeys) &&
                   m == KeyMark(k.id, k.filePath, k.passphrase, k.savePassphrase);
          assert k in keys;
        } else {
          assert keys[0] in keys;
        }
      }
    }
  }

  /** Every passphrase held by a key that refers to the file is the given one. */
  ghost predicate KeysAgree(keys: seq<SshKey>, aliasKeys: set<string>, passphrase: string) {
    forall k :: k in keys && k.IsReferenceTo(aliasKeys) && k.passphrase.GetOr("") != "" ==>
      k.passphrase == Some(passphrase)
  }

  /** Equal fingerprints carry a verdict about the key passphrases from one key list to the other. */
  lemma SameFingerprintAgrees(first: seq<SshKey>, latest: seq<SshKey>, aliasKeys: set<string>,
                              before: (string, string) -> bool, passphrase: string)
    requires Fingerprint(first, aliasKeys, before) == Fingerprint(latest, aliasKeys, before)
    requires KeysAgree(first, aliasKeys, passphrase)
    ensures KeysAgree(latest, aliasKeys, passphrase)
  {
    SortKeepsAll(Marks(first, aliasKeys), before);
    SortKeepsAll(Marks(latest, aliasKeys), before);
    MarkedExactly(first, aliasKeys);
    MarkedExactly(latest, aliasKeys);
    forall k | k in latest && k.IsReferenceTo(aliasKeys) && k.passphrase.GetOr("") != ""
      ensures k.passphrase == Some(passphrase)
    {
      var m := KeyMark(k.id, k.filePath, k.passphrase, k.savePassphrase);
      assert m in multiset(Marks(latest, aliasKeys)) && m in multiset(Marks(first, aliasKeys));
      assert m in Marks(first, aliasKeys);
    }
  }

  // ---- Verification reads ----

  /** The decryptions awaited during `events`, with their answers. */
  ghost function Asked(events: seq<Event>): set<Event> {
    set e | e in events && e.Decrypted?
  }

  ghost function Ciphers(asked: set<Event>): set<string>
    requires forall e :: e in asked ==> e.Decrypted?
  {
    set e | e in asked :: e.cipher
  }

  /** The values are exactly the readable answers; `unreadable` says whether any answer was not readable. */
  ghost predicate Collected(asked: set<Event>, read: Verification, isPlaceholder: string -> bool)
    requires forall e :: e in asked ==> e.Decrypted?
  {
    && read.values == (set e | e in asked && Readable(e.answer, isPlaceholder) :: e.answer.text)
    && (read.unreadable <==> exists e :: e in asked && !Readable(e.answer, isPlaceholder))
  }

  /** Somebody else changed a matching entry between two moments of `events`. */
  ghost predicate Disturbed(events: seq<Event>, aliasKeys: set<string>) {
    exists i, j :: 0 <= i < j < |events| && events[i].Others? && events[j].Others? &&
      Matching(events[i].after.store, aliasKeys) != Matching(events[j].after.store, aliasKeys)
  }

  /** The loop state of a verification read: the first `i` entries were decrypted. */
  ghost predicate ReadUpTo(start: World, first: World, events: seq<Event>, now: World, store: Store, paths: seq<string>,
                           i: nat, read: Verification, isPlaceholder: string -> bool)
  {
    && NoOwn(events) && StateAfter(start, events) == now
    && events != [] && events[0] == Others(first) && events[|events| - 1] == Others(now)
    && i <= |paths| && (forall j :: 0 <= j < i ==> paths[j] in store)
    && Ciphers(Asked(events)) == (set j | 0 <= j < i :: store[paths[j]])
    && Collected(Asked(events), read, isPlaceholder)
  }

  function WithAnswer(known: Verification, answer: Answer, isPlaceholder: string -> bool): Verification {
    if Readable(answer, isPlaceholder) then Verification(known.values + {answer.text}, known.unreadable)
    else Verification(known.values, true)
  }

  lemma OneMoreRead(start: World, first: World, before: seq<Event>, was: World, store: Store, paths: seq<string>,
                    i: nat, known: Verification, answer: Answer, now: World, isPlaceholder: string -> bool)
    requires ReadUpTo(start, first, before, was, store, paths, i, known, isPlaceholder)
    requires i < |paths| && paths[i] in store
    ensures ReadUpTo(start, first, before + [Decrypted(store[paths[i]], answer)] + [Others(now)], now, store, paths,
                     i + 1, WithAnswer(known, answer, isPlaceholder), isPlaceholder)
  {
    var cipher := store[paths[i]];
    var events := before + [Decrypted(cipher, answer)] + [Others(now)];
    AfterDecrypt(start, before, cipher, answer, now);
    var was, asked := Asked(before), Asked(events);
    assert asked == was + {Decrypted(cipher, answer)};
    assert Ciphers(asked) == Ciphers(was) + {cipher};
    assert (set j | 0 <= j < i + 1 :: store[paths[j]]) == (set j | 0 <= j < i :: store[paths[j]]) + {cipher};
  }

  lemma AllCiphers(store: Store, paths: seq<string>, aliasKeys: set<string>)
    requires forall p :: p in paths <==> p in Matching(Some(store), aliasKeys)
    requires forall j :: 0 <= j < |paths| ==> paths[j] in store
    ensures (set j | 0 <= j < |paths| :: store[paths[j]]) == Matching(Some(store), aliasKeys).Values
  {
    var entries := Matching(Some(store), aliasKeys);
    forall p | p in entries ensures exists j :: 0 <= j < |paths| && store[paths[j]] == entries[p] {
      var j :| 0 <= j < |paths| && paths[j] == p;
    }
    forall j | 0 <= j < |paths| ensures store[paths[j]] in entries.Values {
      assert paths[j] in entries;
    }
  }

  /** One verification read (lines 178-225). None asks for a retry. */
  method VerifyOnce(storage: PassphraseStorage, keyPath: string, home: Option<string>)
    returns (read: Option<Verification>, ghost events: seq<Event>)
    modifies storage
    ensures storage.log == old(storage.log) + events
    ensures NoOwn(events) && StateAfter(old(storage.Now()), events) == storage.Now()
    ensures read.None? ==> Disturbed(events, KeyPaths.AliasKeys(keyPath, home))
    ensures read.Some? ==>
              && Ciphers(Asked(events)) == Matching(storage.slot, KeyPaths.AliasKeys(keyPath, home)).Values
              && Collected(Asked(events), read.value, storage.isPlaceholder)
  {
    ghost var start := storage.Now();
    storage.AwaitOthers();
    events := [Others(storage.Now())];
    ghost var first := storage.Now();
    var aliasKeys := KeyPaths.AliasKeys(keyPath, home);
    var store := storage.slot;
    if store.None? {
      assert Asked(events) == {} && Matching(store, aliasKeys) == map[];
      read := Some(Verification({}, false));
      return;
    }
    var paths := StoredPaths(store.value, aliasKeys, keyPath);
    if paths == [] {
      assert Asked(events) == {} && Matching(store, aliasKeys) == map[];
      read := Some(Verification({}, false));
      return;
    }
    assert Asked(events) == {};
    var values, unreadable := {}, false;
    for i := 0 to |paths|
      invariant storage.log == old(storage.log) + events
      invariant ReadUpTo(start, first, events, storage.Now(), store.value, paths, i, Verification(values, unreadable),
                         storage.isPlaceholder)
    {
      assert paths[i] in Matching(store, aliasKeys);
      var cipher := store.value[paths[i]];
      ghost var before, was, known := events, storage.Now(), Verification(values, unreadable);
      var answer := storage.Decrypt(cipher);
      events := before + [Decrypted(cipher, answer)] + [Others(storage.Now())];
      Reassociate(old(storage.log), before, [Decrypted(cipher, answer)]);
      Reassociate(old(storage.log), before + [Decrypted(cipher, answer)], [Others(storage.Now())]);
      assert storage.log == old(storage.log) + events;
      OneMoreRead(start, first, before, was, store.value, paths, i, known, answer, storage.Now(),
                  storage.isPlaceholder);
      if Readable(answer, storage.isPlaceholder) {
        values := values + {answer.text};
      } else {
        unreadable := true;
      }
    }
    if Matching(store, aliasKeys) != Matching(storage.slot, aliasKeys) {
      read := None;
    } else {
      AllCiphers(store.value, paths, aliasKeys);
      read := Some(Verification(values, unreadable));
    }
  }

  ghost predicate DisturbedAt(events: seq<Event>, n: nat, m: nat, aliasKeys: set<string>) {
    n <= m <= |events| && Disturbed(events[n..m], aliasKeys)
  }

  /** Each of the attempts that began at these points of `events` was disturbed. */
  ghost predicate EachDisturbed(events: seq<Event>, starts: seq<nat>, aliasKeys: set<string>) {
    && (if starts == [] then events == [] else starts[0] == 0)
    && forall k :: 0 <= k < |starts| ==> DisturbedAt(events, starts[k], EndOf(starts, k, |events|), aliasKeys)
  }

  lemma DisturbedAtLater(events: seq<Event>, more: seq<Event>, n: nat, m: nat, aliasKeys: set<string>)
    requires DisturbedAt(events, n, m, aliasKeys)
    ensures DisturbedAt(events + more, n, m, aliasKeys)
  {
    SliceOfFirst(events, more, n, m);
  }

  lemma DisturbedAtEnd(events: seq<Event>, more: seq<Event>, aliasKeys: set<string>)
    requires Disturbed(more, aliasKeys)
    ensures DisturbedAt(events + more, |events|, |events + more|, aliasKeys)
  {
    SliceOfSecond(events, more, 0, |more|);
    assert more[0..|more|] == more;
  }

  lemma OneMoreDisturbed(events: seq<Event>, starts: seq<nat>, more: seq<Event>, aliasKeys: set<string>)
    requires EachDisturbed(events, starts, aliasKeys) && Disturbed(more, aliasKeys)
    ensures EachDisturbed(events + more, starts + [|events|], aliasKeys)
  {
    var next, end := starts + [|events|], |events + more|;
    DisturbedAtEnd(events, more, aliasKeys);
    forall k | 0 <= k < |next| ensures DisturbedAt(events + more, next[k], EndOf(next, k, end), aliasKeys) {
      if k < |starts| {
        assert next[k] == starts[k] && EndOf(next, k, end) == EndOf(starts, k, |events|);
        DisturbedAtLater(events, more, starts[k], EndOf(starts, k, |events|), aliasKeys);
      }
    }
  }

  /**
   * What the verification read came to: what happened before it, its attempts that were disturbed, which begin at
   * `retried`, and the deciding one.
   */
  datatype Reading = Reading(side: Verification, exhausted: bool, before: seq<Event>, earlier: seq<Event>,
                             retried: seq<nat>, last: seq<Event>)

  /**
   * After the disturbed attempts `earlier`, the deciding attempt `last` has read the store; or the third attempt was
   * disturbed too, and all counts as unreadable.
   */
  ghost predicate Concluded(store: Option<Store>, aliasKeys: set<string>, earlier: seq<Event>, last: seq<Event>,
                            side: Verification, exhausted: bool, retried: seq<nat>, isPlaceholder: string -> bool)
  {
    && EachDisturbed(earlier, retried, aliasKeys)
    && |retried| <= 3 && (exhausted <==> |retried| == 3)
    && if exhausted then side == Verification({}, true) && last == []
       else Ciphers(Asked(last)) == Matching(store, aliasKeys).Values && Collected(Asked(last), side, isPlaceholder)
  }

  /** The reading is that of the store as it is after `events`, or three attempts were disturbed. */
  ghost predicate ReadBack(store: Option<Store>, aliasKeys: set<string>, events: seq<Event>, reading: Reading,
                           isPlaceholder: string -> bool)
  {
    && events == reading.before + reading.earlier + reading.last
    && Concluded(store, aliasKeys, reading.earlier, reading.last, reading.side, reading.exhausted, reading.retried,
                 isPlaceholder)
  }

  function Later(first: seq<Event>, reading: Reading): Reading { reading.(before := first + reading.before) }

  lemma ReadBackLater(store: Option<Store>, aliasKeys: set<string>, first: seq<Event>, events: seq<Event>,
                      reading: Reading, isPlaceholder: string -> bool)
    requires ReadBack(store, aliasKeys, events, reading, isPlaceholder)
    ensures ReadBack(store, aliasKeys, first + events, Later(first, reading), isPlaceholder)
  {
    Reassociate(first, reading.before + reading.earlier, reading.last);
    Reassociate(first, reading.before, reading.earlier);
  }

  lemma ReadHere(store: Option<Store>, aliasKeys: set<string>, events: seq<Event>, reading: Reading,
                 isPlaceholder: string -> bool)
    requires reading.before == [] && events == reading.earlier + reading.last
    requires Concluded(store, aliasKeys, reading.earlier, reading.last, reading.side, reading.exhausted,
                       reading.retried, isPlaceholder)
    ensures ReadBack(store, aliasKeys, events, reading, isPlaceholder)
  {
    assert [] + reading.earlier == reading.earlier;
  }

  /** Up to three verification reads (lines 227-235); giving up counts as unreadable. */
  method Verify(storage: PassphraseStorage, keyPath: string, home: Option<string>)
    returns (read: Verification, ghost events: seq<Event>, ghost reading: Reading)
    modifies storage
    ensures storage.log == old(storage.log) + events
    ensures NoOwn(events) && StateAfter(old(storage.Now()), events) == storage.Now()
    ensures reading.side == read
    ensures ReadBack(storage.slot, KeyPaths.AliasKeys(keyPath, home), events, reading, storage.isPlaceholder)
  {
    ghost var start, aliasKeys := storage.Now(), KeyPaths.AliasKeys(keyPath, home);
    ghost var retried: seq<nat> := [];
    events := [];
    for i := 0 to 3
      invariant storage.log == old(storage.log) + events
      invariant NoOwn(events) && StateAfter(start, events) == storage.Now()
      invariant |retried| == i && EachDisturbed(events, retried, aliasKeys)
    {
      ghost var earlier := events;
      var attempt, more := VerifyOnce(storage, keyPath, home);
      events := earlier + more;
      Reassociate(old(storage.log), earlier, more);
      assert storage.log == old(storage.log) + events;
      StateAfterConcat(start, earlier, more);
      if attempt.Some? {
        read, reading := attempt.value, Reading(attempt.value, false, [], earlier, retried, more);
        ReadHere(storage.slot, aliasKeys, events, reading, storage.isPlaceholder);
        return;
      }
      OneMoreDisturbed(earlier, retried, more, aliasKeys);
      retried := retried + [|earlier|];
    }
    read := Verification({}, true);
    reading := Reading(read, true, [], events, retried, []);
    assert events + [] == events;
    ReadHere(storage.slot, aliasKeys, events, reading, storage.isPlaceholder);
  }

  predicate Holds(key: SshKey, aliasKeys: set<string>) {
    key.IsReferenceTo(aliasKeys) && key.passphrase.GetOr("") != ""
  }

  /** The passphrases that keys hold for the file, added to those of the store. */
  ghost function WithKeys(side: Verification, keys: seq<SshKey>, aliasKeys: set<string>, isPlaceholder: string -> bool)
    : Verification
  {
    Verification(
      side.values + (set k | k in keys && Holds(k, aliasKeys) &&
                     !isPlaceholder(k.passphrase.value) :: k.passphrase.value),
      side.unreadable || exists k :: k in keys && Holds(k, aliasKeys) && isPlaceholder(k.passphrase.value))
  }

  method AddKeys(side: Verification, keys: seq<SshKey>, aliasKeys: set<string>, isPlaceholder: string -> bool)
    returns (read: Verification)
    ensures read == WithKeys(side, keys, aliasKeys, isPlaceholder)
    ensures forall v :: v in read.values <==>
              || v in side.values
              || (v != "" && !isPlaceholder(v) && exists k :: k in keys && k.IsReferenceTo(aliasKeys) &&
                                                             k.passphrase == Some(v))
    ensures read.unreadable <==>
              || side.unreadable
              || exists k :: k in keys && k.IsReferenceTo(aliasKeys) && k.passphrase.Some? &&
                             k.passphrase.value != "" && isPlaceholder(k.passphrase.value)
  {
    var values, unreadable := side.values, side.unreadable;
    for i := 0 to |keys|
      invariant Verification(values, unreadable) == WithKeys(side, keys[..i], aliasKeys, isPlaceholder)
    {
      assert keys[..i + 1] == keys[..i] + [keys[i]];
      if Holds(keys[i], aliasKeys) {
        if isPlaceholder(keys[i].passphrase.value) {
          unreadable := true;
        } else {
          values := values + {keys[i].passphrase.value};
        }
      }
    }
    assert keys[..|keys|] == keys;
    read := Verification(values, unreadable);
  }

  /** Everything remembered for the file, in the store and in the key list (lines 245-273). */
  method ReadRemembered(storage: PassphraseStorage, keyPath: string, keys: seq<SshKey>, home: Option<string>)
    returns (read: Verification, ghost events: seq<Event>, ghost reading: Reading)
    modifies storage
    ensures storage.log == old(storage.log) + events
    ensures NoOwn(events) && StateAfter(old(storage.Now()), events) == storage.Now()
    ensures ReadBack(storage.slot, KeyPaths.AliasKeys(keyPath, home), events, reading, storage.isPlaceholder)
    ensures read == WithKeys(reading.side, keys, KeyPaths.AliasKeys(keyPath, home), storage.isPlaceholder)
  {
    ghost var start := storage.Now();
    storage.AwaitOthers();
    ghost var first := [Others(storage.Now())];
    var aliasKeys := KeyPaths.AliasKeys(keyPath, home);
    var side, more, last := Verify(storage, keyPath, home);
    events, reading := first + more, Later(first, last);
    Reassociate(old(storage.log), first, more);
    assert storage.log == old(storage.log) + events;
    StateAfterConcat(start, first, more);
    ReadBackLater(storage.slot, aliasKeys, first, more, last, storage.isPlaceholder);
    read := AddKeys(side, keys, aliasKeys, storage.isPlaceholder);
  }

  // ---- The import ----

  /** Every key that refers to the file carries the passphrase. */
  function Remembered(keys: seq<SshKey>, aliasKeys: set<string>, passphrase: string): (r: seq<SshKey>)
    ensures |r| == |keys|
    ensures forall i :: 0 <= i < |keys| ==>
              r[i] == if keys[i].IsReferenceTo(aliasKeys)
                      then keys[i].(passphrase := Some(passphrase), savePassphrase := Some(true)) else keys[i]
  {
    seq(|keys|, i requires 0 <= i < |keys| =>
      if keys[i].IsReferenceTo(aliasKeys)
      then keys[i].(passphrase := Some(passphrase), savePassphrase := Some(true)) else keys[i])
  }

  /** Every matching entry was decrypted during `events`, to exactly this passphrase. */
  ghost predicate StoreAgrees(store: Option<Store>, aliasKeys: set<string>, events: seq<Event>, passphrase: string) {
    forall c :: c in Matching(store, aliasKeys).Values ==> Decrypted(c, Text(passphrase)) in Asked(events)
  }

  /** The answer to an import, given what was read, what encryption gave, and whether the keys stayed the same
   * and their update was accepted. */
  ghost function ImportAnswer(read: Verification, passphrase: string, stored: Option<string>,
                              sameKeys: bool, keysKept: bool): ImportResult {
    if read.unreadable then Unreadable
    else if exists v :: v in read.values && v != passphrase then Conflict
    else if stored.None? then Failed
    else if !sameKeys then Conflict
    else if !keysKept then KeysNotKept
    else Saved
  }

  /** The moments of an import: aliases resolved, everything read (`n`), and the final step (`m`). */
  datatype Moments = Moments(first: World, n: nat, checked: World, m: nat, seen: World, reading: Reading,
                             stored: Option<string>, accepted: bool)

  predicate Refers(keys: seq<SshKey>, aliasKeys: set<string>) {
    exists k :: k in keys && k.IsReferenceTo(aliasKeys)
  }

  predicate Clear(read: Verification, passphrase: string) {
    !read.unreadable && forall v :: v in read.values ==> v == passphrase
  }

  /** What was read, and when; an import that may go on has encrypted the passphrase. */
  ghost predicate ImportRead(aliasKeys: set<string>, passphrase: string, isPlaceholder: string -> bool, start: World,
                             events: seq<Event>, at: Moments)
  {
    && 1 <= at.n <= |events|
    && StateAfter(start, events[..1]) == at.first && StateAfter(start, events[..at.n]) == at.checked
    && ReadBack(at.checked.store, aliasKeys, events[..at.n], at.reading, isPlaceholder)
    && (Clear(WithKeys(at.reading.side, at.first.keys, aliasKeys, isPlaceholder), passphrase) ==>
          Encrypted(passphrase, at.stored) in events)
  }

  /** What one import did. */
  ghost predicate ImportSpec(keyPath: string, aliasKeys: set<string>, passphrase: string,
                             before: (string, string) -> bool,
                             isPlaceholder: string -> bool, start: World, events: seq<Event>, at: Moments,
                             result: ImportResult, after: World, full: bool)
  {
    && ImportRead(aliasKeys, passphrase, isPlaceholder, start, events, at)
    && at.n <= at.m <= |events| && EffectAt(start, events, at.m, at.seen, after)
    && result == ImportAnswer(WithKeys(at.reading.side, at.first.keys, aliasKeys, isPlaceholder), passphrase, at.stored,
                              Fingerprint(at.first.keys, aliasKeys, before)
                              == Fingerprint(at.seen.keys, aliasKeys, before),
                              at.accepted || !Refers(at.seen.keys, aliasKeys))
    && if Wrote(result) then
         && after.store == (if full then at.seen.store
                            else Some(Written(at.seen.store, keyPath, at.stored.value, aliasKeys)))
         && after.keys == Remembered(at.seen.keys, aliasKeys, passphrase)
       else at.m == |events|
  }

  lemma RefusalsWriteNothing(keyPath: string, aliasKeys: set<string>, passphrase: string,
                             before: (string, string) -> bool, isPlaceholder: string -> bool, start: World,
                             events: seq<Event>, at: Moments, result: ImportResult, after: World, full: bool)
    requires ImportSpec(keyPath, aliasKeys, passphrase, before, isPlaceholder, start, events, at, result, after, full)
    requires !Wrote(result)
    ensures NoOwn(events) && after == at.seen
  {
    assert events[..|events|] == events;
  }

  /** Something remembered for the file could not be read: the attempts, an answer, or a key with a placeholder. */
  ghost predicate CannotRead(keys: seq<SshKey>, aliasKeys: set<string>, reading: Reading,
                             isPlaceholder: string -> bool)
  {
    || |reading.retried| == 3
    || (exists e :: e in reading.last && e.Decrypted? && (e.answer.Rejected? || e.answer.text == "" ||
                                                          isPlaceholder(e.answer.text)))
    || (exists k :: k in keys && k.IsReferenceTo(aliasKeys) && k.passphrase.Some? && k.passphrase.value != "" &&
                    isPlaceholder(k.passphrase.value))
  }

  /** A different passphrase is remembered for the file, in the store or by a key. */
  ghost predicate RemembersOther(keys: seq<SshKey>, aliasKeys: set<string>, reading: Reading, passphrase: string,
                                 isPlaceholder: string -> bool)
  {
    || (exists e :: e in reading.last && e.Decrypted? && e.answer.Text? && e.answer.text != "" &&
                    !isPlaceholder(e.answer.text) && e.answer.text != passphrase)
    || (exists k :: k in keys && k.IsReferenceTo(aliasKeys) && k.passphrase.Some? && k.passphrase.value != "" &&
                    !isPlaceholder(k.passphrase.value) && k.passphrase.value != passphrase)
  }

  lemma ReadMeans(store: Option<Store>, keys: seq<SshKey>, aliasKeys: set<string>, events: seq<Event>,
                  reading: Reading, passphrase: string, isPlaceholder: string -> bool)
    requires ReadBack(store, aliasKeys, events, reading, isPlaceholder)
    ensures var read := WithKeys(reading.side, keys, aliasKeys, isPlaceholder);
            && (read.unreadable <==> CannotRead(keys, aliasKeys, reading, isPlaceholder))
            && (!read.unreadable ==>
                  ((exists v :: v in read.values && v != passphrase) <==>
                     RemembersOther(keys, aliasKeys, reading, passphrase, isPlaceholder)))
  {
    var read := WithKeys(reading.side, keys, aliasKeys, isPlaceholder);
    assert forall e :: e in Asked(reading.last) <==> e in reading.last && e.Decrypted?;
    if !reading.exhausted {
      forall e | e in reading.last && e.Decrypted? && Readable(e.answer, isPlaceholder)
        ensures e.answer.text in read.values
      {
        assert e in Asked(reading.last);
      }
      forall k | k in keys && Holds(k, aliasKeys) && !isPlaceholder(k.passphrase.value)
        ensures k.passphrase.value in read.values
      {
      }
      forall v | v in read.values && v != passphrase
        ensures RemembersOther(keys, aliasKeys, reading, passphrase, isPlaceholder)
      {
        if v in reading.side.values {
          var e :| e in Asked(reading.last) && Readable(e.answer, isPlaceholder) && e.answer.text == v;
          assert e in reading.last;
        } else {
          var k :| k in keys && Holds(k, aliasKeys) && !isPlaceholder(k.passphrase.value) && k.passphrase.value == v;
          assert k in keys;
        }
      }
    }
  }

  /** The cause of each answer, in the order in which they are looked at. */
  lemma EveryAnswerHasItsCause(keyPath: string, aliasKeys: set<string>, passphrase: string,
                               before: (string, string) -> bool, isPlaceholder: string -> bool, start: World,
                               events: seq<Event>, at: Moments, result: ImportResult, after: World, full: bool)
    requires ImportSpec(keyPath, aliasKeys, passphrase, before, isPlaceholder, start, events, at, result, after, full)
    ensures var unread := CannotRead(at.first.keys, aliasKeys, at.reading, isPlaceholder);
            var other := RemembersOther(at.first.keys, aliasKeys, at.reading, passphrase, isPlaceholder);
            var same := Fingerprint(at.first.keys, aliasKeys, before) == Fingerprint(at.seen.keys, aliasKeys, before);
            && (result.Unreadable? <==> unread)
            && (result.Conflict? <==> !unread && (other || (at.stored.Some? && !same)))
            && (result.Failed? <==> !unread && !other && at.stored.None?)
            && (Wrote(result) <==> !unread && !other && at.stored.Some? && same)
            && (result.KeysNotKept? ==> !at.accepted && Refers(at.seen.keys, aliasKeys))
            && (result.Saved? ==> at.accepted || !Refers(at.seen.keys, aliasKeys))
  {
    ReadMeans(at.checked.store, at.first.keys, aliasKeys, events[..at.n], at.reading, passphrase, isPlaceholder);
  }

  lemma AgreesWhenClear(store: Option<Store>, aliasKeys: set<string>, events: seq<Event>, reading: Reading,
                        passphrase: string, isPlaceholder: string -> bool)
    requires ReadBack(store, aliasKeys, events, reading, isPlaceholder) && Clear(reading.side, passphrase)
    ensures StoreAgrees(store, aliasKeys, events, passphrase)
  {
    var last := reading.last;
    forall c | c in Matching(store, aliasKeys).Values ensures Decrypted(c, Text(passphrase)) in Asked(events) {
      assert c in Ciphers(Asked(last));
      var e :| e in Asked(last) && e.cipher == c;
      assert Readable(e.answer, isPlaceholder);
      assert e.answer.text in reading.side.values;
      assert e in events;
    }
  }

  /** An import that writes: the whole store agreed when it was read, and the matching keys agree at the final step. */
  lemma SavedMeansAgreement(keyPath: string, aliasKeys: set<string>, passphrase: string,
                            before: (string, string) -> bool, isPlaceholder: string -> bool, start: World,
                            events: seq<Event>, at: Moments, result: ImportResult, after: World, full: bool)
    requires ImportSpec(keyPath, aliasKeys, passphrase, before, isPlaceholder, start, events, at, result, after, full)
    requires Wrote(result)
    ensures StoreAgrees(at.checked.store, aliasKeys, events[..at.n], passphrase)
    ensures KeysAgree(at.first.keys, aliasKeys, passphrase) && KeysAgree(at.seen.keys, aliasKeys, passphrase)
  {
    var read := WithKeys(at.reading.side, at.first.keys, aliasKeys, isPlaceholder);
    assert Clear(read, passphrase);
    AgreesWhenClear(at.checked.store, aliasKeys, events[..at.n], at.reading, passphrase, isPlaceholder);
    forall k | k in at.first.keys && k.IsReferenceTo(aliasKeys) && k.passphrase.GetOr("") != ""
      ensures k.passphrase == Some(passphrase)
    {
      assert Holds(k, aliasKeys);
      assert !isPlaceholder(k.passphrase.value);
      assert k.passphrase.value in read.values;
    }
    SameFingerprintAgrees(at.first.keys, at.seen.keys, aliasKeys, before, passphrase);
  }

  /** Reading and encryption (lines 502-506): whether the import may go on, and with which cipher. */
  method CheckImport(storage: PassphraseStorage, keyPath: string, passphrase: string, currentKeys: seq<SshKey>,
                     home: Option<string>)
    returns (refused: Option<ImportResult>, stored: Option<string>, ghost events: seq<Event>, ghost n: nat,
             ghost checked: World, ghost reading: Reading)
    modifies storage
    ensures storage.log == old(storage.log) + events
    ensures NoOwn(events) && StateAfter(old(storage.Now()), events) == storage.Now()
    ensures n <= |events| && StateAfter(old(storage.Now()), events[..n]) == checked
    ensures ReadBack(checked.store, KeyPaths.AliasKeys(keyPath, home), events[..n], reading, storage.isPlaceholder)
    ensures var read := WithKeys(reading.side, currentKeys, KeyPaths.AliasKeys(keyPath, home), storage.isPlaceholder);
            && (Clear(read, passphrase) ==> Encrypted(passphrase, stored) in events)
            && match refused
               case None => Clear(read, passphrase) && stored.Some?
               case Some(result) =>
                 !Wrote(result) &&
                 forall same, kept :: result == ImportAnswer(read, passphrase, stored, same, kept)
  {
    ghost var start := storage.Now();
    stored := None;
    var existing, mine, back := ReadRemembered(storage, keyPath, currentKeys, home);
    events, n, checked, reading := mine, |mine|, storage.Now(), back;
    assert events[..n] == mine;
    if existing.unreadable {
      refused := Some(Unreadable);
      return;
    }
    if exists v :: v in existing.values && v != passphrase {
      refused := Some(Conflict);
      return;
    }
    var cipher, more := storage.Encrypt(passphrase);
    stored, events := cipher, mine + more;
    StateAfterConcat(start, mine, more);
    Reassociate(old(storage.log), mine, more);
    assert storage.log == old(storage.log) + events;
    assert events[..n] == mine;
    refused := if stored.None? then Some(Failed) else None;
  }

  /** The synchronous end of an accepted import (lines 511-525). */
  method CommitImport(storage: PassphraseStorage, keyPath: string, passphrase: string, cipher: string,
                      aliasKeys: set<string>)
    returns (ghost wrote: seq<Event>)
    requires KeyPaths.PathKey(keyPath) in aliasKeys
    modifies storage`slot, storage`keys, storage`log
    ensures storage.log == old(storage.log) + wrote && AllOwn(wrote)
    ensures if wrote == [] then storage.Now() == old(storage.Now()) else wrote[|wrote| - 1].after == storage.Now()
    ensures storage.slot == if storage.full then old(storage.slot)
                            else Some(Written(old(storage.slot), keyPath, cipher, aliasKeys))
    ensures !storage.full ==>
              && keyPath in storage.slot.value && storage.slot.value[keyPath] == cipher
              && SameOutside(old(storage.slot), storage.slot, keyPath, aliasKeys)
    ensures storage.keys == Remembered(old(storage.keys), aliasKeys, passphrase)
    ensures |storage.keys| == |old(storage.keys)|
    ensures forall i :: 0 <= i < |storage.keys| ==>
              var key := old(storage.keys)[i];
              storage.keys[i] == if key.source == "reference" && key.filePath != ""
                                    && KeyPaths.PathKey(key.filePath) in aliasKeys
                                 then key.(passphrase := Some(passphrase), savePassphrase := Some(true)) else key
  {
    wrote := storage.WriteUnlocked(keyPath, cipher, aliasKeys);
    if Refers(storage.keys, aliasKeys) {
      storage.SetKeys(Remembered(storage.keys, aliasKeys, passphrase));
      wrote := wrote + [Own(storage.Now())];
    } else {
      assert Remembered(storage.keys, aliasKeys, passphrase) == storage.keys;
    }
  }

  lemma Recorded(aliasKeys: set<string>, passphrase: string, isPlaceholder: string -> bool, start: World,
                 more: seq<Event>, k: nat, back: Reading, at: Moments)
    requires NoOwn(more) && StateAfter(at.first, more) == at.seen
    requires k <= |more| && StateAfter(at.first, more[..k]) == at.checked && at.n == 1 + k
    requires ReadBack(at.checked.store, aliasKeys, more[..k], back, isPlaceholder)
    requires at.reading == Later([Others(at.first)], back)
    requires Clear(WithKeys(back.side, at.first.keys, aliasKeys, isPlaceholder), passphrase) ==>
               Encrypted(passphrase, at.stored) in more
    ensures var mine := [Others(at.first)] + more;
            && NoOwn(mine) && StateAfter(start, mine) == at.seen
            && ImportRead(aliasKeys, passphrase, isPlaceholder, start, mine, at)
  {
    var first := [Others(at.first)];
    var mine := first + more;
    assert mine[..1] == first && mine[..1 + k] == first + more[..k];
    assert StateAfter(start, first) == at.first;
    StateAfterConcat(start, first, more);
    StateAfterConcat(start, first, more[..k]);
    ReadBackLater(at.checked.store, aliasKeys, first, more[..k], back, isPlaceholder);
  }

  lemma Refused(start: World, mine: seq<Event>, now: World)
    requires NoOwn(mine) && StateAfter(start, mine) == now
    ensures EffectAt(start, mine, |mine|, now, now)
  {
    assert mine[..|mine|] == mine && mine[|mine|..] == [];
  }

  lemma ImportTakesEffect(aliasKeys: set<string>, passphrase: string, isPlaceholder: string -> bool, start: World,
                          mine: seq<Event>, wrote: seq<Event>, at: Moments, after: World)
    requires NoOwn(mine) && StateAfter(start, mine) == at.seen
    requires ImportRead(aliasKeys, passphrase, isPlaceholder, start, mine, at)
    requires AllOwn(wrote) && if wrote == [] then after == at.seen else wrote[|wrote| - 1].after == after
    ensures EffectAt(start, mine + wrote, |mine|, at.seen, after)
    ensures ImportRead(aliasKeys, passphrase, isPlaceholder, start, mine + wrote, at)
  {
    var all := mine + wrote;
    assert all[..|mine|] == mine && all[|mine|..] == wrote;
    assert all[..at.n] == mine[..at.n] && all[..1] == mine[..1];
    if wrote == [] { assert all == mine; }
  }

  /** The queued import mutation (lines 498-527). */
  method Import(storage: PassphraseStorage, keyPath: string, passphrase: string, home: Option<string>,
                before: (string, string) -> bool, accepted: bool)
    returns (result: ImportResult, ghost events: seq<Event>, ghost at: Moments)
    modifies storage
    ensures storage.log == old(storage.log) + events
    ensures ImportSpec(keyPath, KeyPaths.AliasKeys(keyPath, home), passphrase, before, storage.isPlaceholder,
                       old(storage.Now()), events, at, result, storage.Now(), storage.full)
  {
    ghost var start := storage.Now();
    storage.AwaitOthers();
    ghost var w1 := storage.Now();
    var aliasKeys := KeyPaths.AliasKeys(keyPath, home);
    var currentKeys := storage.keys;
    var refused, stored, more, k, checked, back := CheckImport(storage, keyPath, passphrase, currentKeys, home);
    ghost var mine := [Others(w1)] + more;
    at := Moments(w1, 1 + k, checked, |mine|, storage.Now(), Later([Others(w1)], back), stored, accepted);
    Reassociate(old(storage.log), [Others(w1)], more);
    assert storage.log == old(storage.log) + mine;
    Recorded(aliasKeys, passphrase, storage.isPlaceholder, start, more, k, back, at);
    events := mine;
    if refused.Some? {
      result := refused.value;
      Refused(start, mine, storage.Now());
      return;
    }
    var latestKeys := storage.keys;
    if Fingerprint(latestKeys, aliasKeys, before) != Fingerprint(currentKeys, aliasKeys, before) {
      result := Conflict;
      Refused(start, mine, storage.Now());
      return;
    }
    ghost var wrote := CommitImport(storage, keyPath, passphrase, stored.value, aliasKeys);
    events := mine + wrote;
    Reassociate(old(storage.log), mine, wrote);
    assert storage.log == old(storage.log) + events;
    ImportTakesEffect(aliasKeys, passphrase, storage.isPlaceholder, start, mine, wrote, at, storage.Now());
    result := if accepted || !Refers(latestKeys, aliasKeys) then Saved else KeysNotKept;
  }

  // ---- Nothing is lost ----

  ghost predicate SubStore(small: Option<Store>, large: Option<Store>) {
    forall p :: p in small.GetOr(map[]) ==>
      p in large.GetOr(map[]) && small.GetOr(map[])[p] == large.GetOr(map[])[p]
  }

  /** Others only remove entries meanwhile. */
  ghost predicate OnlyShrinks(start: World, events: seq<Event>) {
    forall i :: 0 <= i < |events| && events[i].Others? ==>
      SubStore(events[i].after.store, StateAfter(start, events[..i]).store)
  }

  lemma {:induction false} ShrinkingChain(start: World, events: seq<Event>)
    requires NoOwn(events) && OnlyShrinks(start, events)
    ensures SubStore(StateAfter(start, events).store, start.store)
    decreases |events|
  {
    if events != [] {
      var front := events[..|events| - 1];
      forall i | 0 <= i < |front| && front[i].Others?
        ensures SubStore(front[i].after.store, StateAfter(start, front[..i]).store)
      {
        assert front[..i] == events[..i];
      }
      ShrinkingChain(start, front);
    }
  }

  lemma ShrunkUntil(start: World, events: seq<Event>, n: nat, m: nat)
    requires n <= m <= |events| && NoOwn(events[..m])
    requires OnlyShrinks(StateAfter(start, events[..n]), events[n..m])
    ensures SubStore(StateAfter(start, events[..m]).store, StateAfter(start, events[..n]).store)
  {
    assert events[..m] == events[..n] + events[n..m];
    StateAfterConcat(start, events[..n], events[n..m]);
    ShrinkingChain(StateAfter(start, events[..n]), events[n..m]);
  }

  lemma AgreesWhenShrunk(small: Option<Store>, large: Option<Store>, aliasKeys: set<string>, events: seq<Event>,
                         passphrase: string)
    requires SubStore(small, large) && StoreAgrees(large, aliasKeys, events, passphrase)
    ensures StoreAgrees(small, aliasKeys, events, passphrase)
  {
    forall c | c in Matching(small, aliasKeys).Values ensures c in Matching(large, aliasKeys).Values {
      var p :| p in Matching(small, aliasKeys) && Matching(small, aliasKeys)[p] == c;
      assert p in Matching(large, aliasKeys) && Matching(large, aliasKeys)[p] == c;
    }
  }

  lemma OnlyImported(store: Option<Store>, keyPath: string, cipher: string, aliasKeys: set<string>)
    requires KeyPaths.PathKey(keyPath) in aliasKeys
    ensures Matching(Some(Written(store, keyPath, cipher, aliasKeys)), aliasKeys) == map[keyPath := cipher]
  {
  }

  /**
   * When others only remove entries meanwhile, an import that writes drops no different
   * passphrase: each entry it replaced had been decrypted to the imported one. Entries outside the alias keys stay.
   */
  lemma ImportLosesNothing(keyPath: string, aliasKeys: set<string>, passphrase: string,
                           before: (string, string) -> bool, isPlaceholder: string -> bool, start: World,
                           events: seq<Event>, at: Moments, result: ImportResult, after: World, full: bool)
    requires ImportSpec(keyPath, aliasKeys, passphrase, before, isPlaceholder, start, events, at, result, after, full)
    requires Wrote(result)
    requires KeyPaths.PathKey(keyPath) in aliasKeys && OnlyShrinks(at.checked, events[at.n..at.m])
    ensures StoreAgrees(at.seen.store, aliasKeys, events[..at.n], passphrase)
    ensures !full ==> Matching(after.store, aliasKeys) == map[keyPath := at.stored.value]
    ensures !full ==> SameOutside(at.seen.store, after.store, keyPath, aliasKeys)
  {
    SavedMeansAgreement(keyPath, aliasKeys, passphrase, before, isPlaceholder, start, events, at, result, after, full);
    ShrunkUntil(start, events, at.n, at.m);
    AgreesWhenShrunk(at.seen.store, at.checked.store, aliasKeys, events[..at.n], passphrase);
    OnlyImported(at.seen.store, keyPath, at.stored.value, aliasKeys);
  }
}
