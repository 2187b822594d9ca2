/**
 * The SDK model cache (components/AIChatSidePanelHelpers.ts:205-290): an insertion-ordered map with a
 * time-to-live and a size bound, one load in flight per key, and degraded loads that keep the older list.
 * Model lists are arrays, so that sharing with the stored entry is visible.
 */
module ModelCache {
  import opened Prelude

  datatype Model = Model(id: string, name: string)

  datatype Catalog = Catalog(
    currentModelId: Option<string>,
    models: array<Model>,
    warning: Option<string>,
    source: Option<string>,
    fetchedAt: Option<string>)

  datatype Entry = Entry(catalog: Catalog, updatedAt: int)

  datatype Slot = Slot(key: string, entry: Entry)

  /** A running load: its closure captured the entry that was stored when it started. */
  datatype Load = Load(key: string, cached: Option<Entry>, settled: bool)

  datatype Refreshed = Hit(catalog: Catalog) | Joined(load: nat) | Started(load: nat) | LoaderThrew

  /** A load that delivered models at some time. */
  datatype Success = Success(key: string, models: seq<Model>, at: int)

  // ---- Ordered entries ----

  predicate Fresh(entry: Entry, now: int, ttl: int) { now - entry.updatedAt < ttl }

  /** The elements that satisfy `p`, in their order. */
  function Keep(slots: seq<Slot>, p: Slot -> bool): seq<Slot> {
    if slots == [] then []
    else (if p(slots[0]) then [slots[0]] else []) + Keep(slots[1..], p)
  }

  function Live(slots: seq<Slot>, now: int, ttl: int): seq<Slot> {
    Keep(slots, (s: Slot) => Fresh(s.entry, now, ttl))
  }

  function Newest(slots: seq<Slot>, max: nat): seq<Slot> {
    if |slots| <= max then slots else slots[|slots| - max..]
  }

  function Without(slots: seq<Slot>, key: string): seq<Slot> {
    Keep(slots, (s: Slot) => s.key != key)
  }

  function Lookup(slots: seq<Slot>, key: string): Option<Entry> {
    if slots == [] then None
    else if slots[0].key == key then Some(slots[0].entry)
    else Lookup(slots[1..], key)
  }

  // ---- Recency ----

  /** The position of the last touch of `key`, or -1. */
  function LastTouch(touches: seq<string>, key: string): (r: int)
    ensures -1 <= r < |touches|
    ensures r >= 0 ==> touches[r] == key
    ensures forall i :: r < i < |touches| ==> touches[i] != key
  {
    if touches == [] then -1
    else if touches[|touches| - 1] == key then |touches| - 1
    else LastTouch(touches[..|touches| - 1], key)
  }

  /** Reading the entries from oldest to newest gives their keys in the order of their last touches. */
  ghost predicate InRecencyOrder(slots: seq<Slot>, touches: seq<string>) {
    && (forall i :: 0 <= i < |slots| ==> LastTouch(touches, slots[i].key) >= 0)
    && (forall i, j :: 0 <= i < j < |slots| ==> LastTouch(touches, slots[i].key) < LastTouch(touches, slots[j].key))
  }

  lemma {:induction false} KeepExactly(slots: seq<Slot>, p: Slot -> bool)
    ensures forall i :: 0 <= i < |Keep(slots, p)| ==> Keep(slots, p)[i] in slots && p(Keep(slots, p)[i])
    ensures forall i :: 0 <= i < |slots| && p(slots[i]) ==> slots[i] in Keep(slots, p)
  {
    if slots != [] {
      KeepExactly(slots[1..], p);
      var rest := Keep(slots[1..], p);
      forall i | 0 <= i < |Keep(slots, p)| ensures Keep(slots, p)[i] in slots && p(Keep(slots, p)[i]) {
        var k := if p(slots[0]) then i - 1 else i;
        if k >= 0 {
          assert Keep(slots, p)[i] == rest[k] && rest[k] in slots[1..];
        }
      }
      forall i | 0 <= i < |slots| && p(slots[i]) ensures slots[i] in Keep(slots, p) {
        if i > 0 { assert slots[i] == slots[1..][i - 1]; }
      }
    }
  }

  lemma HeadIsOldest(head: Slot, slots: seq<Slot>, rest: seq<Slot>, touches: seq<string>)
    requires InRecencyOrder([head] + slots, touches) && InRecencyOrder(rest, touches)
    requires forall i :: 0 <= i < |rest| ==> rest[i] in slots
    ensures InRecencyOrder([head] + rest, touches)
  {
    var all := [head] + slots;
    assert all[0] == head;
    forall j | 0 <= j < |rest| ensures LastTouch(touches, head.key) < LastTouch(touches, rest[j].key) {
      assert rest[j] in slots;
      var k :| 0 <= k < |slots| && slots[k] == rest[j];
      assert all[k + 1] == rest[j];
    }
  }

  lemma {:induction false} KeepInOrder(slots: seq<Slot>, p: Slot -> bool, touches: seq<string>)
    requires InRecencyOrder(slots, touches)
    ensures InRecencyOrder(Keep(slots, p), touches)
  {
    if slots != [] {
      KeepInOrder(slots[1..], p, touches);
      var rest := Keep(slots[1..], p);
      if p(slots[0]) {
        KeepExactly(slots[1..], p);
        HeadIsOldest(slots[0], slots[1..], rest, touches);
      } else {
        assert Keep(slots, p) == rest;
      }
    }
  }

  function Pruned(slots: seq<Slot>, now: int, ttl: int, max: nat): seq<Slot> {
    Newest(Live(slots, now, ttl), max)
  }

  lemma LiveSound(slots: seq<Slot>, now: int, ttl: int, touches: seq<string>)
    requires InRecencyOrder(slots, touches)
    ensures InRecencyOrder(Live(slots, now, ttl), touches)
    ensures forall i :: 0 <= i < |Live(slots, now, ttl)| ==>
              Live(slots, now, ttl)[i] in slots && Fresh(Live(slots, now, ttl)[i].entry, now, ttl)
    ensures forall i :: 0 <= i < |slots| && Fresh(slots[i].entry, now, ttl) ==> slots[i] in Live(slots, now, ttl)
  {
    KeepExactly(slots, (s: Slot) => Fresh(s.entry, now, ttl));
    KeepInOrder(slots, (s: Slot) => Fresh(s.entry, now, ttl), touches);
  }

  /** A prune leaves exactly min(max, fresh entries) entries, all of them fresh, in the same order. */
  lemma PruneSound(slots: seq<Slot>, now: int, ttl: int, max: nat, touches: seq<string>)
    requires InRecencyOrder(slots, touches)
    ensures var kept, live := Pruned(slots, now, ttl, max), Live(slots, now, ttl);
            && |kept| == (if |live| <= max then |live| else max) && InRecencyOrder(kept, touches)
            && forall i :: 0 <= i < |kept| ==> kept[i] in slots && Fresh(kept[i].entry, now, ttl)
  {
    LiveSound(slots, now, ttl, touches);
    var kept, live := Pruned(slots, now, ttl, max), Live(slots, now, ttl);
    forall i | 0 <= i < |kept| ensures kept[i] in slots && Fresh(kept[i].entry, now, ttl) {
      assert live[|live| - |kept| + i] == kept[i];
    }
  }

  lemma DroppedIsOlder(live: seq<Slot>, cut: nat, touches: seq<string>, s: Slot, t: Slot)
    requires InRecencyOrder(live, touches) && cut <= |live|
    requires s in live && s !in live[cut..] && t in live[cut..]
    ensures LastTouch(touches, s.key) < LastTouch(touches, t.key)
  {
  }

  /** A fresh entry is evicted only over the bound, and it was touched before every entry that stays. */
  lemma PruneEvictsLeastRecent(slots: seq<Slot>, now: int, ttl: int, max: nat, touches: seq<string>, s: Slot, t: Slot)
    requires InRecencyOrder(slots, touches)
    requires s in slots && Fresh(s.entry, now, ttl) && s !in Pruned(slots, now, ttl, max)
    requires t in Pruned(slots, now, ttl, max)
    ensures |Pruned(slots, now, ttl, max)| == max && LastTouch(touches, s.key) < LastTouch(touches, t.key)
  {
    LiveSound(slots, now, ttl, touches);
    var live := Live(slots, now, ttl);
    assert s in live;
    if |live| > max {
      DroppedIsOlder(live, |live| - max, touches, s, t);
    }
  }

  lemma {:induction false} LookupSound(slots: seq<Slot>, key: string)
    ensures Lookup(slots, key).Some? ==> Slot(key, Lookup(slots, key).value) in slots
    ensures Lookup(slots, key).None? ==> forall i :: 0 <= i < |slots| ==> slots[i].key != key
  {
    if slots != [] && slots[0].key != key {
      LookupSound(slots[1..], key);
      assert Lookup(slots, key).Some? ==> Slot(key, Lookup(slots, key).value) in slots[1..];
      forall i | 0 <= i < |slots| && Lookup(slots, key).None? ensures slots[i].key != key {
        if i > 0 { assert slots[i] == slots[1..][i - 1]; }
      }
    }
  }

  /** Re-inserting a key makes it the most recent and keeps the order of the others. */
  lemma TouchInOrder(slots: seq<Slot>, touches: seq<string>, key: string, entry: Entry)
    requires InRecencyOrder(slots, touches)
    ensures InRecencyOrder(Without(slots, key) + [Slot(key, entry)], touches + [key])
    ensures forall i :: 0 <= i < |Without(slots, key)| ==>
              Without(slots, key)[i] in slots && Without(slots, key)[i].key != key
    ensures forall i :: 0 <= i < |slots| && slots[i].key != key ==> slots[i] in Without(slots, key)
  {
    var rest := Without(slots, key);
    KeepExactly(slots, (s: Slot) => s.key != key);
    KeepInOrder(slots, (s: Slot) => s.key != key, touches);
    assert (touches + [key])[..|touches|] == touches;
  }

  // ---- Catalogs ----

  /** Empty texts are falsy and dropped from copies. */
  function NonEmpty(text: Option<string>): Option<string> { if text == Some("") then None else text }

  function WithIds(models: seq<Model>): seq<Model> {
    if models == [] then []
    else (if models[0].id != "" then [models[0]] else []) + WithIds(models[1..])
  }

  /** The models with an id stay as often as they are there; the others go. */
  lemma {:induction false} WithIdsCounts(models: seq<Model>, m: Model)
    ensures multiset(WithIds(models))[m] == if m.id == "" then 0 else multiset(models)[m]
  {
    if models != [] {
      WithIdsCounts(models[1..], m);
      assert models == [models[0]] + models[1..];
    }
  }

  /** The kept models are those at these positions of the given list, from left to right. */
  ghost predicate FoundAt(kept: seq<Model>, given: seq<Model>, at: seq<nat>) {
    && |at| == |kept|
    && (forall k :: 0 <= k < |at| ==> at[k] < |given| && given[at[k]] == kept[k])
    && (forall j, k :: 0 <= j < k < |at| ==> at[j] < at[k])
  }

  lemma FoundLater(kept: seq<Model>, head: Model, given: seq<Model>, at: seq<nat>) returns (later: seq<nat>)
    requires FoundAt(kept, given, at)
    ensures FoundAt(kept, [head] + given, later) && FoundAt([head] + kept, [head] + given, [0] + later)
  {
    later := seq(|at|, k requires 0 <= k < |at| => at[k] + 1);
  }

  /** They stay in their order. */
  lemma {:induction false} WithIdsInOrder(models: seq<Model>) returns (at: seq<nat>)
    ensures FoundAt(WithIds(models), models, at)
  {
    if models == [] {
      at := [];
    } else {
      var rest := WithIdsInOrder(models[1..]);
      var later := FoundLater(WithIds(models[1..]), models[0], models[1..], rest);
      assert models == [models[0]] + models[1..];
      at := if models[0].id == "" then later else [0] + later;
    }
  }

  /** The list stays as it is exactly if all its models have ids. */
  lemma {:induction false} AllWithIds(models: seq<Model>)
    ensures WithIds(models) == models <==> forall i :: 0 <= i < |models| ==> models[i].id != ""
  {
    if models != [] && models[0].id != "" {
      AllWithIds(models[1..]);
      assert models == [models[0]] + models[1..];
      assert WithIds(models)[1..] == WithIds(models[1..]);
    } else if models != [] {
      WithIdsCounts(models, models[0]);
      assert models[0] in multiset(models);
    }
  }

  /** Nothing is left exactly if no model has an id. */
  lemma NoneWithIds(models: seq<Model>)
    ensures WithIds(models) == [] <==> forall i :: 0 <= i < |models| ==> models[i].id == ""
  {
    if WithIds(models) != [] {
      var m := WithIds(models)[0];
      WithIdsCounts(models, m);
      assert m in multiset(WithIds(models)) && m in multiset(models);
    }
    forall i | 0 <= i < |models| && WithIds(models) == [] ensures models[i].id == "" {
      WithIdsCounts(models, models[i]);
      assert models[i] in multiset(models);
    }
  }

  /** All but the models: empty texts are dropped. */
  ghost predicate SameTexts(copy: Catalog, original: Catalog) {
    && copy.currentModelId == original.currentModelId
    && copy.warning == (if original.warning == Some("") then None else original.warning)
    && copy.source == (if original.source == Some("") then None else original.source)
    && copy.fetchedAt == (if original.fetchedAt == Some("") then None else original.fetchedAt)
  }

  /** What a load delivered, with known sources only. */
  ghost predicate NormalTexts(copy: Catalog, original: Catalog) {
    && copy.currentModelId == original.currentModelId
    && copy.warning == (if original.warning == Some("") then None else original.warning)
    && copy.source == (if original.source in {Some("live"), Some("last-known-good")} then original.source else None)
    && copy.fetchedAt == (if original.fetchedAt == Some("") then None else original.fetchedAt)
  }

  function Copied(catalog: Catalog, models: array<Model>): Catalog {
    Catalog(catalog.currentModelId, models, NonEmpty(catalog.warning), NonEmpty(catalog.source),
            NonEmpty(catalog.fetchedAt))
  }

  /** An older catalog that is kept in spite of a load with this warning, if any. */
  function Retained(older: Catalog, models: array<Model>, warning: Option<string>): Catalog {
    if NonEmpty(warning).None? then Copied(older, models)
    else Copied(older, models).(warning := warning, source := Some("last-known-good"))
  }

  /** A load that delivered no model with an id, and no current model. */
  predicate Degraded(models: seq<Model>, currentModelId: Option<string>) {
    (forall i :: 0 <= i < |models| ==> models[i].id == "") && currentModelId in {None, Some("")}
  }

  method CloneCatalog(catalog: Catalog) returns (copy: Catalog)
    ensures fresh(copy.models) && copy.models[..] == catalog.models[..]
    ensures copy == Copied(catalog, copy.models) && SameTexts(copy, catalog)
  {
    var models := new Model[catalog.models.Length](i requires 0 <= i < catalog.models.Length reads catalog.models =>
      catalog.models[i]);
    copy := Copied(catalog, models);
  }

  method NormalizeCatalog(catalog: Catalog) returns (copy: Catalog)
    ensures fresh(copy.models) && copy.models[..] == WithIds(catalog.models[..])
    ensures NormalTexts(copy, catalog)
    ensures Degraded(catalog.models[..], catalog.currentModelId) <==>
              copy.models.Length == 0 && copy.currentModelId.GetOr("") == ""
  {
    var kept := WithIds(catalog.models[..]);
    var models := new Model[|kept|](i requires 0 <= i < |kept| => kept[i]);
    assert models[..] == kept;
    NoneWithIds(catalog.models[..]);
    copy := Catalog(catalog.currentModelId, models, NonEmpty(catalog.warning),
                    if catalog.source in {Some("live"), Some("last-known-good")} then catalog.source else None,
                    NonEmpty(catalog.fetchedAt));
  }

  // ---- What the cache keeps true ----

  ghost predicate Backed(key: string, entry: Entry, successes: set<Success>, lists: set<array<Model>>)
    reads lists
  {
    && entry.catalog.models in lists
    && Success(key, entry.catalog.models[..], entry.updatedAt) in successes
  }

  /** Every entry, stored or captured by a running load, comes from a load that delivered it at its time. */
  ghost predicate AllBacked(slots: seq<Slot>, loads: map<nat, Load>, successes: set<Success>, lists: set<array<Model>>)
    reads lists
  {
    && (forall i :: 0 <= i < |slots| ==> Backed(slots[i].key, slots[i].entry, successes, lists))
    && (forall id :: id in loads && loads[id].cached.Some? ==>
          Backed(loads[id].key, loads[id].cached.value, successes, lists))
  }

  /** At most one load per key: the in-flight table and the running loads correspond one to one. */
  ghost predicate OneLoadPerKey(inFlight: map<string, nat>, loads: map<nat, Load>, nextLoad: nat) {
    && (forall k :: k in inFlight ==> inFlight[k] in loads && loads[inFlight[k]].key == k)
    && (forall id :: id in loads ==> id < nextLoad && loads[id].key in inFlight && inFlight[loads[id].key] == id)
  }

  /** While a load runs, an entry under its key is the one it captured. */
  ghost predicate CapturedIsCurrent(slots: seq<Slot>, loads: map<nat, Load>) {
    forall id, i :: id in loads && !loads[id].settled && 0 <= i < |slots| && slots[i].key == loads[id].key ==>
      loads[id].cached == Some(slots[i].entry)
  }

  lemma FewerEntries(slots: seq<Slot>, kept: seq<Slot>, loads: map<nat, Load>, successes: set<Success>,
                     lists: set<array<Model>>)
    requires AllBacked(slots, loads, successes, lists) && CapturedIsCurrent(slots, loads)
    requires forall i :: 0 <= i < |kept| ==> kept[i] in slots
    ensures AllBacked(kept, loads, successes, lists) && CapturedIsCurrent(kept, loads)
  {
  }

  lemma PruneKeeps(slots: seq<Slot>, now: int, ttl: int, max: nat, touches: seq<string>, loads: map<nat, Load>,
                   successes: set<Success>, lists: set<array<Model>>)
    requires InRecencyOrder(slots, touches)
    requires AllBacked(slots, loads, successes, lists) && CapturedIsCurrent(slots, loads)
    ensures var kept := Pruned(slots, now, ttl, max);
            && |kept| <= max && InRecencyOrder(kept, touches)
            && AllBacked(kept, loads, successes, lists) && CapturedIsCurrent(kept, loads)
            && forall i :: 0 <= i < |kept| ==> kept[i] in slots && Fresh(kept[i].entry, now, ttl)
  {
    PruneSound(slots, now, ttl, max, touches);
    FewerEntries(slots, Pruned(slots, now, ttl, max), loads, successes, lists);
  }

  lemma OneMoreEntry(slots: seq<Slot>, kept: seq<Slot>, key: string, entry: Entry, loads: map<nat, Load>,
                     successes: set<Success>, lists: set<array<Model>>)
    requires AllBacked(slots, loads, successes, lists) && CapturedIsCurrent(slots, loads)
    requires forall i :: 0 <= i < |kept| ==> kept[i] in slots
    requires Backed(key, entry, successes, lists)
    requires forall id :: id in loads && !loads[id].settled && loads[id].key == key ==> loads[id].cached == Some(entry)
    ensures AllBacked(kept + [Slot(key, entry)], loads, successes, lists)
    ensures CapturedIsCurrent(kept + [Slot(key, entry)], loads)
  {
  }

  lemma {:induction false} WithoutShrinks(slots: seq<Slot>, key: string)
    ensures |Without(slots, key)| <= |slots|
    ensures (exists i :: 0 <= i < |slots| && slots[i].key == key) ==> |Without(slots, key)| < |slots|
  {
    if slots != [] {
      WithoutShrinks(slots[1..], key);
      if exists i :: 0 <= i < |slots| && slots[i].key == key {
        var i :| 0 <= i < |slots| && slots[i].key == key;
        if i > 0 { assert slots[1..][i - 1].key == key; }
      }
    }
  }

  lemma TouchKeeps(slots: seq<Slot>, touches: seq<string>, key: string, entry: Entry, loads: map<nat, Load>,
                   successes: set<Success>, lists: set<array<Model>>)
    requires InRecencyOrder(slots, touches) && AllBacked(slots, loads, successes, lists) &&
             CapturedIsCurrent(slots, loads)
    requires Backed(key, entry, successes, lists)
    requires forall id :: id in loads && !loads[id].settled && loads[id].key == key ==> loads[id].cached == Some(entry)
    ensures var next := Without(slots, key) + [Slot(key, entry)];
            && InRecencyOrder(next, touches + [key]) && AllBacked(next, loads, successes, lists)
            && CapturedIsCurrent(next, loads) && |next| <= |slots| + if Slot(key, entry) in slots then 0 else 1
  {
    TouchInOrder(slots, touches, key, entry);
    OneMoreEntry(slots, Without(slots, key), key, entry, loads, successes, lists);
    WithoutShrinks(slots, key);
  }

  /** No two entries have the same key. */
  lemma KeysAreUnique(slots: seq<Slot>, touches: seq<string>)
    requires InRecencyOrder(slots, touches)
    ensures forall i, j :: 0 <= i < j < |slots| ==> slots[i].key != slots[j].key
  {
    forall i, j | 0 <= i < j < |slots| ensures slots[i].key != slots[j].key {
      assert LastTouch(touches, slots[i].key) < LastTouch(touches, slots[j].key);
    }
  }

  lemma CapturedAtStart(slots: seq<Slot>, touches: seq<string>, key: string, cached: Option<Entry>,
                        loads: map<nat, Load>, id: nat)
    requires InRecencyOrder(slots, touches) && CapturedIsCurrent(slots, loads) && cached == Lookup(slots, key)
    ensures CapturedIsCurrent(slots, loads[id := Load(key, cached, false)])
  {
    LookupSound(slots, key);
    KeysAreUnique(slots, touches);
    if cached.Some? {
      var k :| 0 <= k < |slots| && slots[k] == Slot(key, cached.value);
      assert forall i :: 0 <= i < |slots| && slots[i].key == key ==> i == k;
    }
    var more := loads[id := Load(key, cached, false)];
    forall q, i | q in more && !more[q].settled && 0 <= i < |slots| && slots[i].key == more[q].key
      ensures more[q].cached == Some(slots[i].entry)
    {
      if q != id { assert more[q] == loads[q]; }
    }
  }

  lemma OneMoreLoad(inFlight: map<string, nat>, loads: map<nat, Load>, id: nat, load: Load)
    requires OneLoadPerKey(inFlight, loads, id) && load.key !in inFlight
    ensures id !in loads && OneLoadPerKey(inFlight[load.key := id], loads[id := load], id + 1)
  {
  }

  lemma BackedAtStart(slots: seq<Slot>, loads: map<nat, Load>, successes: set<Success>, lists: set<array<Model>>,
                      id: nat, load: Load)
    requires AllBacked(slots, loads, successes, lists) && load.cached == Lookup(slots, load.key)
    ensures AllBacked(slots, loads[id := load], successes, lists)
  {
  }

  lemma SettledKeeps(slots: seq<Slot>, loads: map<nat, Load>, id: nat, successes: set<Success>,
                     lists: set<array<Model>>)
    requires id in loads && AllBacked(slots, loads, successes, lists) && CapturedIsCurrent(slots, loads)
    ensures var settled := loads[id := loads[id].(settled := true)];
            AllBacked(slots, settled, successes, lists) && CapturedIsCurrent(slots, settled)
  {
  }

  lemma MoreBacking(slots: seq<Slot>, loads: map<nat, Load>, successes: set<Success>, lists: set<array<Model>>,
                    more: set<Success>, moreLists: set<array<Model>>)
    requires AllBacked(slots, loads, successes, lists) && successes <= more && lists <= moreLists
    ensures AllBacked(slots, loads, more, moreLists)
  {
  }

  lemma {:induction false} KeepLast(slots: seq<Slot>, last: Slot, p: Slot -> bool)
    ensures Keep(slots + [last], p) == Keep(slots, p) + if p(last) then [last] else []
  {
    if slots == [] {
      assert slots + [last] == [last];
    } else {
      KeepLast(slots[1..], last, p);
      assert (slots + [last])[1..] == slots[1..] + [last];
    }
  }

  /** The entry a load has just stored survives the prune that follows exactly when it is still fresh. */
  lemma JustSettled(slots: seq<Slot>, key: string, entry: Entry, now: int, ttl: int, max: nat)
    requires max >= 1
    ensures Slot(key, entry) in Pruned(Without(slots, key) + [Slot(key, entry)], now, ttl, max) <==>
            Fresh(entry, now, ttl)
  {
    var all := Without(slots, key) + [Slot(key, entry)];
    var isFresh := (s: Slot) => Fresh(s.entry, now, ttl);
    KeepLast(Without(slots, key), Slot(key, entry), isFresh);
    KeepExactly(all, isFresh);
    var live := Live(all, now, ttl);
    if Fresh(entry, now, ttl) {
      assert live[|live| - 1] == Slot(key, entry);
      var kept := Newest(live, max);
      assert kept[|kept| - 1] == Slot(key, entry);
    } else {
      assert Slot(key, entry) !in live;
    }
  }

  lemma FreshStep(slots: seq<Slot>, i: nat, now: int, ttl: int)
    requires i < |slots| && Fresh(slots[i].entry, now, ttl)
    ensures slots[..i + 1] + Live(slots[i + 1..], now, ttl) == slots[..i] + Live(slots[i..], now, ttl)
  {
    assert slots[i..] == [slots[i]] + slots[i + 1..];
    assert slots[..i + 1] == slots[..i] + [slots[i]];
  }

  lemma StaleStep(slots: seq<Slot>, i: nat, now: int, ttl: int)
    requires i < |slots| && !Fresh(slots[i].entry, now, ttl)
    ensures var next := slots[..i] + slots[i + 1..];
            next[..i] + Live(next[i..], now, ttl) == slots[..i] + Live(slots[i..], now, ttl)
  {
    var next := slots[..i] + slots[i + 1..];
    assert next[..i] == slots[..i] && next[i..] == slots[i + 1..];
    assert slots[i..] == [slots[i]] + slots[i + 1..];
  }

  class Cache {
    const ttl: int
    const max: nat
    var entries: seq<Slot>
    var inFlight: map<string, nat>
    var loads: map<nat, Load>
    var nextLoad: nat
    /** Every touch so far, every load that delivered, and every list the cache may hold. */
    ghost var touches: seq<string>
    ghost var successes: set<Success>
    ghost var Repr: set<array<Model>>

    ghost predicate Valid()
      reads this, Repr
    {
      && max >= 1 && InRecencyOrder(entries, touches) && OneLoadPerKey(inFlight, loads, nextLoad)
      && AllBacked(entries, loads, successes, Repr) && CapturedIsCurrent(entries, loads)
    }

    constructor (ttl: int, maxEntries: int)
      ensures Valid() && fresh(Repr) && entries == [] && loads == map[] && successes == {}
      ensures this.ttl == ttl && max == if maxEntries < 1 then 1 else maxEntries
    {
      this.ttl, max := ttl, if maxEntries < 1 then 1 else maxEntries;
      entries, inFlight, loads, nextLoad := [], map[], map[], 0;
      touches, successes, Repr := [], {}, {};
    }

    method DropExpired(now: int)
      modifies `entries
      ensures entries == Live(old(entries), now, ttl)
    {
      var i := 0;
      while i < |entries|
        invariant 0 <= i <= |entries|
        invariant entries[..i] + Live(entries[i..], now, ttl) == Live(old(entries), now, ttl)
        decreases |entries| - i
      {
        if now - entries[i].entry.updatedAt >= ttl {
          StaleStep(entries, i, now, ttl);
          entries := entries[..i] + entries[i + 1..];
        } else {
          FreshStep(entries, i, now, ttl);
          i := i + 1;
        }
      }
    }

    method DropSurplus()
      modifies `entries
      ensures entries == Newest(old(entries), max)
    {
      while |entries| > max
        invariant |entries| <= |old(entries)| && entries == old(entries)[|old(entries)| - |entries|..]
        invariant |entries| >= max || entries == old(entries)
      {
        entries := entries[1..];
      }
    }

    /** Lines 212-224: the expired entries first, then the oldest over the bound. */
    method DropStale(now: int)
      modifies `entries
      ensures entries == Pruned(old(entries), now, ttl, max)
    {
      DropExpired(now);
      DropSurplus();
    }

    /** Every operation starts here. */
    method Prune(now: int)
      requires Valid()
      modifies `entries
      ensures Valid() && entries == Pruned(old(entries), now, ttl, max) && |entries| <= max
      ensures forall i :: 0 <= i < |entries| ==> entries[i] in old(entries) && Fresh(entries[i].entry, now, ttl)
    {
      PruneKeeps(entries, now, ttl, max, touches, loads, successes, Repr);
      DropStale(now);
    }

    /** Lines 226-229. */
    method Touch(key: string, entry: Entry)
      requires Valid() && Backed(key, entry, successes, Repr)
      requires forall id :: id in loads && !loads[id].settled && loads[id].key == key ==>
               loads[id].cached == Some(entry)
      modifies `entries, `touches
      ensures Valid()
      ensures entries == Without(old(entries), key) + [Slot(key, entry)] && touches == old(touches) + [key]
      ensures |entries| <= |old(entries)| + if Slot(key, entry) in old(entries) then 0 else 1
    {
      TouchKeeps(entries, touches, key, entry, loads, successes, Repr);
      entries := Without(entries, key);
      entries := entries + [Slot(key, entry)];
      touches := touches + [key];
    }

    /** A stored entry is touched and copied out: the hit branch of read and of refresh. */
    method Serve(key: string, entry: Entry) returns (copy: Catalog)
      requires Valid() && |entries| <= max && Slot(key, entry) in entries
      modifies `entries, `touches
      ensures Valid() && |entries| <= max
      ensures entries == Without(old(entries), key) + [Slot(key, entry)] && touches == old(touches) + [key]
      ensures fresh(copy.models) && copy.models[..] == entry.catalog.models[..] && SameTexts(copy, entry.catalog)
      ensures Success(key, copy.models[..], entry.updatedAt) in successes
    {
      assert Backed(key, entry, successes, Repr);
      Touch(key, entry);
      copy := CloneCatalog(entry.catalog);
    }

    /** Lines 232-237. */
    method Read(key: string, now: int) returns (result: Option<Entry>)
      requires Valid()
      modifies `entries, `touches
      ensures Valid() && |entries| <= max
      ensures var kept := Pruned(old(entries), now, ttl, max);
              var found := Lookup(kept, key);
              if found.None? then result.None? && entries == kept && touches == old(touches)
              else && result.Some? && fresh(result.value.catalog.models)
                   && result.value.catalog.models[..] == found.value.catalog.models[..]
                   && result.value.updatedAt == found.value.updatedAt
                   && SameTexts(result.value.catalog, found.value.catalog)
                   && entries == Without(kept, key) + [Slot(key, found.value)] && touches == old(touches) + [key]
      ensures result.Some? ==>
                && now - result.value.updatedAt < ttl
                && Success(key, result.value.catalog.models[..], result.value.updatedAt) in successes
    {
      Prune(now);
      var entry := Lookup(entries, key);
      LookupSound(entries, key);
      if entry.Some? {
        var copy := Serve(key, entry.value);
        result := Some(Entry(copy, entry.value.updatedAt));
      } else {
        result := None;
      }
    }

    /** Lines 238-241. */
    method Size(now: int) returns (size: nat)
      requires Valid()
      modifies `entries
      ensures Valid() && entries == Pruned(old(entries), now, ttl, max) && size == |entries| <= max
    {
      Prune(now);
      size := |entries|;
    }

    method StartLoad(key: string, cached: Option<Entry>) returns (id: nat)
      requires Valid() && key !in inFlight && cached == Lookup(entries, key)
      modifies `inFlight, `loads, `nextLoad
      ensures Valid() && id !in old(loads) && loads == old(loads)[id := Load(key, cached, false)]
      ensures inFlight == old(inFlight)[key := id]
    {
      id := nextLoad;
      CapturedAtStart(entries, touches, key, cached, loads, id);
      OneMoreLoad(inFlight, loads, id, Load(key, cached, false));
      BackedAtStart(entries, loads, successes, Repr, id, Load(key, cached, false));
      inFlight := inFlight[key := id];
      loads := loads[id := Load(key, cached, false)];
      nextLoad := id + 1;
    }

    /**
     * Lines 242-287 up to the first await; the two clock readings are separate. `loaderStarts` is false when
     * the loader throws before returning a promise.
     */
    method Refresh(key: string, force: bool, loaderStarts: bool, now0: int, now1: int) returns (result: Refreshed)
      requires Valid()
      modifies `entries, `touches, `inFlight, `loads, `nextLoad
      ensures Valid() && |entries| <= max
      ensures var kept := Pruned(old(entries), now0, ttl, max);
              var found := Lookup(kept, key);
              && (result.Hit? <==> !force && found.Some? && Fresh(found.value, now1, ttl))
              && (result.Joined? <==> !result.Hit? && key in old(inFlight))
              && (!result.Hit? ==> entries == kept && touches == old(touches))
              && (!result.Started? ==> loads == old(loads) && inFlight == old(inFlight))
              && match result
                 case Hit(catalog) =>
                   && entries == Without(kept, key) + [Slot(key, found.value)] && touches == old(touches) + [key]
                   && fresh(catalog.models) && catalog.models[..] == found.value.catalog.models[..]
                   && SameTexts(catalog, found.value.catalog)
                   && Success(key, catalog.models[..], found.value.updatedAt) in successes
                 case Joined(id) => id in loads && loads[id].key == key
                 case Started(id) =>
                   && id !in old(loads) && loads == old(loads)[id := Load(key, found, false)]
                   && inFlight == old(inFlight)[key := id]
                 case LoaderThrew => !loaderStarts
    {
      Prune(now0);
      var cached := Lookup(entries, key);
      if !force && cached.Some? && now1 - cached.value.updatedAt < ttl {
        LookupSound(entries, key);
        var copy := Serve(key, cached.value);
        return Hit(copy);
      }
      if key in inFlight {
        return Joined(inFlight[key]);
      }
      if !loaderStarts {
        return LoaderThrew;
      }
      var id := StartLoad(key, cached);
      return Started(id);
    }

    /** Lines 264-274: a load without models hands back what was captured and stores only its warning. */
    method KeepOlder(id: nat, normalized: Catalog, ghost given: Catalog) returns (value: Catalog)
      requires Valid() && id in loads && loads[id].settled && NormalTexts(normalized, given)
      modifies `entries, `touches, `Repr
      ensures Valid() && fresh(value.models)
      ensures var load := loads[id];
              match load.cached
              case None =>
                && NormalTexts(value, given) && value.models[..] == normalized.models[..]
                && entries == old(entries)
              case Some(cached) =>
                && value == Retained(cached.catalog, value.models, normalized.warning)
                && value.models[..] == cached.catalog.models[..]
                && entries == if NonEmpty(normalized.warning).None? then old(entries)
                              else Without(old(entries), load.key) + [Slot(load.key, Entry(value, cached.updatedAt))]
    {
      var load := loads[id];
      if load.cached.None? {
        value := CloneCatalog(normalized);
        return;
      }
      var cached := load.cached.value;
      assert Backed(load.key, cached, successes, Repr);
      value := CloneCatalog(cached.catalog);
      if NonEmpty(normalized.warning).Some? {
        value := value.(warning := normalized.warning, source := Some("last-known-good"));
        MoreBacking(entries, loads, successes, Repr, successes, Repr + {value.models});
        Repr := Repr + {value.models};
        Touch(load.key, Entry(value, cached.updatedAt));
      }
    }

    /** Lines 276-278: a load with models is stored as the newest entry, pruned, and copied out. */
    method StoreLoaded(key: string, normalized: Catalog, now0: int, now1: int, ghost given: Catalog)
      returns (value: Catalog, ghost stored: Entry)
      requires NormalTexts(normalized, given)
      requires Valid() && forall id :: id in loads && loads[id].key == key ==> loads[id].settled
      modifies `entries, `touches, `Repr, `successes
      ensures Valid() && fresh(value.models) && fresh(stored.catalog.models)
      ensures stored.catalog.models != value.models && stored.updatedAt == now0
      ensures stored.catalog.models[..] == value.models[..] == normalized.models[..]
      ensures NormalTexts(stored.catalog, given) && NormalTexts(value, given)
      ensures successes == old(successes) + {Success(key, value.models[..], now0)}
      ensures entries == Pruned(Without(old(entries), key) + [Slot(key, stored)], now1, ttl, max) && |entries| <= max
      ensures Slot(key, stored) in entries <==> now1 - now0 < ttl
    {
      var kept := CloneCatalog(normalized);
      var entry := Entry(kept, now0);
      stored := entry;
      ghost var success := Success(key, kept.models[..], now0);
      MoreBacking(entries, loads, successes, Repr, successes + {success}, Repr + {kept.models});
      successes, Repr := successes + {success}, Repr + {kept.models};
      JustSettled(entries, key, entry, now1, ttl, max);
      Touch(key, entry);
      Prune(now1);
      value := CloneCatalog(normalized);
    }

    method MarkSettled(id: nat)
      requires Valid() && id in loads
      modifies `loads
      ensures Valid() && loads == old(loads)[id := old(loads)[id].(settled := true)]
      ensures forall other :: other in loads && loads[other].key == loads[id].key ==> loads[other].settled
    {
      SettledKeeps(entries, loads, id, successes, Repr);
      loads := loads[id := loads[id].(settled := true)];
    }

    /** Lines 262-279: the load settles; None is a rejection. `stored` is the entry a successful load leaves. */
    method Resolve(id: nat, outcome: Option<Catalog>, now0: int, now1: int)
      returns (value: Option<Catalog>, ghost stored: Option<Entry>)
      requires Valid() && id in loads && !loads[id].settled
      modifies `loads, `entries, `touches, `successes, `Repr
      ensures Valid() && loads == old(loads)[id := old(loads)[id].(settled := true)]
      ensures value.Some? <==> outcome.Some?
      ensures value.Some? ==> fresh(value.value.models)
      ensures outcome.None? ==> entries == old(entries) && successes == old(successes)
      ensures outcome.Some? ==>
                (stored.None? <==> Degraded(old(outcome.value.models[..]), outcome.value.currentModelId))
      ensures outcome.Some? && stored.None? ==>
                && successes == old(successes)
                && match old(loads)[id].cached
                   case None =>
                     && entries == old(entries) && value.value.models[..] == []
                     && NormalTexts(value.value, outcome.value)
                   case Some(cached) =>
                     && value.value == Retained(cached.catalog, value.value.models, NonEmpty(outcome.value.warning))
                     && value.value.models[..] == cached.catalog.models[..]
                     && entries == if NonEmpty(outcome.value.warning).None? then old(entries)
                                   else Without(old(entries), old(loads)[id].key)
                                        + [Slot(old(loads)[id].key, Entry(value.value, cached.updatedAt))]
      ensures outcome.Some? && stored.Some? ==>
                var key := old(loads)[id].key;
                && value.value.models[..] == WithIds(old(outcome.value.models[..])) == stored.value.catalog.models[..]
                && NormalTexts(value.value, outcome.value) && NormalTexts(stored.value.catalog, outcome.value)
                && fresh(stored.value.catalog.models) && stored.value.catalog.models != value.value.models
                && stored.value.updatedAt == now0
                && successes == old(successes) + {Success(key, value.value.models[..], now0)}
                && entries == Pruned(Without(old(entries), key) + [Slot(key, stored.value)], now1, ttl, max)
                && |entries| <= max && (Slot(key, stored.value) in entries <==> now1 - now0 < ttl)
    {
      var key := loads[id].key;
      ghost var given := if outcome.Some? then outcome.value.models[..] else [];
      MarkSettled(id);
      stored := None;
      if outcome.None? {
        value := None;
        return;
      }
      var normalized := NormalizeCatalog(outcome.value);
      assert given == old(outcome.value.models[..]) == outcome.value.models[..];
      if normalized.models.Length == 0 && normalized.currentModelId.GetOr("") == "" {
        var older := KeepOlder(id, normalized, outcome.value);
        value := Some(older);
      } else {
        var loaded, entry := StoreLoaded(key, normalized, now0, now1, outcome.value);
        value, stored := Some(loaded), Some(entry);
      }
    }

    /** Lines 280-284: the load's final step frees the key. */
    method Finish(id: nat)
      requires Valid() && id in loads && loads[id].settled
      modifies `inFlight, `loads
      ensures Valid() && loads == old(loads) - {id} && inFlight == old(inFlight) - {old(loads)[id].key}
    {
      var key := loads[id].key;
      if key in inFlight && inFlight[key] == id {
        inFlight := inFlight - {key};
      }
      loads := loads - {id};
    }
  }
}
