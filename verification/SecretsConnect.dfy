/**
 * Store plugin sync secrets, then connect (application/pluginSyncConnectWithSecrets.ts:46-107), over the host's
 * secret store with its stash of overwritten secrets (electron/plugins/secretStore.cjs:82-160), whose batch calls
 * skip the keys that fail (electron/plugins/pluginBridge.cjs:1284-1301, 1327-1345).
 */
module SecretsConnect {
  import opened Prelude

  datatype Secret = Secret(value: string, ref: nat)

  /** What the host answers: the new reference, and whether the key was new. */
  datatype Reference = Reference(key: string, ref: nat)

  datatype Input = Input(key: string, value: string)

  // ---- The host ----

  /** The secrets, with what is stashed for the keys written back, except for the stuck ones. */
  function Overlay(secrets: map<string, Secret>, stash: map<string, Secret>, keys: seq<string>, stuck: set<string>)
    : map<string, Secret>
  {
    secrets + (map k | k in stash && k in keys && k !in stuck :: stash[k])
  }

  function Loosened(keys: seq<string>, stuck: set<string>): set<string> { set k | k in keys && k !in stuck }

  lemma LoosenedStep(keys: seq<string>, stuck: set<string>, i: nat)
    requires i < |keys|
    ensures Loosened(keys[..i + 1], stuck) == Loosened(keys[..i], stuck) + if keys[i] in stuck then {} else {keys[i]}
  {
    assert keys[..i + 1] == keys[..i] + [keys[i]];
  }

  lemma OverlayStep(secrets: map<string, Secret>, stash: map<string, Secret>, keys: seq<string>, stuck: set<string>,
                    i: nat)
    requires i < |keys|
    ensures var more := Overlay(secrets, stash, keys[..i + 1], stuck);
            if keys[i] in stash - Loosened(keys[..i], stuck) && keys[i] !in stuck then
              more == Overlay(secrets, stash, keys[..i], stuck)[keys[i] := stash[keys[i]]]
            else more == Overlay(secrets, stash, keys[..i], stuck)
  {
    assert keys[..i + 1] == keys[..i] + [keys[i]];
    assert forall k :: k in keys[..i + 1] <==> k in keys[..i] || k == keys[i];
    var written := map k | k in stash && k in keys[..i] && k !in stuck :: stash[k];
    var more := map k | k in stash && k in keys[..i + 1] && k !in stuck :: stash[k];
    if keys[i] in stash - Loosened(keys[..i], stuck) && keys[i] !in stuck {
      assert more == written[keys[i] := stash[keys[i]]];
    } else {
      assert more == written;
    }
  }

  /** The host as it was when the transaction began. */
  datatype Store = Store(secrets: map<string, Secret>, stash: map<string, Secret>, nextRef: nat, readable: nat -> bool)

  class SecretHost {
    var secrets: map<string, Secret>
    /** The secret each overwritten key held before; an older stash is never replaced. */
    var stash: map<string, Secret>
    var nextRef: nat
    /** Whether the secret stored under a reference can be decrypted, as stashing it takes. */
    const readable: nat -> bool

    /** References are fresh. */
    ghost predicate Valid()
      reads this
    {
      && (forall k :: k in secrets ==> secrets[k].ref < nextRef)
      && (forall k :: k in stash ==> stash[k].ref < nextRef)
    }

    constructor (readable: nat -> bool)
      ensures Valid() && secrets == map[] && stash == map[] && this.readable == readable
    {
      secrets, stash, nextRef, this.readable := map[], map[], 0, readable;
    }

    ghost function Now(): Store
      reads this
    {
      Store(secrets, stash, nextRef, readable)
    }

    /** A rejected put leaves nothing behind. */
    method Put(key: string, value: string, accepts: bool) returns (reference: Option<Reference>, created: bool)
      requires Valid()
      modifies this
      ensures Valid() && created == (key !in old(secrets))
      ensures reference == if accepts then Some(Reference(key, old(nextRef))) else None
      ensures nextRef == old(nextRef) + if accepts then 1 else 0
      ensures secrets == if accepts then old(secrets)[key := Secret(value, old(nextRef))] else old(secrets)
      ensures stash == if accepts && !created && key !in old(stash) && readable(old(secrets)[key].ref)
                       then old(stash)[key := old(secrets)[key]] else old(stash)
    {
      created := key !in secrets;
      if !accepts {
        return None, created;
      }
      if !created && key !in stash && readable(secrets[key].ref) {
        stash := stash[key := secrets[key]];
      }
      reference := Some(Reference(key, nextRef));
      secrets := secrets[key := Secret(value, nextRef)];
      nextRef := nextRef + 1;
    }

    /** Deletes the keys one by one; a key that is stuck keeps its secret, and perhaps its stash. */
    method Delete(keys: seq<string>, stuck: set<string>)
      requires Valid()
      modifies `secrets, `stash
      ensures Valid() && secrets == old(secrets) - Loosened(keys, stuck)
      ensures forall k :: k in stash ==> k in old(stash) && stash[k] == old(stash)[k] && k !in Loosened(keys, stuck)
      ensures forall k :: k in old(stash) && k !in keys ==> k in stash
    {
      for i := 0 to |keys|
        invariant Valid() && secrets == old(secrets) - Loosened(keys[..i], stuck)
        invariant forall k :: k in stash ==>
                    k in old(stash) && stash[k] == old(stash)[k] && k !in Loosened(keys[..i], stuck)
        invariant forall k :: k in old(stash) && k !in keys ==> k in stash
      {
        LoosenedStep(keys, stuck, i);
        var reached: bool := *;
        if reached || keys[i] !in stuck {
          stash := stash - {keys[i]};
        }
        if keys[i] !in stuck {
          secrets := secrets - {keys[i]};
        }
      }
      assert keys[..|keys|] == keys;
    }

    /** Writes back what is stashed for the keys; a key without a stash is skipped, a stuck one keeps its stash. */
    method Restore(keys: seq<string>, stuck: set<string>)
      requires Valid()
      modifies `secrets, `stash
      ensures Valid() && secrets == Overlay(old(secrets), old(stash), keys, stuck)
      ensures stash == old(stash) - Loosened(keys, stuck)
    {
      for i := 0 to |keys|
        invariant Valid() && secrets == Overlay(old(secrets), old(stash), keys[..i], stuck)
        invariant stash == old(stash) - Loosened(keys[..i], stuck)
      {
        OverlayStep(old(secrets), old(stash), keys, stuck, i);
        LoosenedStep(keys, stuck, i);
        if keys[i] in stash && keys[i] !in stuck {
          secrets := secrets[keys[i] := stash[keys[i]]];
          stash := stash - {keys[i]};
        }
      }
      assert keys[..|keys|] == keys;
    }

    method Discard(keys: seq<string>, stuck: set<string>)
      requires Valid()
      modifies `stash
      ensures Valid() && stash == old(stash) - Loosened(keys, stuck)
    {
      for i := 0 to |keys|
        invariant stash == old(stash) - Loosened(keys[..i], stuck)
      {
        LoosenedStep(keys, stuck, i);
        if keys[i] !in stuck {
          stash := stash - {keys[i]};
        }
      }
      assert keys[..|keys|] == keys;
    }
  }

  // ---- Putting the secrets ----

  datatype Progress = Progress(secrets: map<string, Secret>, stash: map<string, Secret>, created: seq<string>,
                               overwritten: seq<string>)

  ghost predicate IsPut(inputs: seq<Input>, n: nat, key: string) {
    exists i :: 0 <= i < n && i < |inputs| && inputs[i].key == key
  }

  /** The value the list gives to a key: the last one. */
  function LastValue(inputs: seq<Input>, key: string): Option<string> {
    if inputs == [] then None
    else if inputs[|inputs| - 1].key == key then Some(inputs[|inputs| - 1].value)
    else LastValue(inputs[..|inputs| - 1], key)
  }

  /** What is stashed for a known key once it was overwritten; nothing is known of one that could not be read. */
  function Stashed(before: Store, k: string): Option<Secret>
    requires k in before.secrets
  {
    if k in before.stash then Some(before.stash[k])
    else if before.readable(before.secrets[k].ref) then Some(before.secrets[k])
    else None
  }

  predicate HoldsStash(before: Store, stash: map<string, Secret>, k: string)
    requires k in before.secrets
  {
    if Stashed(before, k).Some? then k in stash && stash[k] == Stashed(before, k).value
    else k in stash ==> stash[k].ref >= before.nextRef
  }

  /** What is true of one key while the first `n` secrets are put. */
  ghost predicate PutAt(inputs: seq<Input>, n: nat, before: Store, now: Progress, k: string)
    requires n <= |inputs|
  {
    if IsPut(inputs, n, k) then
      && k in now.secrets && Some(now.secrets[k].value) == LastValue(inputs[..n], k)
      && now.secrets[k].ref >= before.nextRef
      && (k in now.created <==> k !in before.secrets)
      && (k in before.secrets ==> k in now.overwritten && HoldsStash(before, now.stash, k))
    else
      && k !in now.created && k !in now.overwritten
      && (k in now.secrets <==> k in before.secrets) && (k in before.secrets ==> now.secrets[k] == before.secrets[k])
      && (k in now.stash <==> k in before.stash) && (k in before.stash ==> now.stash[k] == before.stash[k])
  }

  ghost predicate PutSoFar(inputs: seq<Input>, n: nat, before: Store, now: Progress)
    requires n <= |inputs|
  {
    forall k :: PutAt(inputs, n, before, now, k)
  }

  lemma {:induction false} PutExtends(inputs: seq<Input>, n: nat, key: string)
    requires n < |inputs|
    ensures IsPut(inputs, n + 1, key) <==> IsPut(inputs, n, key) || inputs[n].key == key
    ensures LastValue(inputs[..n + 1], key) ==
              if inputs[n].key == key then Some(inputs[n].value) else LastValue(inputs[..n], key)
  {
    assert inputs[..n + 1][..n] == inputs[..n];
  }

  /** One successful put: a known key is stashed if it can be read, unless it already is. */
  function AfterPut(now: Progress, input: Input, ref: nat, readable: nat -> bool): Progress {
    if input.key !in now.secrets then
      now.(secrets := now.secrets[input.key := Secret(input.value, ref)], created := now.created + [input.key])
    else
      Progress(now.secrets[input.key := Secret(input.value, ref)],
               if input.key in now.stash || !readable(now.secrets[input.key].ref) then now.stash
               else now.stash[input.key := now.secrets[input.key]],
               now.created, now.overwritten + [input.key])
  }

  lemma OneMorePut(inputs: seq<Input>, n: nat, before: Store, now: Progress, ref: nat)
    requires n < |inputs| && PutSoFar(inputs, n, before, now) && ref >= before.nextRef
    ensures PutSoFar(inputs, n + 1, before, AfterPut(now, inputs[n], ref, before.readable))
  {
    var m, after := n + 1, AfterPut(now, inputs[n], ref, before.readable);
    forall k ensures PutAt(inputs, m, before, after, k) {
      PutExtends(inputs, n, k);
      assert PutAt(inputs, n, before, now, k);
    }
  }

  /** What the secrets are after a successful connect. */
  ghost predicate AllStored(inputs: seq<Input>, before: map<string, Secret>, after: map<string, Secret>) {
    && (forall k :: k in after <==> k in before || LastValue(inputs, k).Some?)
    && (forall k :: k in after ==>
          if LastValue(inputs, k).Some? then after[k].value == LastValue(inputs, k).value else after[k] == before[k])
  }

  lemma {:induction false} LastValueIffPut(inputs: seq<Input>, n: nat, k: string)
    requires n <= |inputs|
    ensures LastValue(inputs[..n], k).Some? <==> IsPut(inputs, n, k)
  {
    if n > 0 {
      LastValueIffPut(inputs, n - 1, k);
      PutExtends(inputs, n - 1, k);
    }
  }

  lemma EverythingPut(inputs: seq<Input>, before: Store, now: Progress)
    requires PutSoFar(inputs, |inputs|, before, now)
    ensures AllStored(inputs, before.secrets, now.secrets)
  {
    assert inputs[..|inputs|] == inputs;
    forall k
      ensures k in now.secrets <==> k in before.secrets || LastValue(inputs, k).Some?
      ensures k in now.secrets ==>
                if LastValue(inputs, k).Some? then now.secrets[k].value == LastValue(inputs, k).value
                else now.secrets[k] == before.secrets[k]
    {
      assert PutAt(inputs, |inputs|, before, now, k);
      LastValueIffPut(inputs, |inputs|, k);
    }
  }

  // ---- Rolling back ----

  /**
   * Which put is rejected, if any, whether the connect succeeds, whether the caller passes restoreSecrets, and
   * for which keys deleting, restoring and discarding fail.
   */
  datatype Course = Course(failsAt: Option<nat>, connects: bool, canRestore: bool, undeleted: set<string>,
                           unrestored: set<string>, undiscarded: set<string>)

  /** How many puts come through. */
  function Reached(c: Course, inputs: nat): nat {
    if c.failsAt.Some? && c.failsAt.value < inputs then c.failsAt.value else inputs
  }

  /** The rollback writes back what is stashed for this key. */
  predicate WrittenBack(c: Course, k: string) { c.canRestore && k !in c.unrestored }

  /** A key comes back: a new one if it can be deleted, a known one if it itself is what gets written back. */
  predicate ComesBack(before: Store, c: Course, k: string) {
    if k in before.secrets then WrittenBack(c, k) && Stashed(before, k) == Some(before.secrets[k])
    else k !in c.undeleted
  }

  /** What a rollback after `n` puts leaves of one key. */
  ghost predicate FailedAt(inputs: seq<Input>, n: nat, before: Store, c: Course, secrets: map<string, Secret>,
                           stash: map<string, Secret>, k: string)
    requires n <= |inputs|
  {
    if !IsPut(inputs, n, k) then
      && (k in secrets <==> k in before.secrets) && (k in secrets ==> secrets[k] == before.secrets[k])
      && (k in stash <==> k in before.stash) && (k in stash ==> stash[k] == before.stash[k])
    else if k !in before.secrets then
      (k in secrets <==> k in c.undeleted) && (k !in secrets ==> k !in stash)
    else
      && k in secrets
      && (if WrittenBack(c, k) && Stashed(before, k).Some? then secrets[k] == Stashed(before, k).value
          else secrets[k].ref >= before.nextRef)
      && (if WrittenBack(c, k) then k !in stash
          else Some(secrets[k].value) == LastValue(inputs[..n], k) && HoldsStash(before, stash, k))
  }

  /** What a successful connect leaves stashed: nothing for an overwritten key, unless it cannot be discarded. */
  ghost predicate StashAt(inputs: seq<Input>, before: Store, c: Course, stash: map<string, Secret>, k: string) {
    if !IsPut(inputs, |inputs|, k) then
      (k in stash <==> k in before.stash) && (k in stash ==> stash[k] == before.stash[k])
    else if k in before.secrets then
      if c.canRestore && k !in c.undiscarded then k !in stash else HoldsStash(before, stash, k)
    else true
  }

  /** Deleting what was created and writing back the stash, key by key, repeated keys included. */
  lemma RollbackAt(inputs: seq<Input>, n: nat, before: Store, now: Progress, c: Course, kept: map<string, Secret>,
                   keptStash: map<string, Secret>, k: string)
    requires n <= |inputs| && PutAt(inputs, n, before, now, k)
    requires kept == now.secrets - Loosened(now.created, c.undeleted)
    requires k in keptStash ==>
               k in now.stash && keptStash[k] == now.stash[k] && k !in Loosened(now.created, c.undeleted)
    requires k in now.stash && k !in now.created ==> k in keptStash
    ensures var secrets := if c.canRestore then Overlay(kept, keptStash, now.overwritten, c.unrestored) else kept;
            var stash := if c.canRestore then keptStash - Loosened(now.overwritten, c.unrestored) else keptStash;
            FailedAt(inputs, n, before, c, secrets, stash, k)
  {
  }

  /** All or nothing, exactly: the secrets are the initial ones if and only if every key that was put comes back. */
  lemma AllOrNothing(inputs: seq<Input>, n: nat, before: Store, c: Course, secrets: map<string, Secret>,
                     stash: map<string, Secret>)
    requires n <= |inputs| && forall k :: k in before.secrets ==> before.secrets[k].ref < before.nextRef
    requires forall k :: FailedAt(inputs, n, before, c, secrets, stash, k)
    ensures secrets == before.secrets <==> forall k :: IsPut(inputs, n, k) ==> ComesBack(before, c, k)
  {
    forall k
      ensures (k in secrets <==> k in before.secrets) && (k in secrets ==> secrets[k] == before.secrets[k])
              <==> (IsPut(inputs, n, k) ==> ComesBack(before, c, k))
    {
      assert FailedAt(inputs, n, before, c, secrets, stash, k);
    }
    if forall k :: IsPut(inputs, n, k) ==> ComesBack(before, c, k) {
      assert secrets == before.secrets;
    }
  }

  /** When every key was new, deleting is enough, with or without restoreSecrets. */
  lemma NothingToRestore(inputs: seq<Input>, n: nat, before: Store, c: Course, secrets: map<string, Secret>,
                         stash: map<string, Secret>)
    requires n <= |inputs| && forall k :: k in before.secrets ==> before.secrets[k].ref < before.nextRef
    requires forall k :: FailedAt(inputs, n, before, c, secrets, stash, k)
    requires forall k :: IsPut(inputs, n, k) ==> k !in before.secrets
    ensures secrets == before.secrets <==> forall k :: IsPut(inputs, n, k) ==> k !in c.undeleted
  {
    AllOrNothing(inputs, n, before, c, secrets, stash);
    assert forall k :: IsPut(inputs, n, k) ==> (ComesBack(before, c, k) <==> k !in c.undeleted);
  }

  // ---- The transaction ----

  datatype End = Connected | Failed

  method PutSecrets(host: SecretHost, inputs: seq<Input>, existing: Option<Reference>, c: Course)
    returns (ok: bool, ghost n: nat, created: seq<string>, overwritten: seq<string>, credential: Option<Reference>)
    requires host.Valid()
    modifies host
    ensures host.Valid() && n == Reached(c, |inputs|) && (ok <==> n == |inputs|)
    ensures PutSoFar(inputs, n, old(host.Now()), Progress(host.secrets, host.stash, created, overwritten))
    ensures inputs == [] ==> credential == existing
    ensures n > 0 ==> credential == Some(Reference(inputs[0].key, old(host.nextRef)))
    ensures n > 0 && (forall j :: 0 < j < n ==> inputs[j].key != inputs[0].key) ==>
              inputs[0].key in host.secrets && credential.value.ref == host.secrets[inputs[0].key].ref
  {
    ghost var before := host.Now();
    created, overwritten, ok := [], [], true;
    credential := if |inputs| > 0 then None else existing;
    for i := 0 to |inputs|
      invariant host.Valid() && host.nextRef == old(host.nextRef) + i
      invariant c.failsAt.Some? ==> c.failsAt.value >= i
      invariant PutSoFar(inputs, i, before, Progress(host.secrets, host.stash, created, overwritten))
      invariant i == 0 ==> credential == if inputs == [] then existing else None
      invariant i > 0 ==> credential == Some(Reference(inputs[0].key, old(host.nextRef)))
      invariant i > 0 && (forall j :: 0 < j < i ==> inputs[j].key != inputs[0].key) ==>
                  inputs[0].key in host.secrets && credential.value.ref == host.secrets[inputs[0].key].ref
    {
      ghost var now := Progress(host.secrets, host.stash, created, overwritten);
      var reference, isNew := host.Put(inputs[i].key, inputs[i].value, c.failsAt != Some(i));
      if reference.None? {
        return false, i, created, overwritten, credential;
      }
      OneMorePut(inputs, i, before, now, reference.value.ref);
      if isNew {
        created := created + [inputs[i].key];
      } else {
        overwritten := overwritten + [inputs[i].key];
      }
      if credential.None? {
        credential := reference;
      }
    }
    n := |inputs|;
  }

  /** The catch block: best effort, in this order. */
  method Rollback(host: SecretHost, created: seq<string>, overwritten: seq<string>, c: Course, ghost inputs: seq<Input>,
                  ghost n: nat, ghost before: Store)
    requires host.Valid() && n <= |inputs|
    requires PutSoFar(inputs, n, before, Progress(host.secrets, host.stash, created, overwritten))
    modifies host
    ensures host.Valid()
    ensures forall k :: FailedAt(inputs, n, before, c, host.secrets, host.stash, k)
  {
    ghost var now := Progress(host.secrets, host.stash, created, overwritten);
    if |created| > 0 {
      host.Delete(created, c.undeleted);
    }
    ghost var kept, keptStash := host.secrets, host.stash;
    assert kept == now.secrets - Loosened(created, c.undeleted);
    if |overwritten| > 0 && c.canRestore {
      host.Restore(overwritten, c.unrestored);
    }
    assert host.secrets == if c.canRestore then Overlay(kept, keptStash, overwritten, c.unrestored) else kept;
    assert host.stash == if c.canRestore then keptStash - Loosened(overwritten, c.unrestored) else keptStash;
    forall k ensures FailedAt(inputs, n, before, c, host.secrets, host.stash, k) {
      assert PutAt(inputs, n, before, now, k);
      RollbackAt(inputs, n, before, now, c, kept, keptStash, k);
    }
  }

  /** storePluginSyncSecretsThenConnect; `given` is what connect received. */
  method StoreThenConnect(host: SecretHost, inputs: seq<Input>, existing: Option<Reference>, c: Course)
    returns (end: End, ghost given: Option<Reference>)
    requires host.Valid()
    modifies host
    ensures host.Valid()
    ensures end.Connected? <==> Reached(c, |inputs|) == |inputs| && c.connects
    ensures end.Connected? ==>
              && AllStored(inputs, old(host.secrets), host.secrets)
              && given == (if inputs == [] then existing else Some(Reference(inputs[0].key, old(host.nextRef))))
              && (inputs != [] && (forall j :: 0 < j < |inputs| ==> inputs[j].key != inputs[0].key) ==>
                    inputs[0].key in host.secrets && given.value.ref == host.secrets[inputs[0].key].ref)
    ensures end.Connected? ==> forall k :: StashAt(inputs, old(host.Now()), c, host.stash, k)
    ensures end.Failed? ==>
              forall k :: FailedAt(inputs, Reached(c, |inputs|), old(host.Now()), c, host.secrets, host.stash, k)
    ensures end.Failed? ==>
              (host.secrets == old(host.secrets) <==>
                 forall k :: IsPut(inputs, Reached(c, |inputs|), k) ==> ComesBack(old(host.Now()), c, k))
  {
    ghost var before := host.Now();
    var ok, n, created, overwritten, credential := PutSecrets(host, inputs, existing, c);
    ghost var now := Progress(host.secrets, host.stash, created, overwritten);
    given := credential;
    if ok && c.connects {
      end := Connected;
      EverythingPut(inputs, before, now);
      if |overwritten| > 0 && c.canRestore {
        host.Discard(overwritten, c.undiscarded);
      }
      forall k ensures StashAt(inputs, before, c, host.stash, k) {
        assert PutAt(inputs, |inputs|, before, now, k);
      }
      return;
    }
    Rollback(host, created, overwritten, c, inputs, n, before);
    AllOrNothing(inputs, n, before, c, host.secrets, host.stash);
    end := Failed;
  }

  // ---- How an older stash comes about ----

  /**
   * A failed connect whose restore fails too leaves its stash behind; a retry in which everything but the connect
   * succeeds then writes back the secret from before the first attempt: the retry is not undone.
   */
  method RetryAfterFailedRestore(host: SecretHost, key: string, first: string, second: string)
    returns (ghost original: Secret, ghost beforeRetry: Secret)
    requires host.Valid() && key in host.secrets && key !in host.stash && host.readable(host.secrets[key].ref)
    modifies host
    ensures original == old(host.secrets)[key] && beforeRetry.value == first && beforeRetry != original
    ensures key in host.secrets && host.secrets[key] == original
  {
    original := host.secrets[key];
    ghost var start := host.Now();
    var attempt, retry := [Input(key, first)], [Input(key, second)];
    var stuck, smooth := Course(None, false, true, {}, {key}, {}), Course(None, false, true, {}, {}, {});
    var _, _ := StoreThenConnect(host, attempt, None, stuck);
    assert FailedAt(attempt, Reached(stuck, 1), start, stuck, host.secrets, host.stash, key);
    assert attempt[0].key == key && IsPut(attempt, 1, key) && attempt[..1] == attempt;
    beforeRetry := host.secrets[key];
    ghost var middle := host.Now();
    var _, _ := StoreThenConnect(host, retry, None, smooth);
    assert FailedAt(retry, Reached(smooth, 1), middle, smooth, host.secrets, host.stash, key);
    assert retry[0].key == key && IsPut(retry, 1, key);
  }
}
