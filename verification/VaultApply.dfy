/**
 * Protected apply (application/localVaultBackups.ts:219-246, 349-478): snapshot, protective backup, sentinel,
 * non-atomic writes, sentinel cleared. The backup call also drops the oldest backups beyond the maximum count. A
 * crash may cut the call after any step; it shows as the end Crashed.
 */
module VaultApply {
  import opened Prelude
  import opened Retention

  /** The vault as the storage keys it is spread over. */
  type Vault = map<string, string>

  datatype Write = Put(key: string, value: string) | Remove(key: string)

  datatype Record = Record(startedAt: int, backupId: Option<string>)

  datatype End = Completed | PrepareFailed | SnapshotFailed | BackupFailed | ApplyFailed | Crashed

  /** What the backup host does: it answers with a backup of the snapshot, resolves without one, or fails. */
  datatype HostAnswer = Created(id: string) | Nothing | Failed

  /**
   * What one apply meets: whether preparing and snapshotting succeed, what the backup host does, whether storage
   * keeps the sentinel, which vault write throws, how many backups are kept, which surplus ones cannot be unlinked,
   * and when the window dies. Crash point 0 comes before the backup,
   * 1 before the sentinel, and 2 + i after i vault writes.
   */
  datatype Course = Course(prepares: bool, snapshots: bool, host: HostAnswer, keep: nat, stuck: set<string>,
                           stores: bool, failsAt: Option<nat>, crashAt: Option<nat>)

  /** Nothing goes wrong on this course. */
  predicate IsSmooth(c: Course) {
    c.prepares && c.snapshots && !c.host.Failed? && c.failsAt.None? && c.crashAt.None?
  }

  function IdOf(backup: Option<HostAnswer>): Option<string> {
    match backup
    case Some(Created(id)) => Some(id)
    case _ => None
  }

  /** Every way to end has its cause. */
  predicate HasCause(end: End, c: Course, meaningful: bool, writes: nat) {
    match end
    case Completed =>
      && c.prepares && c.snapshots && !(meaningful && c.host.Failed?)
      && (c.failsAt.Some? ==> c.failsAt.value >= writes) && (c.crashAt.Some? ==> c.crashAt.value > 2 + writes)
    case PrepareFailed => !c.prepares
    case SnapshotFailed => !c.snapshots
    case BackupFailed => meaningful && c.host.Failed?
    case ApplyFailed => c.failsAt.Some? && c.failsAt.value < writes
    case Crashed => c.crashAt.Some? && c.crashAt.value <= 2 + writes
  }

  function ApplyWrites(vault: Vault, writes: seq<Write>): Vault {
    if writes == [] then vault
    else
      var before := ApplyWrites(vault, writes[..|writes| - 1]);
      match writes[|writes| - 1]
      case Put(k, v) => before[k := v]
      case Remove(k) => before - {k}
  }

  ghost predicate NotWritten(writes: seq<Write>, n: nat, key: string) {
    forall i :: n <= i < |writes| ==> writes[i].key != key
  }

  /** A key that is not written keeps what it held. */
  lemma {:induction false} NotWrittenStays(vault: Vault, writes: seq<Write>, key: string)
    requires NotWritten(writes, 0, key)
    ensures var after := ApplyWrites(vault, writes);
            (key in after <==> key in vault) && (key in after ==> after[key] == vault[key])
  {
    if writes != [] {
      NotWrittenStays(vault, writes[..|writes| - 1], key);
      assert writes[|writes| - 1].key != key;
    }
  }

  /** The last write to a key decides what it holds. */
  lemma {:induction false} LastWriteDecides(vault: Vault, writes: seq<Write>, i: nat)
    requires i < |writes| && NotWritten(writes, i + 1, writes[i].key)
    ensures var after := ApplyWrites(vault, writes);
            && (writes[i].key in after <==> writes[i].Put?)
            && (writes[i].Put? ==> after[writes[i].key] == writes[i].value)
  {
    if i < |writes| - 1 {
      LastWriteDecides(vault, writes[..|writes| - 1], i);
      assert writes[|writes| - 1].key != writes[i].key;
    }
  }

  /** readInterruptedVaultApply: a record without a start time does not count. */
  predicate Interrupted(sentinel: Option<Record>) {
    sentinel.Some? && sentinel.value.startedAt != 0
  }

  /** A backup outlives a new one exactly if fewer newer ones than are kept remain before it, or it is stuck. */
  predicate Outlives(order: seq<string>, c: Course, id: string)
    requires id in order
  {
    IndexOf(order, id) + 1 < c.keep || id in c.stuck
  }

  /** The ids are those of the backups, each once, and all given by the host. */
  ghost predicate Listed(order: seq<string>, backups: map<string, Vault>, used: set<string>) {
    Distinct(order) && (forall id :: id in order <==> id in backups) && backups.Keys <= used
  }

  /** The older backups that are still there after a new one, with their contents. */
  ghost predicate KeptOf(order: seq<string>, before: map<string, Vault>, after: map<string, Vault>, c: Course,
                         made: bool) {
    forall id :: id in before && id in order ==>
      && (id in after <==> !made || Outlives(order, c, id))
      && (id in after ==> after[id] == before[id])
  }

  function WithNew(backups: map<string, Vault>, order: seq<string>, id: string, vault: Vault): map<string, Vault> {
    map i | i in backups[id := vault] && i in order :: backups[id := vault][i]
  }

  lemma NewBackup(order: seq<string>, backups: map<string, Vault>, used: set<string>, id: string, vault: Vault,
                  c: Course)
    requires Listed(order, backups, used) && id !in used && c.keep >= 1
    ensures var kept := Prune([id] + order, c.keep, c.stuck);
            var next := WithNew(backups, kept, id, vault);
            && Listed(kept, next, used + {id}) && id in next && next[id] == vault
            && KeptOf(order, backups, next, c, true) && (forall i :: i in next ==> i in backups || i == id)
  {
    NewestStays(order, id, c.keep, c.stuck);
    var kept := Prune([id] + order, c.keep, c.stuck);
    assert id in kept;
    var next := WithNew(backups, kept, id, vault);
    forall i ensures i in kept <==> i in next {
      assert i in kept ==> i == id || i in order;
    }
    assert next.Keys <= used + {id};
  }

  class VaultStore {
    var vault: Vault
    var sentinel: Option<Record>
    var backups: map<string, Vault>
    /** The ids of the backups, newest first. */
    var order: seq<string>
    const meaningful: Vault -> bool
    /** Contents that no interrupted apply left behind: initial, edited, acknowledged, or finished. */
    ghost var wholes: set<Vault>
    /** The snapshot of the apply that wrote the sentinel. */
    ghost var snapshot: Vault
    /** A sentinel write failed or carried no start time. */
    ghost var unmarked: bool
    /** Every id the host has given. */
    ghost var used: set<string>

    /**
     * A vault that is not whole is flagged, and the backup the flag names, if it is still there, holds the
     * snapshot.
     */
    ghost predicate Valid()
      reads this
    {
      && (unmarked || vault in wholes || Interrupted(sentinel))
      && (forall id :: Named(id) ==> id in used && (id in backups ==> backups[id] == snapshot))
      && Listed(order, backups, used)
    }

    predicate Named(id: string)
      reads this
    {
      sentinel.Some? && sentinel.value.backupId == Some(id)
    }

    /** The sentinel names a backup that is there. */
    ghost predicate HasRecovery()
      reads this
    {
      exists id :: Named(id) && id in backups
    }

    /** The host answers with a new backup, or with the latest one if that has the same content. */
    ghost predicate Honest(c: Course)
      reads this
    {
      && c.keep >= 1
      && (c.host.Created? ==>
            || c.host.id !in used
            || (order != [] && order[0] == c.host.id && c.host.id in backups && backups[c.host.id] == vault))
    }

    constructor (vault: Vault, meaningful: Vault -> bool)
      ensures Valid() && this.vault == vault && sentinel == None && backups == map[] && used == {}
      ensures this.meaningful == meaningful
      ensures wholes == {vault} && !unmarked
    {
      this.vault, this.meaningful := vault, meaningful;
      sentinel, backups, order, wholes, snapshot, unmarked, used := None, map[], [], {vault}, vault, false, {};
    }

    /** createRequiredProtectiveLocalVaultBackup of the current vault; None when there is nothing to protect. */
    method CreateBackup(c: Course) returns (backup: Option<HostAnswer>, ghost made: bool)
      requires Valid() && Honest(c)
      modifies `backups, `order, `used
      ensures Valid() && backup == (if meaningful(vault) then Some(c.host) else None)
      ensures made <==> IdOf(backup).Some? && IdOf(backup).value !in old(used)
      ensures Kept(c, made)
      ensures forall id :: id in backups ==> id in old(backups) || IdOf(backup) == Some(id)
      ensures IdOf(backup).Some? ==> IdOf(backup).value in backups && backups[IdOf(backup).value] == vault
    {
      made := false;
      if !meaningful(vault) {
        return None, made;
      }
      if c.host.Created? && (order == [] || order[0] != c.host.id) {
        made := true;
        NewBackup(order, backups, used, c.host.id, vault, c);
        order := Prune([c.host.id] + order, c.keep, c.stuck);
        backups := WithNew(backups, order, c.host.id, vault);
        used := used + {c.host.id};
      }
      backup := Some(c.host);
    }

    /** Which older backups are still there, with their contents. */
    twostate predicate Kept(c: Course, made: bool)
      reads this
    {
      KeptOf(old(order), old(backups), backups, c, made)
    }

    /** Best effort: storage may drop the write. */
    method WriteSentinel(record: Record, stores: bool)
      modifies `sentinel
      ensures sentinel == if stores then Some(record) else old(sentinel)
    {
      if stores {
        sentinel := Some(record);
      }
    }

    /** The apply callback: separate storage writes, cut by an error or by a crash. */
    method RunWrites(writes: seq<Write>, c: Course) returns (end: End, ghost done: nat)
      modifies `vault
      ensures done <= |writes| && vault == ApplyWrites(old(vault), writes[..done])
      ensures match end
              case Crashed => c.crashAt == Some(2 + done)
              case ApplyFailed => c.failsAt == Some(done) && done < |writes|
              case _ => end.Completed? && done == |writes| && c.crashAt != Some(2 + done)
      ensures c.failsAt.Some? ==> c.failsAt.value >= done
      ensures c.crashAt.Some? && c.crashAt.value >= 2 ==> c.crashAt.value >= 2 + done
    {
      done := 0;
      for i := 0 to |writes|
        invariant done == i && vault == ApplyWrites(old(vault), writes[..i])
        invariant c.failsAt.Some? ==> c.failsAt.value >= i
        invariant c.crashAt.Some? && c.crashAt.value >= 2 ==> c.crashAt.value >= 2 + i
      {
        assert writes[..i + 1][..i] == writes[..i];
        if c.crashAt == Some(2 + i) { return Crashed, done; }
        if c.failsAt == Some(i) { return ApplyFailed, done; }
        match writes[i] {
          case Put(k, v) => vault := vault[k := v];
          case Remove(k) => vault := vault - {k};
        }
        done := i + 1;
      }
      end := if c.crashAt == Some(2 + |writes|) then Crashed else Completed;
    }

    /** The sentinel now speaks of the vault as it is. */
    method Mark(now: int, id: Option<string>, stores: bool)
      requires Valid() && (id.Some? ==> id.value in backups && backups[id.value] == vault)
      modifies `sentinel, `snapshot, `unmarked
      ensures Valid() && sentinel == (if stores then Some(Record(now, id)) else old(sentinel))
      ensures unmarked <==> old(unmarked) || !stores || now == 0
    {
      WriteSentinel(Record(now, id), stores);
      if stores { snapshot := vault; }
      unmarked := unmarked || !stores || now == 0;
    }

    /** Everything before the first vault write; None lets the writes begin. */
    method Protect(now: int, c: Course) returns (end: Option<End>, ghost backup: Option<HostAnswer>, ghost made: bool)
      requires Valid() && Honest(c)
      modifies `sentinel, `backups, `order, `used, `snapshot, `unmarked
      ensures Valid() && Kept(c, made)
      ensures end.Some? ==> !end.value.Completed? && HasCause(end.value, c, meaningful(vault), 0)
      ensures end.Some? ==> sentinel == old(sentinel) && unmarked == old(unmarked)
      ensures end.Some? && !end.value.Crashed? ==> backups == old(backups) && !made
      ensures made ==> c.prepares && c.snapshots && meaningful(vault) && c.host.Created? && c.host.id !in old(used)
      ensures end.None? ==> c.prepares && c.snapshots && (c.crashAt.Some? ==> c.crashAt.value >= 2)
      ensures end.None? ==>
                && backup == (if meaningful(vault) then Some(c.host) else None) && !(backup == Some(Failed))
                && (made <==> IdOf(backup).Some? && IdOf(backup).value !in old(used))
                && (IdOf(backup).Some? ==> IdOf(backup).value in backups && backups[IdOf(backup).value] == vault)
                && sentinel == (if c.stores then Some(Record(now, IdOf(backup))) else old(sentinel))
                && (unmarked <==> old(unmarked) || !c.stores || now == 0)
    {
      backup, made := None, false;
      if c.crashAt == Some(0) { return Some(Crashed), backup, made; }
      if !c.prepares { return Some(PrepareFailed), backup, made; }
      if !c.snapshots { return Some(SnapshotFailed), backup, made; }
      var answer;
      answer, made := CreateBackup(c);
      backup := answer;
      if answer == Some(Failed) { return Some(BackupFailed), backup, made; }
      if c.crashAt == Some(1) { return Some(Crashed), backup, made; }
      Mark(now, IdOf(answer), c.stores);
      end := None;
    }

    /** The flagged part: the writes, and the end of the flag once all are done. */
    method RunMarked(writes: seq<Write>, c: Course) returns (end: End, ghost done: nat)
      requires Valid() && (unmarked || Interrupted(sentinel))
      modifies `vault, `sentinel, `wholes
      ensures Valid() && done <= |writes| && vault == ApplyWrites(old(vault), writes[..done])
      ensures match end
              case Crashed => c.crashAt == Some(2 + done)
              case ApplyFailed => c.failsAt == Some(done) && done < |writes|
              case _ =>
                && end.Completed? && done == |writes| && c.crashAt != Some(2 + done)
                && vault == ApplyWrites(old(vault), writes) && sentinel == None
      ensures wholes == if end.Completed? then old(wholes) + {vault} else old(wholes)
      ensures !end.Completed? ==> sentinel == old(sentinel)
      ensures c.failsAt.Some? ==> c.failsAt.value >= done
      ensures c.crashAt.Some? && c.crashAt.value >= 2 ==> c.crashAt.value >= 2 + done
    {
      end, done := RunWrites(writes, c);
      if end.Completed? {
        assert writes[..|writes|] == writes;
        sentinel := None;
        wholes := wholes + {vault};
      }
    }

    /**
     * applyProtectedSyncPayload. Every way to end, a crash at any point included, keeps Valid; a vault that is
     * neither the one before nor the finished one is flagged, with a backup of the one before if the host answered
     * one; and a flag from before keeps its backup exactly if that outlives the new one.
     */
    method ApplyProtected(writes: seq<Write>, now: int, c: Course)
      returns (end: End, ghost backup: Option<HostAnswer>, ghost made: bool, ghost done: nat)
      requires Valid() && Honest(c)
      modifies this
      ensures Valid() && Kept(c, made)
      ensures made ==> c.prepares && c.snapshots && meaningful(old(vault)) && c.host.Created? && c.host.id !in old(used)
      ensures HasCause(end, c, meaningful(old(vault)), |writes|) && (IsSmooth(c) ==> end.Completed?)
      ensures done <= |writes| && vault == ApplyWrites(old(vault), writes[..done])
      ensures end.PrepareFailed? || end.SnapshotFailed? || end.BackupFailed? ==>
                vault == old(vault) && sentinel == old(sentinel) && backups == old(backups)
      ensures end.Completed? ==> vault == ApplyWrites(old(vault), writes) && sentinel == None
      ensures wholes == if end.Completed? then old(wholes) + {vault} else old(wholes)
      ensures vault in wholes || unmarked || (sentinel.Some? && sentinel.value.startedAt != 0)
      ensures !end.Completed? && (vault != old(vault) || end.ApplyFailed?) && c.stores ==>
                sentinel == Some(Record(now, IdOf(backup))) && (HasRecovery() <==> IdOf(backup).Some?)
      ensures forall id :: sentinel == old(sentinel) && Named(id) && id in old(backups) && id in old(order) ==>
                (HasRecovery() <==> !made || Outlives(old(order), c, id))
      ensures vault != old(vault) || end.ApplyFailed? || end.Completed? ==>
                && backup == (if meaningful(old(vault)) then Some(c.host) else None) && !(backup == Some(Failed))
                && (IdOf(backup).Some? ==> IdOf(backup).value in backups && backups[IdOf(backup).value] == old(vault))
      ensures unmarked ==> old(unmarked) || !c.stores || now == 0
    {
      var refused;
      refused, backup, made := Protect(now, c);
      if refused.Some? {
        return refused.value, backup, made, 0;
      }
      end, done := RunMarked(writes, c);
    }

    /** The user edits the vault; an edit of a partial vault does not make it whole. */
    method Edit(next: Vault)
      requires Valid()
      modifies `vault, `wholes
      ensures Valid() && vault == next
      ensures wholes == if old(vault) in old(wholes) then old(wholes) + {next} else old(wholes)
    {
      if vault in wholes {
        wholes := wholes + {next};
      }
      vault := next;
    }

    /** clearInterruptedVaultApply: the user takes the vault as it is. */
    method Acknowledge()
      requires Valid()
      modifies `sentinel, `wholes
      ensures Valid() && sentinel == None && wholes == old(wholes) + {vault}
    {
      sentinel := None;
      wholes := wholes + {vault};
    }
  }
}
