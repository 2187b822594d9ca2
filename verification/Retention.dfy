/**
 * Retention of vault backups in the main process (electron/bridges/vaultBackupBridge.cjs:293-312, 557): records are
 * listed newest first, and those beyond the maximum count are unlinked, except where unlinking fails.
 */
module Retention {
  import opened Prelude

  function IndexOf<T(==)>(records: seq<T>, r: T): (i: nat)
    requires r in records
    ensures i < |records| && records[i] == r && forall j :: 0 <= j < i ==> records[j] != r
  {
    if records[0] == r then 0 else 1 + IndexOf(records[1..], r)
  }

  function OnlyStuck<T(==)>(records: seq<T>, stuck: set<T>): seq<T> {
    if records == [] then []
    else (if records[0] in stuck then [records[0]] else []) + OnlyStuck(records[1..], stuck)
  }

  function Prune<T(==)>(records: seq<T>, keep: nat, stuck: set<T>): seq<T> {
    if |records| <= keep then records else records[..keep] + OnlyStuck(records[keep..], stuck)
  }

  lemma {:induction false} OnlyStuckExactly<T(!new)>(records: seq<T>, stuck: set<T>)
    requires Distinct(records)
    ensures forall r :: r in OnlyStuck(records, stuck) <==> r in records && r in stuck
    ensures Distinct(OnlyStuck(records, stuck))
  {
    if records != [] {
      OnlyStuckExactly(records[1..], stuck);
      assert records == [records[0]] + records[1..];
    }
  }

  lemma IndexIs<T(!new)>(records: seq<T>, i: nat)
    requires Distinct(records) && i < |records|
    ensures IndexOf(records, records[i]) == i
  {
  }

  /** A prune keeps exactly the newest records and the stuck ones, and the newest keep their places. */
  lemma PruneExactly<T(!new)>(records: seq<T>, keep: nat, stuck: set<T>, r: T)
    requires Distinct(records)
    ensures Distinct(Prune(records, keep, stuck))
    ensures r in Prune(records, keep, stuck) <==> r in records && (IndexOf(records, r) < keep || r in stuck)
    ensures r in records && IndexOf(records, r) < keep ==>
              IndexOf(Prune(records, keep, stuck), r) == IndexOf(records, r)
  {
    if |records| > keep {
      var newest, older := records[..keep], records[keep..];
      assert records == newest + older;
      OnlyStuckExactly(older, stuck);
      var kept := Prune(records, keep, stuck);
      forall i, j | 0 <= i < j < |kept| ensures kept[i] != kept[j] {
        if i < keep <= j {
          assert kept[j] in OnlyStuck(older, stuck);
          var k :| 0 <= k < |older| && older[k] == kept[j];
          assert records[keep + k] == kept[j];
        }
      }
      if r in records {
        var i := IndexOf(records, r);
        if i < keep {
          assert kept[i] == r;
          IndexIs(kept, i);
        } else {
          assert older[i - keep] == r;
        }
      }
    }
  }

  /** The newest record survives every prune. */
  lemma NewestStays<T(!new)>(records: seq<T>, r: T, keep: nat, stuck: set<T>)
    requires Distinct(records) && r !in records && keep >= 1
    ensures var kept := Prune([r] + records, keep, stuck); kept != [] && kept[0] == r && Distinct(kept)
    ensures forall q :: q in Prune([r] + records, keep, stuck) <==>
              q == r || (q in records && (IndexOf(records, q) + 1 < keep || q in stuck))
    ensures forall q :: q in records && IndexOf(records, q) + 1 < keep ==>
              q in Prune([r] + records, keep, stuck) &&
              IndexOf(Prune([r] + records, keep, stuck), q) == IndexOf(records, q) + 1
  {
    var all := [r] + records;
    PruneExactly(all, keep, stuck, r);
    forall q | q in records ensures IndexOf(all, q) == IndexOf(records, q) + 1 {
      assert all[IndexOf(records, q) + 1] == q;
      IndexIs(all, IndexOf(records, q) + 1);
    }
    forall q
      ensures q in Prune(all, keep, stuck) <==>
                q == r || (q in records && (IndexOf(records, q) + 1 < keep || q in stuck))
      ensures q in records && IndexOf(records, q) + 1 < keep ==>
                q in Prune(all, keep, stuck) && IndexOf(Prune(all, keep, stuck), q) == IndexOf(records, q) + 1
    {
      PruneExactly(all, keep, stuck, q);
      assert IndexOf(all, r) == 0;
    }
  }
}
