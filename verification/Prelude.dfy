/** Shared vocabulary: optional values and lists without repetition. */
module Prelude {

  datatype Option<+T> = None | Some(value: T) {
    function GetOr(default: T): T {
      match this
      case Some(v) => v
      case None => default
    }
  }

  ghost predicate Distinct<T(!new)>(s: seq<T>) {
    forall i, j :: 0 <= i < j < |s| ==> s[i] != s[j]
  }

  lemma SliceOfFirst<T>(a: seq<T>, b: seq<T>, n: nat, m: nat)
    requires n <= m <= |a|
    ensures (a + b)[n..m] == a[n..m]
  {
  }

  lemma SliceOfSecond<T>(a: seq<T>, b: seq<T>, n: nat, m: nat)
    requires n <= m <= |b|
    ensures (a + b)[|a| + n..|a| + m] == b[n..m]
  {
  }
}
