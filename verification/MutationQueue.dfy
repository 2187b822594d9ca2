/**
 * The promise chain that serialises passphrase writers (application/defaultKeyPassphrases.ts:46-52). Each
 * mutation reacts to the queue promise, settled either way; the queue then becomes a promise that
 * swallows the mutation's outcome.
 */
module MutationQueue {

  datatype Status = Waiting | Running | Fulfilled | Rejected

  datatype Kind = Initial | Mutation(after: nat) | Swallow(after: nat)

  datatype Promise = Promise(kind: Kind, status: Status)

  predicate Settled(p: Promise) { p.status.Fulfilled? || p.status.Rejected? }

  /** The reaction of promise `i` may fire: what it was chained to has settled. */
  predicate CanReact(promises: seq<Promise>, i: nat) {
    && i < |promises| && promises[i].status.Waiting? && !promises[i].kind.Initial?
    && promises[i].kind.after < |promises| && Settled(promises[promises[i].kind.after])
  }

  /** Submission builds one chain: promise 2k+1 runs mutation k, promise 2k+2 swallows its outcome. */
  ghost predicate Shaped(promises: seq<Promise>) {
    && |promises| % 2 == 1
    && promises[0] == Promise(Initial, Fulfilled)
    && forall i :: 0 < i < |promises| ==>
         && promises[i].kind == (if i % 2 == 1 then Mutation(i - 1) else Swallow(i - 1))
         && (i % 2 == 0 ==> !promises[i].status.Running? && !promises[i].status.Rejected?)
  }

  /** Whatever has begun comes after settled promises only. */
  ghost predicate InOrder(promises: seq<Promise>) {
    forall i, j :: 0 <= i < j < |promises| && !promises[j].status.Waiting? ==> Settled(promises[i])
  }

  lemma {:induction false} FirstWaiting(promises: seq<Promise>, i: nat) returns (first: nat)
    requires i < |promises| && promises[i].status.Waiting?
    ensures first <= i && promises[first].status.Waiting?
    ensures forall j :: 0 <= j < first ==> !promises[j].status.Waiting?
  {
    first := 0;
    while !promises[first].status.Waiting?
      invariant first <= i
      decreases i - first
      invariant forall j :: 0 <= j < first ==> !promises[j].status.Waiting?
    {
      first := first + 1;
    }
  }

  /** A rejected mutation does not stop later ones: while any promise waits and none runs, one can react. */
  lemma NeverStuck(promises: seq<Promise>, i: nat)
    requires Shaped(promises) && InOrder(promises)
    requires i < |promises| && promises[i].status.Waiting?
    requires forall j :: 0 <= j < |promises| ==> !promises[j].status.Running?
    ensures exists k: nat :: k <= i && CanReact(promises, k)
  {
    var first := FirstWaiting(promises, i);
    assert !promises[first].kind.Initial?;
    assert CanReact(promises, first);
  }

  /** The first reaction that can fire is the only one: everything before it settled, everything after it waits. */
  lemma ReactionKeepsOrder(promises: seq<Promise>, i: nat, next: Promise)
    requires Shaped(promises) && InOrder(promises) && CanReact(promises, i)
    requires next == promises[i].(status := if promises[i].kind.Mutation? then Running else Fulfilled)
    ensures Shaped(promises[i := next]) && InOrder(promises[i := next])
  {
  }

  /** The mutations that have begun are the first ones submitted, in that order. */
  ghost predicate BegunAre(promises: seq<Promise>, begun: seq<nat>) {
    && (forall k :: 0 <= k < |begun| ==> begun[k] == k && 2 * k + 1 < |promises|)
    && (forall k :: 0 <= k && 2 * k + 1 < |promises| ==> (k < |begun| <==> !promises[2 * k + 1].status.Waiting?))
  }

  lemma NextToBegin(promises: seq<Promise>, begun: seq<nat>, i: nat, next: Promise)
    requires Shaped(promises) && InOrder(promises) && BegunAre(promises, begun)
    requires CanReact(promises, i) && promises[i].kind.Mutation? && next.status.Running?
    ensures i == 2 * |begun| + 1 && BegunAre(promises[i := next], begun + [|begun|])
  {
    var k := (i - 1) / 2;
    assert i == 2 * k + 1;
    if k > 0 {
      assert Settled(promises[i - 1]);
      assert !promises[2 * (k - 1) + 1].status.Waiting?;
    }
    assert k == |begun|;
  }

  // ---- Runs ----

  datatype Move = Submit | React(i: nat) | Settle(i: nat, ok: bool)

  predicate CanMove(promises: seq<Promise>, move: Move) {
    match move
    case Submit => promises != []
    case React(i) => CanReact(promises, i)
    case Settle(i, _) => i < |promises| && promises[i].status.Running?
  }

  /** A submission chains the mutation to the queue, and makes its swallowed outcome the queue. */
  function Moved(promises: seq<Promise>, move: Move): seq<Promise>
    requires CanMove(promises, move)
  {
    match move
    case Submit => promises + [Promise(Mutation(|promises| - 1), Waiting), Promise(Swallow(|promises|), Waiting)]
    case React(i) => promises[i := promises[i].(status := if promises[i].kind.Mutation? then Running else Fulfilled)]
    case Settle(i, ok) => promises[i := promises[i].(status := if ok then Fulfilled else Rejected)]
  }

  lemma MoveKeepsOrder(promises: seq<Promise>, move: Move)
    requires Shaped(promises) && InOrder(promises) && CanMove(promises, move)
    ensures Shaped(Moved(promises, move)) && InOrder(Moved(promises, move))
  {
    if move.React? {
      ReactionKeepsOrder(promises, move.i, Moved(promises, move)[move.i]);
    }
  }

  /** The promises after these moves of a new queue. */
  function After(moves: seq<Move>): seq<Promise> {
    if moves == [] then [Promise(Initial, Fulfilled)]
    else
      var before := After(moves[..|moves| - 1]);
      if CanMove(before, moves[|moves| - 1]) then Moved(before, moves[|moves| - 1]) else before
  }

  predicate IsRun(moves: seq<Move>) {
    moves == [] || (IsRun(moves[..|moves| - 1]) && CanMove(After(moves[..|moves| - 1]), moves[|moves| - 1]))
  }

  lemma {:induction false} RunKeepsOrder(moves: seq<Move>)
    requires IsRun(moves)
    ensures Shaped(After(moves)) && InOrder(After(moves))
    decreases |moves|
  {
    if moves != [] {
      RunKeepsOrder(moves[..|moves| - 1]);
      MoveKeepsOrder(After(moves[..|moves| - 1]), moves[|moves| - 1]);
    }
  }

  /**
   * In every run of submissions, reactions and settlements: while a mutation runs, everything submitted before it
   * has settled and nothing submitted after it has begun, so no two mutations run together.
   */
  lemma OneAtATime(moves: seq<Move>, i: nat, j: nat)
    requires IsRun(moves) && i < |After(moves)| && j < |After(moves)| && i != j && After(moves)[i].status.Running?
    ensures if j < i then Settled(After(moves)[j]) else After(moves)[j].status.Waiting?
  {
    RunKeepsOrder(moves);
  }

  class Queue {
    var promises: seq<Promise>
    /** passphraseMutationQueue: the promise the next mutation is chained to. */
    var tail: nat
    /** The mutations in the order in which they began. */
    ghost var begun: seq<nat>

    ghost predicate Valid()
      reads this
    {
      && Shaped(promises) && InOrder(promises) && tail == |promises| - 1
      && BegunAre(promises, begun)
    }

    constructor ()
      ensures Valid() && |promises| == 1
    {
      promises, tail, begun := [Promise(Initial, Fulfilled)], 0, [];
    }

    /** runPassphraseMutation: chain the mutation, then make its swallowed outcome the queue. */
    method Submit() returns (result: nat)
      requires Valid()
      modifies this
      ensures Valid() && result == 2 * ((|old(promises)| - 1) / 2) + 1
      ensures promises == Moved(old(promises), Move.Submit) && begun == old(begun)
      ensures |promises| == |old(promises)| + 2 && promises[..|old(promises)|] == old(promises)
      ensures promises[result] == Promise(Mutation(old(tail)), Waiting)
      ensures tail == result + 1 && promises[tail] == Promise(Swallow(result), Waiting)
    {
      result := |promises|;
      promises := promises + [Promise(Mutation(tail), Waiting)];
      promises := promises + [Promise(Swallow(result), Waiting)];
      tail := result + 1;
    }

    /** One reaction fires: a mutation begins, or a settled outcome is swallowed. */
    method React(i: nat)
      requires Valid() && CanReact(promises, i)
      modifies this`promises, this`begun
      ensures Valid()
      ensures promises == Moved(old(promises), Move.React(i))
      ensures |promises| == |old(promises)| && promises[i].kind == old(promises)[i].kind
      ensures promises[i].status == if old(promises)[i].kind.Mutation? then Running else Fulfilled
      ensures forall j :: 0 <= j < |promises| && j != i ==> promises[j] == old(promises)[j]
      ensures begun == if old(promises)[i].kind.Mutation? then old(begun) + [|old(begun)|] else old(begun)
      ensures old(promises)[i].kind.Mutation? ==> i == 2 * |old(begun)| + 1
    {
      var next := promises[i].(status := if promises[i].kind.Mutation? then Running else Fulfilled);
      ReactionKeepsOrder(promises, i, next);
      if promises[i].kind.Mutation? {
        NextToBegin(promises, begun, i, next);
        begun := begun + [|begun|];
      }
      promises := promises[i := next];
    }

    /** A running mutation settles, with or without an error. */
    method Settle(i: nat, ok: bool)
      requires Valid() && i < |promises| && promises[i].status.Running?
      modifies this`promises
      ensures Valid()
      ensures promises == Moved(old(promises), Move.Settle(i, ok))
      ensures |promises| == |old(promises)| && promises[i].kind == old(promises)[i].kind
      ensures promises[i].status == if ok then Fulfilled else Rejected
      ensures forall j :: 0 <= j < |promises| && j != i ==> promises[j] == old(promises)[j]
    {
      promises := promises[i := promises[i].(status := if ok then Fulfilled else Rejected)];
    }
  }
}
