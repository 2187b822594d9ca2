/**
 * Plugin sidecar bridge (application/pluginSyncSidecarBridge.ts): two persisted slots between cloud sync and
 * a plugin host that may be absent, refuse softly, fail, or accept. Calls do not overlap. Each download gets
 * a ticket; the trace records what was requested, queued for replay, and accepted by the host.
 */
module SidecarBridge {
  import opened Prelude

  datatype Entry = Entry(plugin: string, key: string, value: string)

  type Bundle = seq<Entry>

  datatype Api = Api(hasCollect: bool, hasApply: bool)

  /** The host accepts (perhaps returning merged entries), refuses softly, says it is unavailable, or fails. */
  datatype ApplyAnswer = Accepts(merged: Option<Bundle>) | Refuses | Unavailable | Fails

  datatype CollectAnswer = Collects(bundle: Bundle) | NotAuthoritative | Throws

  datatype CollectResult = Returned(bundle: Option<Bundle>) | HostError | StorageError

  datatype ApplyResult = Applied | QueuedForReplay | ApplyFailed | StorageRejected

  datatype Event =
    | Requested(ticket: nat, bundle: Bundle)
    | Queued(ticket: nat, bundle: Bundle)
    | Accepted(ticket: nat, bundle: Bundle)

  datatype Ticket = Ticket(number: nat, bundle: Bundle)

  // ---- Traces ----

  ghost function Requests(trace: seq<Event>): nat {
    if trace == [] then 0
    else Requests(trace[..|trace| - 1]) + if trace[|trace| - 1].Requested? then 1 else 0
  }

  /** The download that waits for the host: the last one queued, unless the host accepted something since. */
  ghost function Waiting(trace: seq<Event>): Option<Ticket> {
    if trace == [] then None
    else match trace[|trace| - 1]
      case Requested(_, _) => Waiting(trace[..|trace| - 1])
      case Queued(t, b) => Some(Ticket(t, b))
      case Accepted(_, _) => None
  }

  ghost predicate IsCurrent(trace: seq<Event>, ticket: nat, bundle: Bundle) {
    trace != [] && trace[|trace| - 1] == Requested(ticket, bundle)
  }

  /** Tickets count requests; only the current request is queued; only it or the waiting one is accepted. */
  ghost predicate Legal(trace: seq<Event>) {
    trace == [] ||
    var before, e := trace[..|trace| - 1], trace[|trace| - 1];
    Legal(before) &&
    match e
    case Requested(t, _) => t == Requests(before)
    case Queued(t, b) => IsCurrent(before, t, b)
    case Accepted(t, b) => IsCurrent(before, t, b) || Waiting(before) == Some(Ticket(t, b))
  }

  ghost predicate Decided(e: Event) { e.Queued? || e.Accepted? }

  lemma Extend(trace: seq<Event>, e: Event)
    ensures (trace + [e])[..|trace|] == trace
  {
  }

  /** Nothing carries a ticket beyond the number of requests, and nothing decided is newer than what waits. */
  lemma {:induction false} TicketsBounded(trace: seq<Event>)
    requires Legal(trace)
    ensures forall i :: 0 <= i < |trace| ==> trace[i].ticket < Requests(trace)
    ensures Waiting(trace).Some? ==> Waiting(trace).value.number < Requests(trace)
    ensures Waiting(trace).Some? ==>
              forall i :: 0 <= i < |trace| && trace[i].Accepted? ==> trace[i].ticket < Waiting(trace).value.number
    ensures Waiting(trace).Some? ==>
              forall i :: 0 <= i < |trace| && trace[i].Queued? ==> trace[i].ticket <= Waiting(trace).value.number
    ensures trace != [] && trace[|trace| - 1].Requested? ==>
              forall i :: 0 <= i < |trace| - 1 ==> trace[i].ticket < trace[|trace| - 1].ticket
  {
    if trace != [] {
      var before, e := trace[..|trace| - 1], trace[|trace| - 1];
      TicketsBounded(before);
      assert forall i :: 0 <= i < |before| ==> trace[i] == before[i] && before[i].ticket < Requests(before);
      match e {
        case Requested(t, b) =>
          assert Waiting(trace) == Waiting(before) && Requests(trace) == Requests(before) + 1;
        case Queued(t, b) =>
          assert before[|before| - 1] == Requested(t, b) && Requests(trace) == Requests(before);
          assert forall i :: 0 <= i < |before| - 1 ==> before[i].ticket < t;
        case Accepted(t, b) =>
          assert Waiting(trace) == None && Requests(trace) == Requests(before);
      }
    }
  }

  /** Safety over every run: the host never accepts an older download after a newer one, nor one twice. */
  lemma {:induction false} AcceptedInOrder(trace: seq<Event>, i: nat, j: nat)
    requires Legal(trace) && i < j < |trace| && trace[i].Accepted? && trace[j].Accepted?
    ensures trace[i].ticket < trace[j].ticket
  {
    var before := trace[..|trace| - 1];
    if j < |trace| - 1 {
      AcceptedInOrder(before, i, j);
    } else {
      TicketsBounded(before);
    }
  }

  /** No queued download is lost: it still waits, or the host accepted it, or a newer one superseded it. */
  lemma {:induction false} QueuedNeverLost(trace: seq<Event>, i: nat)
    requires Legal(trace) && i < |trace| && trace[i].Queued?
    ensures Waiting(trace) == Some(Ticket(trace[i].ticket, trace[i].bundle))
            || exists j :: i < j < |trace| && Decided(trace[j]) &&
                           (trace[j].ticket > trace[i].ticket || trace[j] == Accepted(trace[i].ticket, trace[i].bundle))
  {
    var before, e := trace[..|trace| - 1], trace[|trace| - 1];
    if i < |trace| - 1 {
      QueuedNeverLost(before, i);
      if Waiting(before) == Some(Ticket(trace[i].ticket, trace[i].bundle)) {
        TicketsBounded(before);
        if Decided(e) {
          assert e.ticket > trace[i].ticket || e == Accepted(trace[i].ticket, trace[i].bundle);
        }
      } else {
        var j :| i < j < |before| && Decided(before[j]) &&
                 (before[j].ticket > before[i].ticket || before[j] == Accepted(before[i].ticket, before[i].bundle));
        assert trace[j] == before[j];
      }
    }
  }

  /** What waits is the latest bundle queued, and the host has accepted nothing since. */
  lemma {:induction false} WaitingIsLatestQueued(trace: seq<Event>) returns (i: nat)
    requires Waiting(trace).Some?
    ensures i < |trace| && trace[i] == Queued(Waiting(trace).value.number, Waiting(trace).value.bundle)
    ensures forall j :: i < j < |trace| ==> !Decided(trace[j])
  {
    if trace[|trace| - 1].Queued? {
      i := |trace| - 1;
    } else {
      i := WaitingIsLatestQueued(trace[..|trace| - 1]);
    }
  }

  // ---- Last-known ----

  predicate HasEntries(slot: Option<Bundle>) { slot.Some? && slot.value != [] }

  /** A live collect refreshes last-known, except that an empty one never overwrites entries. */
  function AfterCollect(lastKnown: Option<Bundle>, live: Bundle): Option<Bundle> {
    if HasEntries(lastKnown) && live == [] then lastKnown else Some(live)
  }

  datatype Field = Missing | Present(bundle: Option<Bundle>)

  datatype SyncResult = SyncResult(success: bool, merged: Field)

  /** The first merged payload that carries sidecars. */
  function FirstMerged(results: seq<SyncResult>): Option<Bundle> {
    if results == [] then None
    else if results[0].merged.Present? then Some(results[0].merged.bundle.GetOr([]))
    else FirstMerged(results[1..])
  }

  predicate AnySuccess(results: seq<SyncResult>) { exists r :: r in results && r.success }

  function ToCommit(payload: Field, results: seq<SyncResult>): Option<Bundle> {
    if !AnySuccess(results) then None
    else if FirstMerged(results).Some? then FirstMerged(results)
    else if payload.Present? then Some(payload.bundle.GetOr([]))
    else None
  }

  function AfterSync(lastKnown: Option<Bundle>, payload: Field, results: seq<SyncResult>): Option<Bundle> {
    var commit := ToCommit(payload, results);
    if commit.Some? then commit else lastKnown
  }

  lemma {:induction false} FirstMergedIsFirst(results: seq<SyncResult>)
    ensures FirstMerged(results).None? <==> forall i :: 0 <= i < |results| ==> results[i].merged.Missing?
    ensures FirstMerged(results).Some? ==>
              exists i :: 0 <= i < |results| && results[i].merged.Present?
                          && FirstMerged(results).value == results[i].merged.bundle.GetOr([])
                          && forall j :: 0 <= j < i ==> results[j].merged.Missing?
  {
    if results != [] && results[0].merged.Missing? {
      FirstMergedIsFirst(results[1..]);
      if FirstMerged(results).Some? {
        var i :| 0 <= i < |results[1..]| && results[1..][i].merged.Present?
                 && FirstMerged(results).value == results[1..][i].merged.bundle.GetOr([])
                 && forall j :: 0 <= j < i ==> results[1..][j].merged.Missing?;
        assert results[i + 1] == results[1..][i];
        forall j | 0 <= j < i + 1 ensures results[j].merged.Missing? {
          if j > 0 { assert results[j] == results[1..][j - 1]; }
        }
      } else {
        forall i | 0 <= i < |results| ensures results[i].merged.Missing? {
          if i > 0 { assert results[i] == results[1..][i - 1]; }
        }
      }
    }
  }

  /** A deliberate plugin reset: the empty collect is kept back until the sync that uploads it succeeds. */
  lemma EmptyResetIsDeferred(lastKnown: Option<Bundle>, results: seq<SyncResult>)
    requires HasEntries(lastKnown)
    requires forall i :: 0 <= i < |results| ==> results[i].merged.Missing?
    ensures AfterSync(AfterCollect(lastKnown, []), Present(Some([])), results)
              == if AnySuccess(results) then Some([]) else lastKnown
  {
    FirstMergedIsFirst(results);
  }

  // ---- The bridge ----

  /** What was said to the host, and its answer. */
  datatype Call = ApplyCall(bundle: Bundle, answer: ApplyAnswer) | CollectCall(state: CollectAnswer)

  ghost function Calls(bundle: Bundle, applied: Option<ApplyAnswer>, collected: Option<CollectAnswer>): seq<Call> {
    (if applied.Some? then [ApplyCall(bundle, applied.value)] else [])
    + (if collected.Some? then [CollectCall(collected.value)] else [])
  }

  lemma CallsInTurn(calls: seq<Call>, bundle: Bundle, applied: Option<ApplyAnswer>, collected: Option<CollectAnswer>)
    ensures calls + Calls(bundle, None, None) == calls
    ensures (calls + Calls(bundle, applied, None)) + Calls([], None, collected) ==
              calls + Calls(bundle, applied, collected)
  {
  }

  ghost function Live(collected: Option<CollectAnswer>): Option<Bundle> {
    match collected
    case Some(Collects(bundle)) => Some(bundle)
    case _ => None
  }

  ghost predicate WasAccepted(applied: Option<ApplyAnswer>) { applied.Some? && applied.value.Accepts? }

  class Bridge {
    var lastKnown: Option<Bundle>
    var pending: Option<Bundle>
    ghost var trace: seq<Event>
    ghost var calls: seq<Call>
    /** Writes that storage has rejected; removals always work. */
    ghost var rejected: nat

    /** The pending slot is exactly the download that waits in the trace. */
    ghost predicate Valid()
      reads this
    {
      && Legal(trace)
      && pending == if Waiting(trace).Some? then Some(Waiting(trace).value.bundle) else None
    }

    constructor ()
      ensures Valid() && lastKnown == None && pending == None && trace == [] && calls == []
    {
      lastKnown, pending, trace, calls, rejected := None, None, [], [], 0;
    }

    /** Hands a bundle to the host: the current download, or the waiting one as a replay. */
    method HostApply(ghost ticket: nat, bundle: Bundle) returns (answer: ApplyAnswer)
      requires Legal(trace)
      requires IsCurrent(trace, ticket, bundle) || Waiting(trace) == Some(Ticket(ticket, bundle))
      modifies `trace, `calls
      ensures calls == old(calls) + Calls(bundle, Some(answer), None)
      ensures trace == if answer.Accepts? then old(trace) + [Accepted(ticket, bundle)] else old(trace)
      ensures Legal(trace)
    {
      answer := *;
      calls := calls + [ApplyCall(bundle, answer)];
      if answer.Accepts? {
        Extend(trace, Accepted(ticket, bundle));
        trace := trace + [Accepted(ticket, bundle)];
      }
    }

    /** The host is never asked for its state while a download waits for it. */
    method HostCollect() returns (answer: CollectAnswer)
      requires Valid() && pending == None
      modifies `calls
      ensures calls == old(calls) + Calls([], None, Some(answer))
    {
      answer := *;
      calls := calls + [CollectCall(answer)];
    }

    method WriteLastKnown(bundle: Bundle) returns (ok: bool)
      modifies `lastKnown, `rejected
      ensures lastKnown == if ok then Some(bundle) else old(lastKnown)
      ensures rejected == old(rejected) + if ok then 0 else 1
    {
      ok := *;
      if ok {
        lastKnown := Some(bundle);
      } else {
        rejected := rejected + 1;
      }
    }

    method QueuePending(ghost ticket: nat, bundle: Bundle) returns (ok: bool)
      requires Valid() && IsCurrent(trace, ticket, bundle)
      modifies `pending, `trace, `rejected
      ensures Valid() && rejected == old(rejected) + if ok then 0 else 1
      ensures pending == if ok then Some(bundle) else old(pending)
      ensures trace == if ok then old(trace) + [Queued(ticket, bundle)] else old(trace)
    {
      ok := *;
      if ok {
        pending := Some(bundle);
        Extend(trace, Queued(ticket, bundle));
        trace := trace + [Queued(ticket, bundle)];
      } else {
        rejected := rejected + 1;
      }
    }

    /** Lines 168-226; `replay` and `collected` are what the host answered in this call. */
    method Collect(liveOnly: bool, api: Api)
      returns (result: CollectResult, ghost replay: Option<ApplyAnswer>, ghost collected: Option<CollectAnswer>)
      requires Valid()
      modifies this
      ensures Valid() && calls == old(calls) + Calls(old(pending).GetOr([]), replay, collected)
      ensures replay.Some? <==> api.hasCollect && api.hasApply && old(pending).Some?
      ensures pending == if WasAccepted(replay) then None else old(pending)
      ensures if WasAccepted(replay) then
                && Waiting(old(trace)).Some?
                && trace == old(trace) + [Accepted(Waiting(old(trace)).value.number, Waiting(old(trace)).value.bundle)]
              else trace == old(trace)
      ensures collected.Some? <==> api.hasCollect && pending == None
      ensures result.HostError? <==> replay == Some(Fails) || collected == Some(Throws)
      ensures result.StorageError? <==> rejected != old(rejected)
      ensures lastKnown == if Live(collected).Some? && !result.StorageError?
                           then AfterCollect(old(lastKnown), Live(collected).value) else old(lastKnown)
      ensures Live(collected).Some? && !result.StorageError? ==>
                && (Live(collected) != Some([]) ==> lastKnown == Live(collected))
                && (Live(collected) == Some([]) ==>
                      lastKnown == if old(lastKnown) in {None, Some([])} then Some([]) else old(lastKnown))
      ensures result.Returned? ==>
                result.bundle == if Live(collected).Some? then Live(collected)
                                 else if liveOnly then None
                                 else if api.hasCollect && pending.Some? then pending
                                 else lastKnown
      ensures HasEntries(old(lastKnown)) ==> HasEntries(lastKnown)
    {
      replay, collected := None, None;
      CallsInTurn(calls, pending.GetOr([]), None, None);
      if !api.hasCollect {
        result := Returned(if liveOnly then None else lastKnown);
        return;
      }
      var pendingRemote := pending;
      if pendingRemote.Some? && api.hasApply {
        ghost var waiting := Waiting(trace).value;
        var answer := HostApply(waiting.number, pendingRemote.value);
        replay := Some(answer);
        match answer {
          case Refuses | Unavailable =>
            result := Returned(if liveOnly then None else pendingRemote);
            return;
          case Fails =>
            result := HostError;
            return;
          case Accepts(_) =>
            pending := None;
        }
      } else if pendingRemote.Some? {
        result := Returned(if liveOnly then None else pendingRemote);
        return;
      }
      var answer := HostCollect();
      collected := Some(answer);
      CallsInTurn(old(calls), old(pending).GetOr([]), replay, collected);
      match answer {
        case Throws =>
          result := HostError;
        case NotAuthoritative =>
          result := Returned(if liveOnly then None else lastKnown);
        case Collects(bundle) =>
          if !(HasEntries(lastKnown) && bundle == []) {
            var ok := WriteLastKnown(bundle);
            if !ok {
              result := StorageError;
              return;
            }
          }
          result := Returned(Some(bundle));
      }
    }

    /** Lines 310-342: after an accepted apply, what the host holds now is kept for uploads. */
    method RefreshLastKnown(fallback: Bundle, canCollect: bool)
      returns (result: ApplyResult, ghost collected: Option<CollectAnswer>)
      requires Valid() && pending == None
      modifies `lastKnown, `calls, `rejected
      ensures Valid() && calls == old(calls) + Calls([], None, collected)
      ensures collected.Some? <==> canCollect
      ensures result.Applied? || (result.StorageRejected? && rejected > old(rejected) && lastKnown == old(lastKnown))
      ensures rejected == old(rejected) ==> lastKnown == Some(Live(collected).GetOr(fallback))
    {
      collected := None;
      CallsInTurn(calls, [], None, None);
      if canCollect {
        var state := HostCollect();
        collected := Some(state);
        var ok := false;
        match state {
          case Collects(live) => ok := WriteLastKnown(live);
          case NotAuthoritative => ok := WriteLastKnown(fallback);
          case Throws =>
        }
        if !ok {
          var _ := WriteLastKnown(fallback);
        }
        result := Applied;
      } else {
        var ok := WriteLastKnown(fallback);
        result := if ok then Applied else StorageRejected;
      }
    }

    /** Lines 290-298 and 302-308: the host did not take the download, so it is queued and kept for uploads. */
    method Keep(ghost ticket: nat, bundle: Bundle) returns (result: ApplyResult)
      requires Valid() && IsCurrent(trace, ticket, bundle)
      modifies `pending, `lastKnown, `trace, `rejected
      ensures Valid() && (result.QueuedForReplay? || result.StorageRejected?)
      ensures result.QueuedForReplay? <==> rejected == old(rejected)
      ensures result.StorageRejected? ==> rejected > old(rejected)
      ensures lastKnown == if result.QueuedForReplay? then Some(bundle) else old(lastKnown)
      ensures || (result.StorageRejected? && pending == old(pending) && trace == old(trace))
              || (pending == Some(bundle) && trace == old(trace) + [Queued(ticket, bundle)])
    {
      var queued := QueuePending(ticket, bundle);
      if queued {
        var kept := WriteLastKnown(bundle);
        result := if kept then QueuedForReplay else StorageRejected;
      } else {
        result := StorageRejected;
      }
    }

    /** What the host's answer to a download leads to; after an acceptance nothing waits any more. */
    method Conclude(ghost ticket: nat, bundle: Bundle, said: ApplyAnswer, canCollect: bool)
      returns (result: ApplyResult, ghost collected: Option<CollectAnswer>)
      requires if said.Accepts? then Legal(trace) && Waiting(trace) == None
               else Valid() && IsCurrent(trace, ticket, bundle)
      modifies `pending, `lastKnown, `trace, `calls, `rejected
      ensures Valid() && calls == old(calls) + Calls([], None, collected)
      ensures collected.Some? <==> canCollect && said.Accepts?
      ensures match said
              case Accepts(merged) =>
                && trace == old(trace) && pending == None
                && (|| result.Applied?
                    || (result.StorageRejected? && rejected > old(rejected) && lastKnown == old(lastKnown)))
                && (rejected == old(rejected) ==> lastKnown == Some(Live(collected).GetOr(merged.GetOr(bundle))))
              case Refuses =>
                && (result.QueuedForReplay? || result.StorageRejected?)
                && (result.QueuedForReplay? <==> rejected == old(rejected))
                && (result.StorageRejected? ==> rejected > old(rejected))
                && lastKnown == (if result.QueuedForReplay? then Some(bundle) else old(lastKnown))
                && (|| (result.StorageRejected? && pending == old(pending) && trace == old(trace))
                    || (pending == Some(bundle) && trace == old(trace) + [Queued(ticket, bundle)]))
              case _ =>
                && result == ApplyFailed && pending == old(pending) && trace == old(trace)
                && lastKnown == old(lastKnown) && rejected == old(rejected)
    {
      collected := None;
      CallsInTurn(calls, [], None, None);
      match said {
        case Unavailable | Fails =>
          result := ApplyFailed;
        case Refuses =>
          result := Keep(ticket, bundle);
        case Accepts(merged) =>
          pending := None;
          result, collected := RefreshLastKnown(merged.GetOr(bundle), canCollect);
      }
    }

    /** An absent host counts as one that refuses. */
    method Offer(ghost ticket: nat, bundle: Bundle, hasApply: bool)
      returns (said: ApplyAnswer, ghost answer: Option<ApplyAnswer>)
      requires Legal(trace) && IsCurrent(trace, ticket, bundle)
      modifies `trace, `calls
      ensures Legal(trace) && calls == old(calls) + Calls(bundle, answer, None)
      ensures answer == if hasApply then Some(said) else None
      ensures !hasApply ==> said == Refuses
      ensures trace == if WasAccepted(answer) then old(trace) + [Accepted(ticket, bundle)] else old(trace)
    {
      said, answer := Refuses, None;
      CallsInTurn(calls, bundle, None, None);
      if hasApply {
        said := HostApply(ticket, bundle);
        answer := Some(said);
      }
    }

    /** The download enters the trace under the next ticket. */
    ghost method Announce(bundle: Bundle) returns (ticket: nat)
      requires Valid()
      modifies `trace
      ensures Valid() && ticket == Requests(old(trace))
      ensures trace == old(trace) + [Requested(ticket, bundle)] && IsCurrent(trace, ticket, bundle)
    {
      ticket := Requests(trace);
      Extend(trace, Requested(ticket, bundle));
      trace := trace + [Requested(ticket, bundle)];
    }

    /** Lines 281-343; a missing or malformed bundle is an authoritative empty one. */
    method Apply(download: Option<Bundle>, api: Api)
      returns (result: ApplyResult, ghost answer: Option<ApplyAnswer>, ghost collected: Option<CollectAnswer>)
      requires Valid()
      modifies this
      ensures Valid() && calls == old(calls) + Calls(download.GetOr([]), answer, collected)
      ensures answer.Some? <==> api.hasApply
      ensures collected.Some? <==> api.hasCollect && WasAccepted(answer)
      ensures result.ApplyFailed? <==> answer == Some(Unavailable) || answer == Some(Fails)
      ensures var t, b := Requests(old(trace)), download.GetOr([]);
              var requested := old(trace) + [Requested(t, b)];
              if WasAccepted(answer) then
                trace == requested + [Accepted(t, b)] && pending == None
              else if result.ApplyFailed? then
                trace == requested && pending == old(pending) && lastKnown == old(lastKnown)
              else
                && lastKnown == (if result.QueuedForReplay? then Some(b) else old(lastKnown))
                && (|| (result.StorageRejected? && trace == requested && pending == old(pending))
                    || (trace == requested + [Queued(t, b)] && pending == Some(b)))
      ensures rejected == old(rejected) && !result.ApplyFailed? ==>
                if WasAccepted(answer) then
                  && result.Applied?
                  && lastKnown == Some(Live(collected).GetOr(answer.value.merged.GetOr(download.GetOr([]))))
                else result.QueuedForReplay?
      ensures result.StorageRejected? ==> rejected > old(rejected) && lastKnown == old(lastKnown)
      ensures result.Applied? ==> WasAccepted(answer)
      ensures result.QueuedForReplay? ==> !WasAccepted(answer) && rejected == old(rejected)
    {
      var bundle := download.GetOr([]);
      ghost var ticket := Announce(bundle);
      var said;
      said, answer := Offer(ticket, bundle, api.hasApply);
      result, collected := Conclude(ticket, bundle, said, api.hasCollect);
      CallsInTurn(old(calls), bundle, answer, collected);
    }

    /** Lines 232-240. */
    method CommitLastKnown(bundle: Option<Bundle>) returns (ok: bool)
      modifies `lastKnown, `rejected
      ensures lastKnown == if ok then Some(bundle.GetOr([])) else old(lastKnown)
      ensures rejected == old(rejected) + if ok then 0 else 1
    {
      ok := WriteLastKnown(bundle.GetOr([]));
    }

    /** Lines 247-279. */
    method CommitAfterSuccessfulSync(payload: Field, results: seq<SyncResult>) returns (ok: bool)
      modifies `lastKnown, `rejected
      ensures rejected == old(rejected) + if ok then 0 else 1
      ensures lastKnown == if ok then AfterSync(old(lastKnown), payload, results) else old(lastKnown)
      ensures (forall i :: 0 <= i < |results| ==> !results[i].success) ==> ok && lastKnown == old(lastKnown)
      ensures ok && (exists i :: 0 <= i < |results| && results[i].success) ==>
                && (forall i :: 0 <= i < |results| && results[i].merged.Present?
                                && (forall j :: 0 <= j < i ==> results[j].merged.Missing?) ==>
                      lastKnown == Some(results[i].merged.bundle.GetOr([])))
                && ((forall i :: 0 <= i < |results| ==> results[i].merged.Missing?) ==>
                      lastKnown == if payload.Present? then Some(payload.bundle.GetOr([])) else old(lastKnown))
    {
      FirstMergedIsFirst(results);
      ok := true;
      if !exists r :: r in results && r.success {
        return;
      }
      var commit := if payload.Present? then Some(payload.bundle.GetOr([])) else None;
      var i := 0;
      while i < |results|
        invariant 0 <= i <= |results| && FirstMerged(results) == FirstMerged(results[i..])
        invariant commit == if payload.Present? then Some(payload.bundle.GetOr([])) else None
      {
        if results[i].merged.Present? {
          commit := Some(results[i].merged.bundle.GetOr([]));
          break;
        }
        i := i + 1;
      }
      if commit.Some? {
        ok := CommitLastKnown(commit);
      }
    }
  }

  /**
   * One upload: collect, then finish the sync with what was collected. A deliberate plugin reset, an empty collect
   * over entries, is kept back until the sync that uploads it succeeds.
   */
  method CollectThenSync(bridge: Bridge, api: Api, results: seq<SyncResult>)
    returns (result: CollectResult, ghost collected: Option<CollectAnswer>, ghost between: Option<Bundle>)
    requires bridge.Valid()
    modifies bridge
    ensures bridge.Valid()
    ensures result.Returned? ==>
              result.bundle == if Live(collected).Some? then Live(collected)
                               else if api.hasCollect && bridge.pending.Some? then bridge.pending else between
    ensures Live(collected) == Some([]) && HasEntries(old(bridge.lastKnown)) ==> between == old(bridge.lastKnown)
    ensures Live(collected).Some? && bridge.rejected == old(bridge.rejected) ==>
              bridge.lastKnown == AfterSync(AfterCollect(old(bridge.lastKnown), Live(collected).value),
                                            Present(Live(collected)), results)
    ensures && Live(collected) == Some([]) && HasEntries(old(bridge.lastKnown))
            && bridge.rejected == old(bridge.rejected) && (forall r :: r in results ==> r.merged.Missing?)
            ==> bridge.lastKnown == if AnySuccess(results) then Some([]) else old(bridge.lastKnown)
  {
    ghost var replay;
    result, replay, collected := bridge.Collect(false, api);
    between := bridge.lastKnown;
    if result.Returned? && result.bundle.Some? {
      var _ := bridge.CommitAfterSuccessfulSync(Present(result.bundle), results);
    }
    if (forall r :: r in results ==> r.merged.Missing?) && HasEntries(old(bridge.lastKnown)) {
      EmptyResetIsDeferred(old(bridge.lastKnown), results);
    }
  }
}
