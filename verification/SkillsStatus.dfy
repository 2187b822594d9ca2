/**
 * The user skills status cache (components/AIChatSidePanel.tsx:130-190): one result, one shared request, and
 * a version that invalidation increments. A response is delivered and later finalised in separate steps.
 */
module SkillsStatus {
  import opened Prelude

  const TTL_MS: int := 60000

  /** What a caller gets: a status, null, or undefined for a response that was overtaken. */
  datatype Status = Skills(text: string) | Null | Undefined

  datatype Cached = Cached(version: nat, result: Status, updatedAt: int)

  datatype Request = Request(version: nat, delivered: bool)

  datatype Loaded = Now(status: Status) | Shared(request: nat)

  class SkillsCache {
    var cache: Option<Cached>
    /** The shared request and the version it was made for. */
    var shared: Option<(nat, nat)>
    var version: nat
    var requests: map<nat, Request>
    var nextRequest: nat
    /** Every status ever received, with the version it was requested at. */
    ghost var received: set<(nat, Status)>

    ghost predicate Valid()
      reads this
    {
      && (cache.Some? ==> cache.value.version == version && (version, cache.value.result) in received)
      && (shared.Some? ==>
            && shared.value.1 == version && shared.value.0 in requests
            && requests[shared.value.0].version == version)
      && (forall r :: r in requests ==> r < nextRequest && requests[r].version <= version)
      && (forall r :: r in requests && requests[r].version == version ==> shared == Some((r, version)))
      && (forall r, q :: r in requests && q in requests && requests[r].version == requests[q].version ==> r == q)
    }

    constructor ()
      ensures Valid() && version == 0 && cache == None && requests == map[]
    {
      cache, shared, version, requests, nextRequest, received := None, None, 0, map[], 0, {};
    }

    /** Lines 142-146. */
    method Invalidate()
      requires Valid()
      modifies this
      ensures Valid() && version == old(version) + 1 && cache == None && shared == None
      ensures requests == old(requests) && received == old(received)
    {
      version := version + 1;
      cache, shared := None, None;
    }

    /** Lines 152-190: a request is started only when the version has none. */
    method Load(bridge: bool, now: int) returns (result: Loaded)
      requires Valid()
      modifies this
      ensures Valid() && version == old(version) && received >= old(received)
      ensures !bridge ==> result == Now(Null) && cache == Some(Cached(version, Null, now))
      ensures bridge ==> (result.Now? <==> old(cache).Some? && now - old(cache).value.updatedAt < 60000)
      ensures result.Shared? ==>
                (requests == old(requests) <==> exists r :: r in old(requests) && old(requests)[r].version == version)
      ensures result.Shared? ==>
                && result.request in requests && requests[result.request].version == version && cache == old(cache)
      ensures result.Now? ==> requests == old(requests) && (version, result.status) in received
      ensures result.Now? && bridge ==> cache == old(cache) && cache.Some? && now - cache.value.updatedAt < TTL_MS
                                        && result.status == cache.value.result
      ensures result.Shared? && requests != old(requests) ==>
                && result.request !in old(requests)
                && requests == old(requests)[result.request := Request(version, false)]
                && forall r :: r in old(requests) ==> old(requests)[r].version != version
    {
      if !bridge {
        cache := Some(Cached(version, Null, now));
        received := received + {(version, Null)};
        return Now(Null);
      }
      if cache.Some? && cache.value.version == version && now - cache.value.updatedAt < TTL_MS {
        return Now(cache.value.result);
      }
      if shared.None? || shared.value.1 != version {
        var request := nextRequest;
        requests := requests[request := Request(version, false)];
        nextRequest := request + 1;
        shared := Some((request, version));
      }
      return Shared(shared.value.0);
    }

    /** Lines 171-180: the response, or None for a failed request. */
    method Deliver(request: nat, response: Option<Status>, now: int) returns (status: Status)
      requires Valid() && request in requests && !requests[request].delivered
      modifies this
      ensures Valid() && version == old(version) && shared == old(shared)
      ensures requests == old(requests)[request := old(requests)[request].(delivered := true)]
      ensures old(requests)[request].version != version ==> status == Undefined && cache == old(cache)
      ensures old(requests)[request].version == version ==>
                && status == response.GetOr(Null)
                && cache == Some(Cached(version, status, now))
    {
      var requestVersion := requests[request].version;
      requests := requests[request := requests[request].(delivered := true)];
      if version != requestVersion {
        return Undefined;
      }
      status := response.GetOr(Null);
      cache := Some(Cached(requestVersion, status, now));
      received := received + {(requestVersion, status)};
    }

    /** Lines 181-185. */
    method Finalise(request: nat)
      requires Valid() && request in requests && requests[request].delivered
      modifies this
      ensures Valid() && version == old(version) && cache == old(cache)
      ensures requests == old(requests) - {request}
      ensures shared == if old(requests)[request].version == version then None else old(shared)
    {
      if shared.Some? && shared.value.1 == requests[request].version {
        shared := None;
      }
      requests := requests - {request};
    }
  }
}
