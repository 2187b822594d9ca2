/**
 * AI providers and per-agent bindings after a settings sync (application/syncPayload.ts:425-442, 925-979,
 * 1023-1056). Providers keep the local API key unless the payload brings one; bindings to providers that
 * are not stored are dropped together with the saved model.
 */
module AiBindings {
  import opened Prelude

  datatype Provider = Provider(
    id: Option<string>,
    name: string,
    apiKey: Option<string>,
    customHeaders: Option<string>)

  datatype AiPayload = AiPayload(
    providers: Option<seq<Provider>>,
    agentModelMap: Option<map<string, string>>,
    agentProviderMap: Option<map<string, string>>,
    hasWebSearch: bool)

  /** The stored provider with this id; of several, the last. */
  function LocalById(local: seq<Provider>, id: string): Option<Provider> {
    if local == [] then None
    else if local[|local| - 1].id == Some(id) then Some(local[|local| - 1])
    else LocalById(local[..|local| - 1], id)
  }

  function MergeProvider(incoming: Provider, local: Option<Provider>): Provider {
    if local.None? then incoming
    else incoming.(
      apiKey := if incoming.apiKey.None? then local.value.apiKey else incoming.apiKey,
      customHeaders := if incoming.customHeaders.None? then local.value.customHeaders else incoming.customHeaders)
  }

  function MergeProviders(incoming: seq<Provider>, local: seq<Provider>): (r: seq<Provider>)
    ensures |r| == |incoming|
  {
    if incoming == [] then []
    else
      var found := if incoming[0].id.None? then None else LocalById(local, incoming[0].id.value);
      [MergeProvider(incoming[0], found)] + MergeProviders(incoming[1..], local)
  }

  lemma {:induction false} LocalByIdIsLast(local: seq<Provider>, id: string)
    ensures LocalById(local, id).Some? <==> exists p :: p in local && p.id == Some(id)
    ensures LocalById(local, id).Some? ==>
              exists i :: 0 <= i < |local| && local[i] == LocalById(local, id).value && local[i].id == Some(id)
                          && forall j :: i < j < |local| ==> local[j].id != Some(id)
  {
    if local != [] {
      var front, last := local[..|local| - 1], local[|local| - 1];
      assert local == front + [last];
      if last.id != Some(id) {
        LocalByIdIsLast(front, id);
        if LocalById(front, id).Some? {
          var i :| 0 <= i < |front| && front[i] == LocalById(front, id).value && front[i].id == Some(id)
                   && forall j :: i < j < |front| ==> front[j].id != Some(id);
          assert local[i] == front[i];
        }
      } else {
        assert last in local;
      }
    }
  }

  /** The stored provider at `i` is the last one with this id. */
  ghost predicate IsLastOf(local: seq<Provider>, i: int, id: Option<string>) {
    id.Some? && 0 <= i < |local| && local[i].id == id && forall j :: i < j < |local| ==> local[j].id != id
  }

  /**
   * The same provider with its own key and headers if it brings them, else with those of the last stored provider
   * of the same id, and else with none.
   */
  ghost predicate KeysKept(given: Provider, local: seq<Provider>, r: Provider) {
    && r.id == given.id && r.name == given.name
    && (given.apiKey.Some? ==> r.apiKey == given.apiKey)
    && (given.customHeaders.Some? ==> r.customHeaders == given.customHeaders)
    && (forall i :: IsLastOf(local, i, given.id) ==>
          && (given.apiKey.None? ==> r.apiKey == local[i].apiKey)
          && (given.customHeaders.None? ==> r.customHeaders == local[i].customHeaders))
    && ((forall i :: !IsLastOf(local, i, given.id)) ==>
          r.apiKey == given.apiKey && r.customHeaders == given.customHeaders)
  }

  ghost predicate AllKeysKept(given: seq<Provider>, local: seq<Provider>, r: seq<Provider>) {
    |r| == |given| && forall i :: 0 <= i < |r| ==> KeysKept(given[i], local, r[i])
  }

  lemma OneProvider(given: Provider, local: seq<Provider>)
    ensures KeysKept(given, local, MergeProvider(given, if given.id.None? then None
                                                        else LocalById(local, given.id.value)))
  {
    if given.id.Some? {
      var id := given.id.value;
      LocalByIdIsLast(local, id);
      if LocalById(local, id).Some? {
        var i :| 0 <= i < |local| && local[i] == LocalById(local, id).value && local[i].id == Some(id)
                 && forall j :: i < j < |local| ==> local[j].id != Some(id);
        assert IsLastOf(local, i, given.id);
        assert forall k :: IsLastOf(local, k, given.id) ==> k == i;
      }
    }
  }

  lemma {:induction false} MergeKeepsKeys(incoming: seq<Provider>, local: seq<Provider>, i: nat)
    requires i < |incoming|
    ensures KeysKept(incoming[i], local, MergeProviders(incoming, local)[i])
  {
    if i > 0 {
      MergeKeepsKeys(incoming[1..], local, i - 1);
      assert incoming[i] == incoming[1..][i - 1];
    } else {
      OneProvider(incoming[0], local);
    }
  }

  lemma MergeKeepsAllKeys(incoming: seq<Provider>, local: seq<Provider>)
    ensures AllKeysKept(incoming, local, MergeProviders(incoming, local))
  {
    forall i | 0 <= i < |incoming| ensures KeysKept(incoming[i], local, MergeProviders(incoming, local)[i]) {
      MergeKeepsKeys(incoming, local, i);
    }
  }

  // ---- Bindings ----

  predicate Stored(providers: seq<Provider>, id: string) {
    id != "" && exists p :: p in providers && p.id == Some(id)
  }

  ghost predicate AllBound(providers: seq<Provider>, bindings: map<string, string>) {
    forall agent :: agent in bindings ==> Stored(providers, bindings[agent])
  }

  function PrunedBindings(providers: seq<Provider>, bindings: map<string, string>): map<string, string> {
    map agent | agent in bindings && Stored(providers, bindings[agent]) :: bindings[agent]
  }

  function PrunedModels(providers: seq<Provider>, bindings: map<string, string>, models: map<string, string>)
    : map<string, string>
  {
    models - (bindings.Keys - PrunedBindings(providers, bindings).Keys)
  }

  /** After a reconcile every binding is good, and a second reconcile changes nothing. */
  lemma ReconcileSettles(providers: seq<Provider>, bindings: map<string, string>, models: map<string, string>)
    ensures var b, m := PrunedBindings(providers, bindings), PrunedModels(providers, bindings, models);
            && AllBound(providers, b)
            && PrunedBindings(providers, b) == b && PrunedModels(providers, b, m) == m
            && (AllBound(providers, bindings) <==> b == bindings)
            && (forall agent :: agent in models ==>
                  (agent !in m <==> agent in bindings && agent !in b))
  {
  }

  /** The loop state of a reconcile: the agents outside `rest` are decided. */
  ghost predicate PrunedSoFar(providers: seq<Provider>, bindings: map<string, string>, models: map<string, string>,
                              rest: set<string>, nextBindings: map<string, string>, nextModels: map<string, string>)
  {
    && nextBindings == (map a | a in bindings && a !in rest && Stored(providers, bindings[a]) :: bindings[a])
    && nextModels == models - (bindings.Keys - rest - nextBindings.Keys)
  }

  lemma OneMoreAgent(providers: seq<Provider>, bindings: map<string, string>, models: map<string, string>,
                     rest: set<string>, agent: string, nextBindings: map<string, string>,
                     nextModels: map<string, string>)
    requires agent in rest && rest <= bindings.Keys
    requires PrunedSoFar(providers, bindings, models, rest, nextBindings, nextModels)
    ensures if Stored(providers, bindings[agent])
            then PrunedSoFar(providers, bindings, models, rest - {agent},
                             nextBindings[agent := bindings[agent]], nextModels)
            else PrunedSoFar(providers, bindings, models, rest - {agent}, nextBindings, nextModels - {agent})
    ensures agent !in nextModels ==> nextModels - {agent} == nextModels
  {
  }

  lemma AllAgentsDone(providers: seq<Provider>, bindings: map<string, string>, models: map<string, string>,
                      nextBindings: map<string, string>, nextModels: map<string, string>)
    requires PrunedSoFar(providers, bindings, models, {}, nextBindings, nextModels)
    ensures nextBindings == PrunedBindings(providers, bindings) &&
            nextModels == PrunedModels(providers, bindings, models)
    ensures AllBound(providers, bindings) ==> nextBindings == bindings
  {
  }

  /** The loop of pruneOrphanPerAgentBindings, over agents in any order. */
  method SplitBindings(providers: seq<Provider>, bindings: map<string, string>, models: map<string, string>)
    returns (nextBindings: map<string, string>, nextModels: map<string, string>, bindingChanged: bool,
             modelChanged: bool)
    ensures nextBindings == PrunedBindings(providers, bindings) &&
            nextModels == PrunedModels(providers, bindings, models)
    ensures bindingChanged <==> nextBindings != bindings
    ensures modelChanged <==> nextModels != models
  {
    nextBindings, nextModels, bindingChanged, modelChanged := map[], models, false, false;
    var rest := bindings.Keys;
    while rest != {}
      invariant rest <= bindings.Keys
      invariant PrunedSoFar(providers, bindings, models, rest, nextBindings, nextModels)
      invariant bindingChanged <==> exists a :: a in bindings && a !in rest && !Stored(providers, bindings[a])
      invariant modelChanged <==> nextModels != models
      decreases |rest|
    {
      var agent :| agent in rest;
      OneMoreAgent(providers, bindings, models, rest, agent, nextBindings, nextModels);
      rest := rest - {agent};
      if Stored(providers, bindings[agent]) {
        nextBindings := nextBindings[agent := bindings[agent]];
      } else {
        bindingChanged := true;
        if agent in nextModels {
          nextModels := nextModels - {agent};
          modelChanged := true;
        }
      }
    }
    AllAgentsDone(providers, bindings, models, nextBindings, nextModels);
  }

  /** The settings that matter here, as values. */
  datatype Settings = Settings(providers: seq<Provider>, bindings: map<string, string>, models: map<string, string>)

  /** Which of the writes storage keeps; one that it drops leaves the old value, and nobody is told. */
  datatype Writes = Writes(providers: bool, models: bool, bindings: bool, prunedBindings: bool, prunedModels: bool)

  /** What a reconcile leaves. */
  function Reconciled(s: Settings, w: Writes): Settings {
    s.(bindings := if w.prunedBindings then PrunedBindings(s.providers, s.bindings) else s.bindings,
       models := if w.prunedModels then PrunedModels(s.providers, s.bindings, s.models) else s.models)
  }

  /** The binding of this agent names a stored provider. */
  ghost predicate BoundTo(s: Settings, agent: string) {
    agent in s.bindings && s.bindings[agent] != "" &&
    exists i :: 0 <= i < |s.providers| && s.providers[i].id == Some(s.bindings[agent])
  }

  ghost predicate AllBoundTo(s: Settings) {
    forall agent :: agent in s.bindings ==> BoundTo(s, agent)
  }

  /** Where storage keeps the writes, exactly the other bindings go, and with them the models of their agents. */
  ghost predicate IsReconciled(before: Settings, after: Settings, w: Writes) {
    && after.providers == before.providers
    && (!w.prunedBindings ==> after.bindings == before.bindings)
    && (!w.prunedModels ==> after.models == before.models)
    && (w.prunedBindings ==> forall agent ::
          && (agent in after.bindings <==> BoundTo(before, agent))
          && (agent in after.bindings ==> after.bindings[agent] == before.bindings[agent]))
    && (w.prunedModels ==> forall agent ::
          && (agent in after.models <==>
                agent in before.models && (agent in before.bindings ==> BoundTo(before, agent)))
          && (agent in after.models ==> after.models[agent] == before.models[agent]))
  }

  lemma ReconciledExactly(s: Settings, w: Writes)
    ensures IsReconciled(s, Reconciled(s, w), w)
    ensures AllBoundTo(Reconciled(s, w)) <==> w.prunedBindings || AllBoundTo(s)
  {
    forall agent | agent in s.bindings ensures BoundTo(s, agent) <==> Stored(s.providers, s.bindings[agent]) {
    }
  }

  /** Afterwards every binding is good exactly if storage kept the pruned ones, or they were good before. */
  lemma GoodUnlessDropped(s: Settings, w: Writes)
    ensures AllBound(s.providers, Reconciled(s, w).bindings) <==> w.prunedBindings || AllBound(s.providers, s.bindings)
  {
    ReconcileSettles(s.providers, s.bindings, s.models);
  }

  /** An orphan binding stays when storage drops the pruned ones, although its model goes. */
  lemma OrphanStays(agent: string, provider: string, model: string)
    ensures var s := Settings([], map[agent := provider], map[agent := model]);
            var after := Reconciled(s, Writes(true, true, true, false, true));
            after.bindings == map[agent := provider] && after.models == map[] && !AllBound([], after.bindings)
  {
    var bindings := map[agent := provider];
    assert PrunedBindings([], bindings) == map[];
    assert map[agent := model] - bindings.Keys == map[];
    assert agent in bindings && !Stored([], bindings[agent]);
  }

  class AiSettings {
    var providers: seq<Provider>
    var agentProviders: map<string, string>
    var agentModels: map<string, string>

    constructor ()
      ensures providers == [] && agentProviders == map[] && agentModels == map[]
    {
      providers, agentProviders, agentModels := [], map[], map[];
    }

    function Now(): Settings
      reads this
    {
      Settings(providers, agentProviders, agentModels)
    }

    /** pruneOrphanPerAgentBindings. */
    method Reconcile(w: Writes)
      modifies `agentProviders, `agentModels
      ensures Now() == Reconciled(old(Now()), w) && IsReconciled(old(Now()), Now(), w)
      ensures AllBoundTo(Now()) <==> w.prunedBindings || AllBoundTo(old(Now()))
    {
      var nextProviders, nextModels, providerChanged, modelChanged :=
        SplitBindings(providers, agentProviders, agentModels);
      ReconciledExactly(Now(), w);
      if providerChanged && w.prunedBindings {
        agentProviders := nextProviders;
      }
      if modelChanged && w.prunedModels {
        agentModels := nextModels;
      }
    }

    /** Awaiting the encryption of the web search key: other code may write the same settings. */
    method AwaitOthers()
      modifies this
    {
      providers, agentProviders, agentModels := *, *, *;
    }

    /** The payload's own writes; the providers keep the local keys that it does not bring. */
    method WritePayload(payload: AiPayload, w: Writes)
      modifies this
      ensures if payload.providers.Some? && w.providers
              then AllKeysKept(payload.providers.value, old(providers), providers) else providers == old(providers)
      ensures agentProviders == if w.bindings then payload.agentProviderMap.GetOr(old(agentProviders))
                                else old(agentProviders)
      ensures agentModels == if w.models then payload.agentModelMap.GetOr(old(agentModels)) else old(agentModels)
    {
      if payload.providers.Some? && w.providers {
        MergeKeepsAllKeys(payload.providers.value, providers);
        providers := MergeProviders(payload.providers.value, providers);
      }
      if payload.agentModelMap.Some? && w.models {
        agentModels := payload.agentModelMap.value;
      }
      if payload.agentProviderMap.Some? && w.bindings {
        agentProviders := payload.agentProviderMap.value;
      }
    }

    /**
     * The AI part of applySyncableSettings: `written` is what its own writes leave, `met` what the reconcile finds.
     * The two differ only if there is a web search key to encrypt in between.
     */
    method Apply(payload: AiPayload, w: Writes) returns (ghost written: Settings, ghost met: Settings)
      modifies this
      ensures if payload.providers.Some? && w.providers
              then AllKeysKept(payload.providers.value, old(providers), written.providers)
              else written.providers == old(providers)
      ensures written.bindings == if w.bindings then payload.agentProviderMap.GetOr(old(agentProviders))
                                  else old(agentProviders)
      ensures written.models == if w.models then payload.agentModelMap.GetOr(old(agentModels)) else old(agentModels)
      ensures !payload.hasWebSearch ==> met == written
      ensures Now() == Reconciled(met, w) && IsReconciled(met, Now(), w)
      ensures AllBoundTo(Now()) <==> w.prunedBindings || AllBoundTo(met)
    {
      WritePayload(payload, w);
      written := Now();
      if payload.hasWebSearch {
        AwaitOthers();
      }
      met := Now();
      Reconcile(w);
    }
  }
}
