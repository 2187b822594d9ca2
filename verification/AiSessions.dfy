/**
 * Applying downloaded chat sessions (application/syncPayload.ts:1283-1336) over the session union of
 * domain/syncMerge.ts:350-441. Two awaits let other code change the sessions: stopping the affected ones before the
 * merge, and cleaning up the reset ones (application/state/aiStateSnapshots.ts:72-76) between saving and publishing.
 * How two copies of one session are merged, and which part of a message is portable, stay parameters.
 */
module AiSessions {
  import opened Prelude

  datatype Session = Session(id: string, messages: seq<string>, thread: Option<string>, details: string)

  /** portable compares transcripts; strip drops device state; pair merges two copies of one session;
   * limit is what local retention keeps. */
  datatype Rules = Rules(
    portable: seq<string> -> seq<string>,
    strip: Session -> Session,
    pair: (Session, Session) -> Session,
    limit: seq<Session> -> seq<Session>)

  ghost predicate KeepsIds(rules: Rules) {
    && (forall s: Session :: rules.strip(s).id == s.id)
    && (forall a: Session, b: Session :: a.id == b.id ==> rules.pair(a, b).id == a.id)
  }

  function Ids(list: seq<Session>): set<string> { set s | s in list :: s.id }

  function Without(list: seq<Session>, ids: set<string>): seq<Session> {
    if list == [] then []
    else (if list[0].id in ids then [] else [list[0]]) + Without(list[1..], ids)
  }

  function Within(list: seq<Session>, ids: set<string>): seq<Session> {
    if list == [] then []
    else (if list[0].id in ids then [list[0]] else []) + Within(list[1..], ids)
  }

  /** As a Map built from the list: of several sessions with one id, the last. */
  function FindLast(list: seq<Session>, id: string): (r: Option<Session>)
    ensures r.Some? ==> r.value in list && r.value.id == id
    ensures r.None? ==> forall s :: s in list ==> s.id != id
  {
    if list == [] then None
    else if list[|list| - 1].id == id then Some(list[|list| - 1])
    else
      assert list == list[..|list| - 1] + [list[|list| - 1]];
      FindLast(list[..|list| - 1], id)
  }

  lemma {:induction false} FindLastIsLast(list: seq<Session>, id: string) returns (i: nat)
    requires FindLast(list, id).Some?
    ensures i < |list| && list[i] == FindLast(list, id).value
    ensures forall j :: i < j < |list| ==> list[j].id != id
  {
    if list[|list| - 1].id == id {
      i := |list| - 1;
    } else {
      i := FindLastIsLast(list[..|list| - 1], id);
    }
  }

  function DistinctIds(list: seq<Session>): (r: seq<string>)
    ensures forall id :: id in r <==> id in Ids(list)
    ensures forall i, j :: 0 <= i < j < |r| ==> r[i] != r[j]
  {
    if list == [] then []
    else
      var front := DistinctIds(list[..|list| - 1]);
      assert list == list[..|list| - 1] + [list[|list| - 1]];
      if list[|list| - 1].id in front then front else front + [list[|list| - 1].id]
  }

  function MergeOne(rules: Rules, local: Option<Session>, incoming: Option<Session>): Session
    requires local.Some? || incoming.Some?
  {
    if local.None? then incoming.value
    else if incoming.None? then local.value
    else rules.pair(local.value, incoming.value)
  }

  lemma MergeOneKeepsId(rules: Rules, local: Option<Session>, incoming: Option<Session>, id: string)
    requires KeepsIds(rules) && (local.Some? || incoming.Some?)
    requires (local.Some? ==> local.value.id == id) && (incoming.Some? ==> incoming.value.id == id)
    ensures MergeOne(rules, local, incoming).id == id
  {
  }

  lemma IdsOf(list: seq<Session>, ids: seq<string>, other: seq<Session>)
    requires |list| == |ids| && forall i :: 0 <= i < |list| ==> list[i].id == ids[i]
    requires forall id :: id in ids <==> id in Ids(other)
    ensures Ids(list) == Ids(other)
  {
  }

  /** A session found on one side only is taken as it is; of two copies, the last ones are merged. */
  predicate MergedFrom(rules: Rules, local: seq<Session>, incoming: seq<Session>, s: Session) {
    var l, d := FindLast(local, s.id), FindLast(incoming, s.id);
    && (l.Some? || d.Some?)
    && (d.None? ==> s == l.value)
    && (l.None? ==> s == d.value)
    && (l.Some? && d.Some? ==> s == rules.pair(l.value, d.value))
  }

  /** mergeAiSessionLists: one session per id found on either side. */
  function MergeLists(rules: Rules, local: seq<Session>, incoming: seq<Session>): (r: seq<Session>)
    requires KeepsIds(rules)
    ensures Ids(r) == Ids(local) + Ids(incoming)
    ensures forall i, j :: 0 <= i < j < |r| ==> r[i].id != r[j].id
    ensures forall i :: 0 <= i < |r| ==> MergedFrom(rules, local, incoming, r[i])
    ensures |r| == |DistinctIds(local + incoming)|
    ensures forall i :: 0 <= i < |r| ==> r[i].id == DistinctIds(local + incoming)[i]
  {
    var ids := DistinctIds(local + incoming);
    var r := seq(|ids|, i requires 0 <= i < |ids| =>
      assert ids[i] in Ids(local + incoming);
      MergeOne(rules, FindLast(local, ids[i]), FindLast(incoming, ids[i])));
    assert forall i :: 0 <= i < |ids| ==> r[i].id == ids[i] && MergedFrom(rules, local, incoming, r[i]) by {
      forall i | 0 <= i < |ids| ensures r[i].id == ids[i] && MergedFrom(rules, local, incoming, r[i]) {
        assert ids[i] in Ids(local + incoming);
        MergeOneKeepsId(rules, FindLast(local, ids[i]), FindLast(incoming, ids[i]), ids[i]);
      }
    }
    assert Ids(r) == Ids(local) + Ids(incoming) by { IdsOf(r, ids, local + incoming); }
    r
  }

  lemma {:induction false} SplitIds(list: seq<Session>, ids: set<string>)
    ensures forall s :: s in Without(list, ids) <==> s in list && s.id !in ids
    ensures forall s :: s in Within(list, ids) <==> s in list && s.id in ids
  {
    if list != [] {
      SplitIds(list[1..], ids);
      assert list == [list[0]] + list[1..];
    }
  }

  lemma IdsWithout(list: seq<Session>, ids: set<string>)
    ensures Ids(Without(list, ids)) == Ids(list) - ids
  {
    SplitIds(list, ids);
  }

  /** The device's thread survives only if the device already holds the whole portable transcript. */
  function Rethread(rules: Rules, local: Option<Session>, s: Session): Session {
    if local.Some? && rules.portable(local.value.messages) == rules.portable(s.messages)
    then s.(thread := if local.value.thread == Some("") then None else local.value.thread)
    else s.(thread := None)
  }

  /** Equal but for the device's thread. */
  predicate SameButThread(a: Session, b: Session) {
    a.id == b.id && a.messages == b.messages && a.details == b.details
  }

  predicate Changed(rules: Rules, local: Option<Session>, s: Session) {
    local.Some? && rules.portable(local.value.messages) != rules.portable(s.messages)
  }

  /** A native thread is attached exactly when the device has one and holds this very transcript. */
  predicate OwnThread(rules: Rules, local: seq<Session>, s: Session) {
    var l := FindLast(local, s.id);
    && (s.thread.Some? <==>
          && l.Some? && rules.portable(l.value.messages) == rules.portable(s.messages)
          && l.value.thread.Some? && l.value.thread.value != "")
    && (s.thread.Some? ==> s.thread == l.value.thread)
  }

  /** The stored session with this id has a transcript that its native thread does not contain. */
  predicate Outgrown(rules: Rules, local: seq<Session>, stored: seq<Session>, id: string) {
    var l := FindLast(local, id);
    l.Some? && exists s :: s in stored && s.id == id && rules.portable(l.value.messages) != rules.portable(s.messages)
  }

  lemma StripKeepsIds(downloaded: seq<Session>, stripped: seq<Session>)
    requires |stripped| == |downloaded|
    requires forall i :: 0 <= i < |downloaded| ==> stripped[i].id == downloaded[i].id
    ensures Ids(stripped) == Ids(downloaded)
  {
  }

  /** The survivors with their thread decided, one by one. */
  ghost predicate Rethreaded(rules: Rules, local: seq<Session>, survivors: seq<Session>, merged: seq<Session>) {
    |merged| == |survivors| &&
    forall j :: 0 <= j < |merged| ==> merged[j] == Rethread(rules, FindLast(local, survivors[j].id), survivors[j])
  }

  lemma EachRethreaded(rules: Rules, local: seq<Session>, survivors: seq<Session>, merged: seq<Session>)
    requires Rethreaded(rules, local, survivors, merged)
    ensures forall s :: s in merged ==>
              OwnThread(rules, local, s) && exists c :: c in survivors && SameButThread(s, c)
  {
    forall s | s in merged
      ensures OwnThread(rules, local, s) && exists c :: c in survivors && SameButThread(s, c)
    {
      var j :| 0 <= j < |merged| && merged[j] == s;
      assert survivors[j] in survivors && SameButThread(s, survivors[j]);
    }
  }

  lemma ResetsAre(rules: Rules, local: seq<Session>, survivors: seq<Session>, merged: seq<Session>, id: string)
    requires Rethreaded(rules, local, survivors, merged)
    ensures Outgrown(rules, local, merged, id) <==>
              exists j :: 0 <= j < |merged| && survivors[j].id == id &&
                          Changed(rules, FindLast(local, id), survivors[j])
  {
    if j :| 0 <= j < |merged| && survivors[j].id == id && Changed(rules, FindLast(local, id), survivors[j]) {
      assert merged[j] in merged && merged[j].id == id;
    }
    if Outgrown(rules, local, merged, id) {
      var l := FindLast(local, id);
      var s :| s in merged && s.id == id && rules.portable(l.value.messages) != rules.portable(s.messages);
      var j :| 0 <= j < |merged| && merged[j] == s;
      assert Changed(rules, l, survivors[j]);
    }
  }

  lemma Assembled(rules: Rules, local: seq<Session>, survivors: seq<Session>, merged: seq<Session>, resets: seq<string>,
                  active: set<string>)
    requires Rethreaded(rules, local, survivors, merged)
    requires forall s :: s in survivors ==> s.id !in active
    requires forall id :: id in resets <==>
               exists j :: 0 <= j < |merged| && survivors[j].id == id &&
                           Changed(rules, FindLast(local, id), survivors[j])
    ensures var all := merged + Within(local, active);
            && Ids(all) == Ids(survivors) + (Ids(local) * active)
            && (forall s: Session :: s.id in active ==> (s in all <==> s in local))
            && (forall s :: s in all && s.id !in active ==>
                  OwnThread(rules, local, s) && exists c :: c in survivors && SameButThread(s, c))
            && (forall id :: id in resets <==> id !in active && Outgrown(rules, local, all, id))
  {
    var all := merged + Within(local, active);
    SplitIds(local, active);
    StripKeepsIds(survivors, merged);
    EachRethreaded(rules, local, survivors, merged);
    forall s | s in merged ensures s.id !in active {
      var c :| c in survivors && SameButThread(s, c);
    }
    forall id ensures id in resets <==> id !in active && Outgrown(rules, local, all, id) {
      ResetsAre(rules, local, survivors, merged, id);
      assert id !in active ==> (Outgrown(rules, local, all, id) <==> Outgrown(rules, local, merged, id));
      assert Outgrown(rules, local, merged, id) ==> id !in active;
    }
  }

  /** The merged list: survivors with their thread decided, then the untouchable local sessions. */
  method Assemble(rules: Rules, local: seq<Session>, survivors: seq<Session>, active: set<string>)
    returns (merged: seq<Session>, resets: seq<string>)
    requires forall s :: s in survivors ==> s.id !in active
    ensures Ids(merged) == Ids(survivors) + (Ids(local) * active)
    ensures forall s: Session :: s.id in active ==> (s in merged <==> s in local)
    ensures forall s :: s in merged && s.id !in active ==>
              OwnThread(rules, local, s) && exists c :: c in survivors && SameButThread(s, c)
    ensures forall id :: id in resets <==> id !in active && Outgrown(rules, local, merged, id)
    ensures |merged| >= |survivors| && merged[|survivors|..] == Within(local, active)
    ensures forall j :: 0 <= j < |survivors| ==> merged[j].id == survivors[j].id
  {
    merged, resets := [], [];
    for i := 0 to |survivors|
      invariant |merged| == i && Rethreaded(rules, local, survivors[..i], merged)
      invariant forall id :: id in resets <==>
                  exists j :: 0 <= j < i && survivors[j].id == id && Changed(rules, FindLast(local, id), survivors[j])
    {
      var session := survivors[i];
      var previous := FindLast(local, session.id);
      if Changed(rules, previous, session) {
        resets := resets + [session.id];
      }
      merged := merged + [Rethread(rules, previous, session)];
    }
    assert survivors[..|survivors|] == survivors;
    Assembled(rules, local, survivors, merged, resets, active);
    merged := merged + Within(local, active);
  }

  function Stripped(rules: Rules, downloaded: seq<Session>): (r: seq<Session>)
    ensures |r| == |downloaded| && forall i :: 0 <= i < |r| ==> r[i] == rules.strip(downloaded[i])
  {
    seq(|downloaded|, i requires 0 <= i < |downloaded| => rules.strip(downloaded[i]))
  }

  /** But for its thread, the session is a restored one, or the downloaded one merged over the local one. */
  predicate Carries(rules: Rules, local: seq<Session>, downloaded: seq<Session>, restore: bool, s: Session) {
    if restore then exists d :: d in downloaded && SameButThread(s, d)
    else
      var l, d := FindLast(local, s.id), FindLast(Stripped(rules, downloaded), s.id);
      d.Some? && SameButThread(s, if l.None? then d.value else rules.pair(l.value, d.value))
  }

  lemma FindLastOf(front: seq<Session>, last: Session, id: string)
    ensures FindLast(front + [last], id) == if last.id == id then Some(last) else FindLast(front, id)
  {
  }

  lemma {:induction false} WithinLast(front: seq<Session>, last: Session, ids: set<string>)
    ensures Within(front + [last], ids) == Within(front, ids) + if last.id in ids then [last] else []
  {
    if front == [] {
      assert front + [last] == [last];
    } else {
      WithinLast(front[1..], last, ids);
      assert (front + [last])[1..] == front[1..] + [last];
    }
  }

  lemma {:induction false} FindWithin(list: seq<Session>, ids: set<string>, id: string)
    requires id in ids
    ensures FindLast(Within(list, ids), id) == FindLast(list, id)
  {
    if list != [] {
      var front, last := list[..|list| - 1], list[|list| - 1];
      assert list == front + [last];
      WithinLast(front, last, ids);
      FindWithin(front, ids, id);
      FindLastOf(front, last, id);
      if last.id in ids {
        FindLastOf(Within(front, ids), last, id);
      } else {
        assert Within(list, ids) == Within(front, ids);
      }
    }
  }

  lemma CandidateIds(rules: Rules, local: seq<Session>, incoming: seq<Session>)
    requires KeepsIds(rules)
    ensures Ids(MergeLists(rules, Within(local, Ids(incoming)), incoming)) == Ids(incoming)
  {
  }

  lemma CarriedOver(rules: Rules, local: seq<Session>, downloaded: seq<Session>, incoming: seq<Session>, restore: bool,
                    candidates: seq<Session>, survivors: seq<Session>)
    requires KeepsIds(rules) && incoming == if restore then downloaded else Stripped(rules, downloaded)
    requires candidates == if restore then incoming else MergeLists(rules, Within(local, Ids(incoming)), incoming)
    requires forall s :: s in survivors ==> s in candidates
    ensures forall s, c :: c in survivors && SameButThread(s, c) ==> Carries(rules, local, downloaded, restore, s)
  {
    forall s, c | c in survivors && SameButThread(s, c) ensures Carries(rules, local, downloaded, restore, s) {
      if !restore {
        assert c.id == s.id && c.id in Ids(candidates);
        CandidateIds(rules, local, incoming);
        FindWithin(local, Ids(incoming), s.id);
        assert MergedFrom(rules, Within(local, Ids(incoming)), incoming, c);
        var d := FindLast(incoming, s.id);
        assert d.Some?;
      }
    }
  }

  /** The sessions in memory, those on disk, and the ids of those with a running turn. */
  datatype Memory = Memory(sessions: seq<Session>, persisted: seq<Session>, streaming: set<string>)

  /** What other code makes of the memory in each of the two awaits, and whether the save succeeds. */
  datatype Course = Course(afterStops: Memory -> Memory, saves: bool, afterCleanup: Memory -> Memory)

  /** The streaming sessions are in both lists alike. */
  ghost predicate SameStreaming(xs: seq<Session>, ys: seq<Session>, active: set<string>) {
    forall s: Session :: s.id in active ==> (s in xs <==> s in ys)
  }

  /** The session must be stopped before it is replaced: it is gone, or its transcript changes. */
  predicate Affected(rules: Rules, incoming: seq<Session>, restore: bool, local: Session) {
    var next := FindLast(incoming, local.id);
    next.None? || rules.portable(local.messages) !=
                  rules.portable((if restore then next.value else rules.pair(local, next.value)).messages)
  }

  lemma SeenAlike(xs: seq<Session>, ys: seq<Session>, zs: seq<Session>, active: set<string>)
    requires SameStreaming(xs, ys, active)
    ensures SameStreaming(xs, zs, active) <==> SameStreaming(zs, ys, active)
  {
  }

  /** Lines 1307-1327: the list to store, the sessions to reset and those that are gone. */
  method MergeDownloaded(rules: Rules, local: seq<Session>, downloaded: seq<Session>, incoming: seq<Session>,
                         restore: bool, active: set<string>)
    returns (merged: seq<Session>, resets: seq<string>, removed: set<string>)
    requires KeepsIds(rules) && incoming == if restore then downloaded else Stripped(rules, downloaded)
    ensures Ids(merged) == (Ids(downloaded) - active) + (Ids(local) * active)
    ensures SameStreaming(merged, local, active)
    ensures forall s :: s in merged && s.id !in active ==>
              OwnThread(rules, local, s) && Carries(rules, local, downloaded, restore, s)
    ensures forall id :: id in resets <==> id !in active && Outgrown(rules, local, merged, id)
    ensures removed == Ids(local) - Ids(downloaded) - active
  {
    if !restore { StripKeepsIds(downloaded, incoming); }
    removed := Ids(local) - Ids(incoming) - active;
    var candidates := if restore then incoming else MergeLists(rules, Within(local, Ids(incoming)), incoming);
    CandidateIds(rules, local, incoming);
    SplitIds(candidates, active);
    var survivors := Without(candidates, active);
    IdsWithout(candidates, active);
    assert Ids(survivors) == Ids(downloaded) - active;
    merged, resets := Assemble(rules, local, survivors, active);
    CarriedOver(rules, local, downloaded, incoming, restore, candidates, survivors);
  }

  ghost predicate UniqueIds(list: seq<Session>) {
    forall s, q :: s in list && q in list && s.id == q.id ==> s == q
  }

  lemma TheOne(list: seq<Session>, s: Session)
    requires UniqueIds(list) && s in list
    ensures FindLast(list, s.id) == Some(s)
  {
  }

  /** Every stored copy of a downloaded session has the transcript that it was compared with. */
  lemma AppliedCopy(rules: Rules, local: seq<Session>, downloaded: seq<Session>, restore: bool, merged: seq<Session>,
                    s: Session)
    requires KeepsIds(rules) && UniqueIds(local) && (restore ==> UniqueIds(downloaded)) && s in local
    requires s.id in Ids(merged) && forall c :: c in merged && c.id == s.id ==>
                                              Carries(rules, local, downloaded, restore, c)
    ensures var incoming := if restore then downloaded else Stripped(rules, downloaded);
            FindLast(incoming, s.id).Some? &&
            (Outgrown(rules, local, merged, s.id) <==> Affected(rules, incoming, restore, s))
  {
    TheOne(local, s);
    var c :| c in merged && c.id == s.id;
    var incoming := if restore then downloaded else Stripped(rules, downloaded);
    forall q | q in merged && q.id == s.id
      ensures FindLast(incoming, s.id).Some?
      ensures var next := FindLast(incoming, s.id).value;
              q.messages == (if restore then next else rules.pair(s, next)).messages
    {
      if restore {
        var d :| d in downloaded && SameButThread(q, d);
        TheOne(downloaded, d);
      }
    }
  }

  /**
   * Sessions are stopped exactly when something is reset or removed: with one session per id, one that can be
   * replaced is affected if and only if the list to store resets or removes a session.
   */
  lemma StopsExactlyForChanges(rules: Rules, local: seq<Session>, downloaded: seq<Session>, restore: bool,
                               active: set<string>, merged: seq<Session>, resets: seq<string>, removed: set<string>)
    requires KeepsIds(rules) && UniqueIds(local) && (restore ==> UniqueIds(downloaded))
    requires Ids(merged) == (Ids(downloaded) - active) + (Ids(local) * active)
    requires forall s :: s in merged && s.id !in active ==> Carries(rules, local, downloaded, restore, s)
    requires forall id :: id in resets <==> id !in active && Outgrown(rules, local, merged, id)
    requires removed == Ids(local) - Ids(downloaded) - active
    ensures var incoming := if restore then downloaded else Stripped(rules, downloaded);
            (exists s :: s in local && s.id !in active && Affected(rules, incoming, restore, s)) <==>
              resets != [] || removed != {}
  {
    var incoming := if restore then downloaded else Stripped(rules, downloaded);
    if !restore { StripKeepsIds(downloaded, incoming); }
    forall s | s in local && s.id !in active
      ensures Affected(rules, incoming, restore, s) <==> s.id in resets || s.id in removed
    {
      TheOne(local, s);
      if s.id in Ids(downloaded) {
        assert s.id in Ids(merged);
        AppliedCopy(rules, local, downloaded, restore, merged, s);
      }
    }
    if resets != [] {
      var id := resets[0];
      assert id in resets && Outgrown(rules, local, merged, id);
    }
    if removed != {} {
      var id :| id in removed;
    }
  }

  class SessionStore {
    var sessions: seq<Session>
    var persisted: seq<Session>
    var streaming: set<string>
    const rules: Rules

    constructor (rules: Rules, memory: Memory)
      ensures Now() == memory && this.rules == rules
    {
      this.rules := rules;
      sessions, persisted, streaming := memory.sessions, memory.persisted, memory.streaming;
    }

    function Now(): Memory
      reads this
    {
      Memory(sessions, persisted, streaming)
    }

    /** Other code runs. */
    method AwaitOthers(others: Memory)
      modifies this
      ensures Now() == others
    {
      sessions, persisted, streaming := others.sessions, others.persisted, others.streaming;
    }

    /** Lines 1328-1334: save, clean up the reset sessions, publish. With nothing to clean up nobody gets in between. */
    method Publish(merged: seq<Session>, resets: seq<string>, syncsChats: bool, c: Course)
      modifies this
      ensures var left := old(Now()).(persisted := if syncsChats then merged else rules.limit(merged));
              Now() == (if resets != [] then c.afterCleanup(left) else left).(sessions := merged)
    {
      persisted := if syncsChats then merged else rules.limit(merged);
      if resets != [] {
        AwaitOthers(c.afterCleanup(Now()));
      }
      sessions := merged;
    }

    /**
     * applyAiSessionData: `settled` is what the merge works on, `found` what publishing replaces. A restore (of a
     * backup) treats nothing as untouchable.
     */
    method Apply(downloaded: seq<Session>, restore: bool, syncsChats: bool, c: Course)
      returns (ok: bool, resets: seq<string>, removed: set<string>, ghost settled: Memory, ghost active: set<string>,
               ghost found: Memory)
      requires KeepsIds(rules)
      modifies this
      ensures ok == c.saves && active == if restore then {} else settled.streaming
      ensures var incoming := if restore then downloaded else Stripped(rules, downloaded);
              settled == if exists s :: s in old(sessions) && (restore || s.id !in old(streaming))
                                        && Affected(rules, incoming, restore, s)
                         then c.afterStops(old(Now())) else old(Now())
      ensures !ok ==> Now() == settled
      ensures ok ==> Ids(sessions) == (Ids(downloaded) - active) + (Ids(settled.sessions) * active)
      ensures ok ==> SameStreaming(sessions, settled.sessions, active)
      ensures ok ==> forall s :: s in sessions && s.id !in active ==>
                OwnThread(rules, settled.sessions, s) && Carries(rules, settled.sessions, downloaded, restore, s)
      ensures ok ==> forall id :: id in resets <==> id !in active && Outgrown(rules, settled.sessions, sessions, id)
      ensures removed == Ids(settled.sessions) - Ids(downloaded) - active
      ensures ok ==> Now() == found.(sessions := sessions)
      ensures ok ==>
                var left := settled.(persisted := if syncsChats then sessions else rules.limit(sessions));
                found == if resets != [] then c.afterCleanup(left) else left
      ensures ok ==> (SameStreaming(sessions, found.sessions, active) <==>
                        SameStreaming(found.sessions, settled.sessions, active))
    {
      var incoming := downloaded;
      if !restore {
        incoming := Stripped(rules, downloaded);
      }
      if exists s :: s in sessions && (restore || s.id !in streaming) && Affected(rules, incoming, restore, s) {
        AwaitOthers(c.afterStops(Now()));
      }
      settled := Now();
      active := if restore then {} else streaming;
      var merged;
      merged, resets, removed := MergeDownloaded(rules, sessions, downloaded, incoming, restore,
                                                 if restore then {} else streaming);
      ok := c.saves;
      found := settled;
      if !ok {
        return;
      }
      Publish(merged, resets, syncsChats, c);
      ghost var left := settled.(persisted := if syncsChats then merged else rules.limit(merged));
      found := if resets != [] then c.afterCleanup(left) else left;
      SeenAlike(merged, settled.sessions, found.sessions, active);
    }
  }

  lemma ChangedIsReset(rules: Rules, a1: Session, a2: Session, local: seq<Session>, stored: seq<Session>,
                       resets: seq<string>, active: set<string>)
    requires a1.id == a2.id && a1.id !in active && rules.pair(a1, a2) == a2 && FindLast(local, a1.id) == Some(a1)
    requires rules.portable(a1.messages) != rules.portable(a2.messages) && Stripped(rules, [a2]) == [a2]
    requires Ids([a2]) - active <= Ids(stored)
    requires forall s :: s in stored && s.id !in active ==> Carries(rules, local, [a2], false, s)
    requires forall id :: id in resets <==> id !in active && Outgrown(rules, local, stored, id)
    ensures resets != []
  {
    assert a2 in [a2] && a2.id in Ids([a2]);
    assert a1.id in Ids([a2]) - active && a1.id in Ids(stored);
    var s :| s in stored && s.id == a1.id;
    assert FindLast([a2], a2.id) == Some(a2);
    assert SameButThread(s, a2) && Changed(rules, Some(a1), s);
    assert a1.id in resets;
  }

  /**
   * A message that reaches the streaming session B while the changed session A is cleaned up is lost, and so is a
   * session C created meanwhile.
   */
  method LosesWhatOthersWrite() returns (store: SessionStore, found: Memory, b: Session, created: Session)
    ensures fresh(store) && b in found.sessions && created in found.sessions && b.id in found.streaming
    ensures b !in store.sessions && created !in store.sessions
  {
    var rules := Rules((m: seq<string>) => m, (s: Session) => s, (x: Session, y: Session) => y, (l: seq<Session>) => l);
    var a1, a2 := Session("A", ["a"], None, ""), Session("A", ["a", "aa"], None, "");
    var b1, b2 := Session("B", ["b"], None, ""), Session("B", ["b", "bb"], None, "");
    var c1 := Session("C", [], None, "");
    var before, after := Memory([a1, b1], [], {"B"}), Memory([a1, b2, c1], [], {"B"});
    store := new SessionStore(rules, before);
    assert Stripped(rules, [a2]) == [a2] && a1 in before.sessions && FindLast([a2], "A") == Some(a2);
    var course := Course((m: Memory) => m, true, (m: Memory) => after);
    var ok, resets, removed, settled, active, overwritten := store.Apply([a2], false, true, course);
    assert settled == before && active == {"B"};
    assert FindLast(before.sessions, "A") == Some(a1) by { assert before.sessions[..1] == [a1]; }
    ChangedIsReset(rules, a1, a2, before.sessions, store.sessions, resets, active);
    assert overwritten == after;
    assert b2 !in before.sessions && "C" !in Ids(before.sessions) && "C" !in Ids([a2]);
    found, b, created := after, b2, c1;
  }
}
