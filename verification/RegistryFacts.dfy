/**
 * The operations of the subscription registry, taken apart into the smaller steps that its methods take
 * (src/relay/subscription-registry.ts).
 */
module RegistryFacts {
  import opened Events
  import opened Filters
  import opened Ordered
  import S = RegistrySpec
  import opened RegistryRuns
  import opened RegistryTotals

  type Ref = S.Ref

  /** What is left to do once the subscription is marked closed. */
  lemma CloseMarked(s: S.Registry, r: Ref, reason: string, open: bool)
    requires r < |s.all| && s.all[r].role != S.Wire
    ensures s.all[r].closed ==> S.CloseOne(s, r, reason, open) == s
    ensures !s.all[r].closed && s.all[r].role.Handle? ==>
      S.CloseOne(s, r, reason, open) == S.CloseOne(s, r, "", open).(calls := s.calls + [S.OnClose(r, reason)])
    ensures !s.all[r].closed && s.all[r].role == S.Exclusive ==>
      S.CloseOne(s, r, reason, open) ==
        Marked(s, r).(subs := Delete(s.subs, s.all[r].id),
                      sent := s.sent + (if open then [S.Close(s.all[r].id)] else []),
                      calls := s.calls + [S.OnClose(r, reason)])
  {
    hide Delete, S.Retire, Without;
    if s.all[r].role == S.Exclusive {
      assert S.Shut(s.all, [r]) == Marked(s, r).all;
    }
  }

  ghost predicate CanLeave(s: S.Registry, g: Ref, r: Ref) {
    && S.Sound(s) && r < |s.all| && s.all[r].role == S.Handle(g) && !s.all[r].closed
    && g < |s.all| && g in s.groups && S.Attached(s, g, r)
  }

  lemma MayLeave(s: S.Registry, r: Ref)
    requires S.Sound(s) && r < |s.all|
    ensures s.all[r].role.Handle? && !s.all[r].closed ==> CanLeave(s, s.all[r].role.of, r)
  {
    if s.all[r].role.Handle? && !s.all[r].closed {
      HandleOpen(s, r);
    }
  }

  ghost function Marked(s: S.Registry, r: Ref): S.Registry
    requires r < |s.all|
  {
    s.(all := s.all[r := s.all[r].(closed := true)])
  }

  /** The group without the handle `r`. */
  ghost function Parted(s: S.Registry, g: Ref, r: Ref): S.Registry
    requires r < |s.all| && g in s.groups
  {
    Marked(s, r).(groups := s.groups[g := s.groups[g].(attachments := Without(s.groups[g].attachments, r))])
  }

  lemma LeavingEmpty(s: S.Registry, g: Ref, r: Ref)
    requires CanLeave(s, g, r) && Without(s.groups[g].attachments, r) == []
    ensures S.GroupAgrees(Parted(s, g, r), g) && s.groups[g].attachments == [r]
  {
    assert S.GroupAgrees(s, g);
    OnlyOne(s.groups[g].attachments, r);
    assert Distinct<Ref>([]);
    hide S.Sound, Without;
  }

  lemma LeavingLast(s: S.Registry, g: Ref, r: Ref, open: bool)
    requires CanLeave(s, g, r) && s.groups[g].attachments == [r] && Without(s.groups[g].attachments, r) == []
    ensures S.EndGroup(Parted(s, g, r), g, open, S.CLIENT) == S.CloseOne(s, r, "", open).(calls := s.calls)
  {
    hide S.Sound, Delete, Without, S.Shut, S.Goodbyes;
    var p := Parted(s, g, r);
    assert S.Shut(p.all, [g] + p.groups[g].attachments) == S.Shut(s.all, [g] + [r]);
    assert S.Goodbyes([], S.CLIENT) == [];
  }

  lemma LeavingOthers(s: S.Registry, g: Ref, r: Ref, open: bool)
    requires CanLeave(s, g, r) && Without(s.groups[g].attachments, r) != []
    ensures Parted(s, g, r) == S.CloseOne(s, r, "", open).(calls := s.calls)
  {
    hide S.Sound, Distinct;
    assert Parted(s, g, r).all == S.CloseOne(s, r, "", open).all;
  }

  lemma Remaining(s: S.Registry, g: Ref)
    requires g in s.groups && S.GroupAgrees(s, g)
    ensures g < |s.all| && s.all[g].role == S.Wire && Distinct(s.groups[g].attachments)
    ensures forall a :: a in s.groups[g].attachments ==> a != g && a < |s.all| && !s.all[a].closed
  {
    assert forall a :: a in s.groups[g].attachments ==> S.IsHandle(s, g, a);
  }

  lemma ShutBoth(all: seq<S.Subscription>, g: Ref, refs: seq<Ref>)
    ensures S.Shut(S.Shut(all, [g]), refs) == S.Shut(all, [g] + refs)
  {
  }

  lemma ShutNext(all: seq<S.Subscription>, refs: seq<Ref>, r: Ref, more: seq<Ref>)
    requires r < |all| && more == refs + [r]
    ensures S.Shut(all, more) == S.Shut(all, refs)[r := S.Shut(all, refs)[r].(closed := true)]
  {
  }

  /** A listed REQ that leads no group is a one-shot REQ. */
  lemma NotLive(s: S.Registry, id: string)
    requires S.Sound(s) && id in s.subs.values
    ensures s.subs.values[id] < |s.all|
    ensures id !in s.liveBySubId <==> s.all[s.subs.values[id]].role != S.Wire
    ensures id in s.liveBySubId ==> s.liveBySubId[id] == s.subs.values[id]
  {
    hide S.GroupAgrees, S.Reached;
    assert S.SubAgrees(s, id);
    assert id in s.liveBySubId ==> S.WireAgrees(s, id);
  }

  /** What an EOSE is, by the kind of the listed REQ. */
  lemma EoseCases(s: S.Registry, id: string, open: bool)
    requires S.Sound(s)
    ensures id !in s.subs.values ==> S.HandleEose(s, id, open) == s
    ensures id in s.subs.values ==>
      && var r := s.subs.values[id];
      && r < |s.all|
      && (s.all[r].closed || s.all[r].eosed ==> S.HandleEose(s, id, open) == s)
      && (id !in s.liveBySubId ==> s.all[r].role != S.Wire && S.HandleEose(s, id, open) == S.EoseOne(s, r, open))
  {
    if id in s.subs.values {
      NotLive(s, id);
      assert id in s.liveBySubId ==> S.WireAgrees(s, id);
    }
    hide S.Sound;
  }

  /** An EOSE of a wire, as one step for the wire and one for its handles. */
  lemma EoseLive(s: S.Registry, id: string, open: bool)
    requires S.Sound(s) && id in s.subs.values && id in s.liveBySubId
    ensures var r := s.subs.values[id];
      && r < |s.all| && r in s.groups && Distinct(s.groups[r].attachments)
      && (forall a :: a in s.groups[r].attachments ==> a < |s.all|)
      && var marked := s.all[r := s.all[r].(eosed := true)];
      && var refs := s.groups[r].attachments;
      && var after := s.(all := S.Eosed(marked, refs), calls := s.calls + S.Eoses(S.Waiting(marked, refs)));
      && (!s.all[r].eosed ==> S.HandleEose(s, id, open) == after)
  {
    NotLive(s, id);
    var r := s.subs.values[id];
    assert S.WireAgrees(s, id);
    assert S.GroupAgrees(s, r);
    assert r in s.groups[r].attachments ==> S.IsHandle(s, r, r);
    assert forall a :: a in s.groups[r].attachments ==> S.IsHandle(s, r, a);
    EosedBoth(s.all, r, s.groups[r].attachments);
    hide S.Sound, S.Eosed, S.Waiting, S.Eoses;
  }

  lemma NoneWaiting(all: seq<S.Subscription>)
    ensures S.Waiting(all, []) == [] && S.Eosed(all, []) == all
  {
    assert S.Eosed(all, []) == all;
  }

  /** markEose of one more attachment. */
  lemma EosedNext(was: seq<S.Subscription>, done: seq<Ref>, a: Ref)
    requires a < |was| && a !in done
    ensures var all := S.Eosed(was, done);
      && all[a] == was[a]
      && S.Eosed(was, done + [a]) == if was[a].closed || was[a].eosed then all else all[a := all[a].(eosed := true)]
  {
    var all, more := S.Eosed(was, done), S.Eosed(was, done + [a]);
    var then' := if was[a].closed || was[a].eosed then all else all[a := all[a].(eosed := true)];
    forall i | 0 <= i < |was|
      ensures more[i] == then'[i]
    {
    }
  }

  lemma WaitingNext(was: seq<S.Subscription>, done: seq<Ref>, a: Ref)
    requires a < |was|
    ensures S.Eoses(S.Waiting(was, done + [a])) ==
      S.Eoses(S.Waiting(was, done)) + (if was[a].closed || was[a].eosed then [] else [S.OnEose(a)])
  {
    assert (done + [a])[..|done|] == done;
    var w := S.Waiting(was, done);
    assert S.Eoses(w + [a]) == S.Eoses(w) + [S.OnEose(a)];
  }

  lemma EosedBoth(all: seq<S.Subscription>, r: Ref, refs: seq<Ref>)
    requires r < |all| && !all[r].closed && r !in refs
    ensures S.Eosed(all[r := all[r].(eosed := true)], refs) == S.Eosed(all, [r] + refs)
    ensures S.Waiting(all[r := all[r].(eosed := true)], refs) == S.Waiting(all, refs)
  {
    WaitingApart(all, r, refs);
  }

  lemma {:induction false} WaitingApart(all: seq<S.Subscription>, r: Ref, refs: seq<Ref>)
    requires r < |all| && r !in refs
    ensures S.Waiting(all[r := all[r].(eosed := true)], refs) == S.Waiting(all, refs)
  {
    if refs != [] {
      assert refs[|refs| - 1] in refs;
      WaitingApart(all, r, refs[..|refs| - 1]);
    }
  }

  lemma NotedNext(all: seq<S.Subscription>, refs: seq<Ref>, r: Ref, more: seq<Ref>, e: Event, now: int)
    requires r < |all| && more == refs + [r] && r !in refs
    ensures S.NotedBy(all, more, e, now) == S.NotedBy(all, refs, e, now)[r := S.Noted(all[r], e, now)]
  {
    hide S.Noted;
  }

  lemma {:induction false} RecipientsDistinct(all: seq<S.Subscription>, refs: seq<Ref>, have: set<Ref>)
    requires Distinct(refs)
    ensures Distinct(S.Recipients(all, refs, have))
  {
    if refs != [] {
      var n := |refs| - 1;
      DistinctInit(refs);
      RecipientsDistinct(all, refs[..n], have);
      var rest := S.Recipients(all, refs[..n], have);
      DistinctSnoc(rest, refs[n]);
    }
  }

  lemma EventCases(s: S.Registry, id: string, e: Event, now: int, have: set<Ref>, accepted: bool)
    requires S.Sound(s)
    ensures id in s.subs.values ==> s.subs.values[id] < |s.all|
    ensures id !in s.subs.values || s.all[s.subs.values[id]].closed ==>
      S.HandleEvent(s, id, e, now, have, accepted) == s
    ensures id in s.subs.values && id !in s.liveBySubId && !s.all[s.subs.values[id]].closed ==>
      && var r := s.subs.values[id];
      && var heard := s.(calls := s.calls + [S.OnReceived(r, e.id)]);
      && S.HandleEvent(s, id, e, now, have, accepted) ==
           (if e.id in s.all[r].atMark || r in have || !MatchesAny(s.all[r].filters, e) || !accepted then heard
            else heard.(all := s.all[r := S.Noted(s.all[r], e, now)], calls := heard.calls + [S.OnEvent(r, e)]))
  {
    if id in s.subs.values {
      NotLive(s, id);
      hide S.Sound, MatchesAny, S.Noted;
      if id !in s.liveBySubId && !s.all[s.subs.values[id]].closed {
        var r := s.subs.values[id];
        assert [r][..0] == [];
        assert S.Recipients(s.all, [r], have) == if r in have then [] else [r];
        assert S.NotedBy(s.all, [r], e, now) == s.all[r := S.Noted(s.all[r], e, now)];
        assert S.Receipts([r], e.id) == [S.OnReceived(r, e.id)] && S.Deliveries([r], e) == [S.OnEvent(r, e)];
      }
    }
  }

  lemma EventLive(s: S.Registry, id: string, e: Event, now: int, have: set<Ref>, accepted: bool)
    requires S.Sound(s) && id in s.liveBySubId && id in s.subs.values
    ensures
      && var g := s.subs.values[id];
      && g < |s.all| && g in s.groups
      && var refs := s.groups[g].attachments;
      && var to := S.Recipients(s.all, refs, have);
      && Distinct(to) && (forall a :: a in refs ==> a < |s.all|) && (forall a :: a in to ==> a < |s.all|)
      && var heard := s.(calls := s.calls + S.Receipts(refs, e.id));
      && S.HandleEvent(s, id, e, now, have, accepted) ==
           (if e.id in s.all[g].atMark || to == [] || !MatchesAny(s.all[g].filters, e) || !accepted then heard
            else heard.(all := S.NotedBy(s.all[g := S.Noted(s.all[g], e, now)], to, e, now),
                        calls := heard.calls + S.Deliveries(to, e)))
  {
    NotLive(s, id);
    var g := s.subs.values[id];
    assert S.WireAgrees(s, id);
    assert S.GroupAgrees(s, g);
    var refs := s.groups[g].attachments;
    assert forall a :: a in refs ==> S.IsHandle(s, g, a);
    RecipientsDistinct(s.all, refs, have);
    var to := S.Recipients(s.all, refs, have);
    assert g !in to by {
      assert g in refs ==> S.IsHandle(s, g, g);
    }
    hide S.Sound, MatchesAny, S.Recipients, Distinct, S.Noted;
    NotedBoth(s.all, g, to, e, now);
  }

  lemma NotedBoth(all: seq<S.Subscription>, g: Ref, to: seq<Ref>, e: Event, now: int)
    requires g < |all| && g !in to
    ensures S.NotedBy(all[g := S.Noted(all[g], e, now)], to, e, now) == S.NotedBy(all, [g] + to, e, now)
  {
    hide S.Noted;
  }

  lemma OpenCases(s: S.Registry, fp: string, filters: seq<Filter>, id: string, aborted: bool, open: bool,
                  reconnect: bool)
    requires S.Sound(s)
    ensures fp in s.liveByFp ==> s.liveByFp[fp] < |s.all| && s.liveByFp[fp] in s.groups
    ensures fp in s.liveByFp && !s.all[s.liveByFp[fp]].eosed ==>
      && s.all[s.liveByFp[fp]].role == S.Wire && s.groups[s.liveByFp[fp]].attachments != []
      && S.OpenLive(s, fp, filters, id, aborted, open, reconnect) == S.Join(s, s.liveByFp[fp], filters, aborted)
    ensures fp !in s.liveByFp || s.all[s.liveByFp[fp]].eosed ==>
      S.OpenLive(s, fp, filters, id, aborted, open, reconnect) ==
        S.Start(s, fp, filters, id, aborted, open, reconnect)
  {
    if fp in s.liveByFp {
      assert S.PrintAgrees(s, fp);
      assert S.WireAgrees(s, s.all[s.liveByFp[fp]].id);
    }
  }

  lemma UndoEnter(m: OrderedMap<string, Ref>, id: string, r: Ref)
    ensures Delete(Enter(m, id, r), id) == Delete(m, id)
  {
    WithoutLast(m.keys, id);
  }

  lemma {:induction false} WithoutLast<K>(keys: seq<K>, key: K)
    ensures Without(keys + [key], key) == Without(keys, key)
  {
    if keys != [] {
      assert (keys + [key])[1..] == keys[1..] + [key];
      WithoutLast(keys[1..], key);
    }
  }

  lemma DropCases(s: S.Registry, r: Ref, reason: string)
    requires S.Sound(s) && r < |s.all| && !s.all[r].role.Handle?
    ensures s.all[r].id in s.liveBySubId ==>
      && var g := s.liveBySubId[s.all[r].id];
      && g < |s.all| && g in s.groups && S.GroupAgrees(s, g)
      && S.Drop(s, r, reason) == S.EndGroup(s, g, false, reason)
    ensures s.all[r].id !in s.liveBySubId ==>
      && (s.all[r].role == S.Wire ==> s.all[r].closed)
      && S.Drop(s, r, reason) ==
           s.(subs := Delete(s.subs, s.all[r].id), all := S.Shut(s.all, [r]),
              calls := s.calls + (if s.all[r].closed then [] else [S.OnClose(r, reason)]))
  {
    LiveRetires(s, s.all[r].id);
    if s.all[r].id in s.liveBySubId {
      assert S.GroupAgrees(s, s.liveBySubId[s.all[r].id]);
    } else {
      assert S.Reached(s, r);
    }
    hide S.Sound;
  }

  lemma WithIn(s: S.Registry, r: Ref)
    requires S.Sound(s) && r < |s.all|
    ensures forall a :: a in S.With(s, r) ==> a < |s.all|
    ensures s.all[r].id in s.liveBySubId ==>
      && var g := s.liveBySubId[s.all[r].id];
      && g in s.groups && S.With(s, r) == [r] + s.groups[g].attachments
      && forall a :: a in s.groups[g].attachments ==> a < |s.all|
    ensures s.all[r].id !in s.liveBySubId ==> S.With(s, r) == [r]
  {
    LiveRetires(s, s.all[r].id);
    if s.all[r].id in s.liveBySubId {
      var g := s.liveBySubId[s.all[r].id];
      assert S.GroupAgrees(s, g);
      assert forall a :: a in s.groups[g].attachments ==> S.IsHandle(s, g, a);
    }
  }

  lemma RearmAsks(all: seq<S.Subscription>, refs: seq<Ref>, r: Ref, auth: bool)
    requires r < |all|
    ensures S.ReplayFilters(S.Rearm(all, refs, auth)[r]) == S.ReplayFilters(all[r])
    ensures S.Rearm(all, refs, auth)[r].id == all[r].id
  {
  }

  /** Rearming keeps the roles. */
  lemma RearmedAlike(s: S.Registry, r: Ref)
    requires r < |s.all|
    ensures |S.Rearmed(s, r).all| == |s.all| && S.Rearmed(s, r).all[r].role == s.all[r].role
  {
  }

  lemma RearmBoth(all: seq<S.Subscription>, a: seq<Ref>, b: seq<Ref>, auth: bool)
    ensures S.Rearm(S.Rearm(all, a, auth), b, auth) == S.Rearm(all, a + b, auth)
  {
  }

  /** A new wire without a handle, before its REQ is sent. */
  ghost function Bare(s: S.Registry, fp: string, filters: seq<Filter>, id: string): S.Registry {
    var g := |s.all|;
    s.(all := s.all + [S.Born(id, filters, S.Wire, false)], groups := s.groups[g := S.LiveGroup(fp, [])],
       liveByFp := s.liveByFp[fp := g], liveBySubId := s.liveBySubId[id := g], subs := Enter(s.subs, id, g))
  }

  lemma StartLive(s: S.Registry, fp: string, filters: seq<Filter>, id: string, open: bool, reconnect: bool)
    ensures
      && var joined := S.Join(Bare(s, fp, filters, id), |s.all|, filters, false);
      && S.Start(s, fp, filters, id, false, open, reconnect) ==
           joined.(sent := s.sent + (if open then [S.Req(id, filters)] else []),
                   reconnects := s.reconnects + (if !open && reconnect then 1 else 0))
  {
    hide Enter, Delete;
    var g: Ref := |s.all|;
    var live := S.Join(Bare(s, fp, filters, id), g, filters, false);
    assert live.all == s.all + [S.Born(id, filters, S.Wire, false), S.Born(id, filters, S.Handle(g), false)];
    assert live.groups[g].attachments == [g + 1];
    assert live.groups == s.groups[g := S.LiveGroup(fp, [g + 1])];
  }

  lemma StartAborted(s: S.Registry, fp: string, filters: seq<Filter>, id: string, open: bool, reconnect: bool)
    ensures
      && var g: Ref := |s.all|;
      && var joined := S.Join(Bare(s, fp, filters, id), g, filters, true);
      && g < |joined.all| && g in joined.groups && joined.all[g].role == S.Wire
      && S.Start(s, fp, filters, id, true, open, reconnect) == S.Forget(joined, g)
  {
    hide Enter, Delete;
    UndoEnter(s.subs, id, |s.all|);
    var g: Ref := |s.all|;
    var gone := S.Forget(S.Join(Bare(s, fp, filters, id), g, filters, true), g);
    assert gone.all == s.all + [S.Born(id, filters, S.Wire, true), S.Born(id, filters, S.Handle(g), true)];
    assert gone.liveByFp == s.liveByFp - {fp};
    assert gone.liveBySubId == s.liveBySubId - {id};
  }

  /** The REQs of `armed` are rearmed and those of `sent` are sent again. */
  ghost function Sent(s: S.Registry, armed: seq<Ref>, sent: seq<Ref>): S.Registry
    requires Within(s, armed) && Within(s, sent)
  {
    s.(all := S.Rearm(s.all, S.Withs(s, armed), true), sent := s.sent + S.Reqs(s.all, sent))
  }

  ghost predicate Within(s: S.Registry, refs: seq<Ref>) {
    forall i :: 0 <= i < |refs| ==> refs[i] < |s.all|
  }

  /** The open REQs among the first `i` that are listed. */
  ghost predicate Queued(s: S.Registry, i: nat, q: seq<Ref>) {
    i <= |s.subs.keys| && q == S.Queue(s, s.subs.keys[..i])
  }

  lemma SentNothing(s: S.Registry)
    ensures Within(s, []) && Queued(s, 0, []) && Sent(s, [], []) == s
  {
    assert S.Rearm(s.all, [], true) == s.all;
  }

  lemma SentKeeps(s: S.Registry, armed: seq<Ref>, sent: seq<Ref>)
    requires Within(s, armed) && Within(s, sent)
    ensures var s' := Sent(s, armed, sent);
      && s'.subs == s.subs && |s'.all| == |s.all|
      && forall r: Ref :: r < |s.all| ==> s'.all[r].closed == s.all[r].closed
  {
  }

  lemma QueuedNext(s: S.Registry, i: nat, q: seq<Ref>)
    requires S.Sound(s) && i < |s.subs.keys| && Queued(s, i, q)
    ensures
      && var id := s.subs.keys[i];
      && id in s.subs.values
      && var r := s.subs.values[id];
      && r < |s.all| && !s.all[r].role.Handle?
      && Queued(s, i + 1, if s.all[r].closed then q else q + [r])
  {
    var id := s.subs.keys[i];
    assert id in Elements(s.subs.keys);
    assert S.SubAgrees(s, id);
    assert s.subs.keys[..i + 1][..i] == s.subs.keys[..i];
  }

  /** One more REQ is rearmed; what it asks for stays the same. */
  lemma ArmedNext(s: S.Registry, q: seq<Ref>, r: Ref)
    requires Within(s, q) && r < |s.all|
    ensures var all := S.Rearm(s.all, S.Withs(s, q), true);
      && all[r].id == s.all[r].id
      && var all' := S.Rearm(all, S.With(s, r), true);
      && all' == S.Rearm(s.all, S.Withs(s, q + [r]), true)
      && all'[r].id == s.all[r].id && S.ReplayFilters(all'[r]) == S.ReplayFilters(s.all[r])
  {
    assert (q + [r])[..|q|] == q;
    hide S.With;
    RearmBoth(s.all, S.Withs(s, q), S.With(s, r), true);
  }

  lemma ReqsNext(all: seq<S.Subscription>, q: seq<Ref>, r: Ref)
    requires r < |all| && forall i :: 0 <= i < |q| ==> q[i] < |all|
    ensures S.Reqs(all, q + [r]) == S.Reqs(all, q) + [S.Req(all[r].id, S.ReplayFilters(all[r]))]
  {
    hide S.ReplayFilters;
  }

  /** The socket fails after the REQs of `q`, at that of `r`. */
  lemma ReplayCut(s: S.Registry, room: nat, q: seq<Ref>, r: Ref, i: nat)
    requires |q| == room && i < |s.subs.keys| && Within(s, q) && Queued(s, i + 1, q + [r])
    ensures S.ReplayAll(s, room) == Sent(s, q + [r], q) && room < |S.Queue(s, s.subs.keys)|
  {
    QueuePrefix(s, s.subs.keys, i + 1);
    hide S.Queue, S.Withs, S.Rearm, S.Reqs;
    var whole := S.Queue(s, s.subs.keys);
    assert whole[..room] == q && whole[..room + 1] == q + [r];
  }

  lemma ReplayWhole(s: S.Registry, room: nat, q: seq<Ref>)
    requires Within(s, q) && Queued(s, |s.subs.keys|, q) && |q| <= room
    ensures S.ReplayAll(s, room) == Sent(s, q, q) && q == S.Queue(s, s.subs.keys)
  {
    hide S.Queue, S.Withs, S.Rearm, S.Reqs;
    assert s.subs.keys[..|s.subs.keys|] == s.subs.keys;
    assert q[..|q|] == q;
  }

  lemma {:induction false} QueuePrefix(s: S.Registry, ids: seq<string>, i: nat)
    requires i <= |ids|
    ensures S.Queue(s, ids[..i]) <= S.Queue(s, ids)
  {
    if i == |ids| {
      assert ids[..i] == ids;
    } else {
      assert ids[..|ids| - 1][..i] == ids[..i];
      QueuePrefix(s, ids[..|ids| - 1], i);
    }
  }

  // ---- closeAll ----

  /** The wires and handles under these ids are closed. */
  ghost predicate EndedSubs(s: S.Registry, ids: seq<string>, t: S.Registry) {
    && |t.all| == |s.all|
    && forall x: Ref :: x < |s.all| ==>
         t.all[x] == if s.all[x].role != S.Exclusive && s.all[x].id in ids then s.all[x].(closed := true) else s.all[x]
  }

  /** They are taken off the maps. */
  ghost predicate EndedMaps(s: S.Registry, ids: seq<string>, t: S.Registry) {
    && (forall id :: id in t.liveBySubId <==> id in s.liveBySubId && id !in ids)
    && (forall id :: id in t.liveBySubId ==> t.liveBySubId[id] == s.liveBySubId[id])
    && (forall id :: id in t.subs.values <==> id in s.subs.values && !(id in ids && id in s.liveBySubId))
    && (forall id :: id in t.subs.values ==> t.subs.values[id] == s.subs.values[id])
  }

  /** Their groups have nobody attached. */
  ghost predicate EndedGroups(s: S.Registry, ids: seq<string>, t: S.Registry) {
    && t.groups.Keys == s.groups.Keys
    && forall g :: g in s.groups && g < |s.all| ==>
         t.groups[g] == if s.all[g].id in ids then s.groups[g].(attachments := []) else s.groups[g]
  }

  /** The groups under these ids have ended. */
  ghost predicate Ended(s: S.Registry, ids: seq<string>, t: S.Registry, reason: string) {
    && S.Sound(t) && t.sent == s.sent && t.reconnects == s.reconnects
    && t.calls == s.calls + S.Goodbyes(S.Farewells(s, ids), reason)
    && EndedSubs(s, ids, t) && EndedMaps(s, ids, t) && EndedGroups(s, ids, t)
  }

  lemma EndedNone(s: S.Registry, reason: string)
    requires S.Sound(s)
    ensures Ended(s, s.subs.keys[..0], s, reason)
  {
    assert s.subs.keys[..0] == [];
    assert S.Goodbyes([], reason) == [];
    hide S.Sound;
  }

  /** A wire or a handle under this id is closed once the group under the id has ended. */
  lemma UnderId(s: S.Registry, id: string, x: Ref)
    requires S.Sound(s) && x < |s.all| && s.all[x].role != S.Exclusive && s.all[x].id == id && !s.all[x].closed
    ensures
      && id in s.liveBySubId
      && var g := s.liveBySubId[id];
      && (x == g || s.all[x].role == S.Handle(g))
  {
    assert S.Reached(s, x);
    if s.all[x].role.Handle? {
      HandleOpen(s, x);
    }
  }

  /** One more group, `g`, has ended, under one more id. */
  ghost predicate OneMore(s: S.Registry, ids: seq<string>, id: string, g: Ref, t: S.Registry, t': S.Registry) {
    && S.Sound(s) && id !in ids && id in s.liveBySubId && s.liveBySubId[id] == g
    && g < |s.all| && g in s.groups && g < |t.all| && g in t.groups && t.all[g].id == id && s.all[g].id == id
    && s.all[g].role == S.Wire && Retired(t, g, t')
  }

  lemma EndsSubs(s: S.Registry, ids: seq<string>, id: string, g: Ref, t: S.Registry, t': S.Registry)
    requires OneMore(s, ids, id, g, t, t') && EndedSubs(s, ids, t)
    ensures EndedSubs(s, ids + [id], t')
  {
    hide S.Sound, Delete, S.GroupAgrees;
    forall x: Ref | x < |s.all|
      ensures t'.all[x] ==
        if s.all[x].role != S.Exclusive && s.all[x].id in ids + [id] then s.all[x].(closed := true) else s.all[x]
    {
      if !s.all[x].closed && s.all[x].role != S.Exclusive && s.all[x].id == id {
        UnderId(s, id, x);
      }
      if !s.all[x].closed && s.all[x].role == S.Handle(g) {
        HandleOpen(s, x);
      }
    }
  }

  lemma EndsMaps(s: S.Registry, ids: seq<string>, id: string, g: Ref, t: S.Registry, t': S.Registry)
    requires OneMore(s, ids, id, g, t, t') && EndedMaps(s, ids, t)
    ensures EndedMaps(s, ids + [id], t')
  {
    hide S.Sound;
  }

  /** Of the groups that were ever kept under one id, only the registered one has handles. */
  lemma OneGroup(s: S.Registry, id: string, g: Ref, h: Ref)
    requires S.Sound(s) && id in s.liveBySubId && s.liveBySubId[id] == g
    requires h in s.groups && h < |s.all| && s.all[h].id == id
    ensures h == g || s.groups[h].attachments == []
  {
    assert S.GroupAgrees(s, h);
  }

  lemma EndsGroups(s: S.Registry, ids: seq<string>, id: string, g: Ref, t: S.Registry, t': S.Registry)
    requires OneMore(s, ids, id, g, t, t') && EndedGroups(s, ids, t)
    ensures EndedGroups(s, ids + [id], t')
  {
    hide S.Sound, Delete, S.Shut;
    forall h | h in s.groups && h < |s.all| && s.all[h].id == id
      ensures h == g || s.groups[h].attachments == []
    {
      OneGroup(s, id, g, h);
    }
  }

  lemma EndsCalls(s: S.Registry, ids: seq<string>, id: string, g: Ref, t: S.Registry, reason: string)
    requires id in s.liveBySubId && s.liveBySubId[id] == g && g in s.groups
    requires t.calls == s.calls + S.Goodbyes(S.Farewells(s, ids), reason)
    ensures t.calls + S.Goodbyes(s.groups[g].attachments, reason) ==
      s.calls + S.Goodbyes(S.Farewells(s, ids + [id]), reason)
  {
    assert (ids + [id])[..|ids|] == ids;
    var f, more := S.Farewells(s, ids), s.groups[g].attachments;
    assert S.Goodbyes(f + more, reason) == S.Goodbyes(f, reason) + S.Goodbyes(more, reason);
  }

  /** What is known of the wire under an id. */
  lemma WireOf(s: S.Registry, id: string)
    requires S.Sound(s) && id in s.liveBySubId
    ensures var g := s.liveBySubId[id];
      && g < |s.all| && g in s.groups && s.all[g].role == S.Wire && s.all[g].id == id && S.GroupAgrees(s, g)
      && CanRetire(s, g)
  {
    assert S.WireAgrees(s, id);
    assert S.GroupAgrees(s, s.liveBySubId[id]);
  }

  lemma EndsLive(s: S.Registry, ids: seq<string>, id: string, t: S.Registry, reason: string)
    requires S.Sound(s) && Ended(s, ids, t, reason) && id !in ids && id in t.liveBySubId
    ensures var g := t.liveBySubId[id];
      && g < |t.all| && g in t.groups && S.GroupAgrees(t, g)
      && Ended(s, ids + [id], S.EndGroup(t, g, false, reason), reason)
  {
    hide S.Sound, Retired, EndedSubs, S.GroupAgrees, S.Farewells, S.Shut, Delete, S.Goodbyes, S.Registered, CanRetire;
    WireOf(t, id);
    assert id in s.liveBySubId && s.liveBySubId[id] == t.liveBySubId[id];
    WireOf(s, id);
    var g := t.liveBySubId[id];
    var t' := S.EndGroup(t, g, false, reason);
    EndGroupSound(t, g, false, reason);
    assert t.groups[g] == s.groups[g];
    assert t'.sent == t.sent;
    hide EndedMaps, EndedGroups;
    EndsSubs(s, ids, id, g, t, t');
    EndsMaps(s, ids, id, g, t, t');
    EndsGroups(s, ids, id, g, t, t');
    EndsCalls(s, ids, id, g, t, reason);
  }

  /** Under the id of a REQ that leads no group, there is nothing to end. */
  lemma NothingUnder(s: S.Registry, id: string)
    requires S.Sound(s) && id !in s.liveBySubId
    ensures forall x: Ref :: x < |s.all| && s.all[x].role != S.Exclusive && s.all[x].id == id ==> s.all[x].closed
    ensures forall g :: g in s.groups && g < |s.all| && s.all[g].id == id ==> s.groups[g].attachments == []
  {
    forall x: Ref | x < |s.all| && s.all[x].role != S.Exclusive && s.all[x].id == id
      ensures s.all[x].closed
    {
      if !s.all[x].closed {
        UnderId(s, id, x);
      }
    }
    forall g | g in s.groups && g < |s.all| && s.all[g].id == id
      ensures s.groups[g].attachments == []
    {
      assert S.GroupAgrees(s, g);
    }
  }

  lemma EndsNone(s: S.Registry, ids: seq<string>, id: string, t: S.Registry, reason: string)
    requires S.Sound(s) && Ended(s, ids, t, reason) && id !in ids && id !in t.liveBySubId
    ensures Ended(s, ids + [id], t, reason)
  {
    hide S.Sound, S.Goodbyes;
    assert id !in s.liveBySubId;
    NothingUnder(s, id);
    assert (ids + [id])[..|ids|] == ids;
    assert EndedSubs(s, ids + [id], t);
    assert EndedMaps(s, ids + [id], t);
    assert EndedGroups(s, ids + [id], t);
    hide EndedSubs, EndedMaps, EndedGroups;
  }

  lemma EndedNext(s: S.Registry, keys: seq<string>, i: nat, t: S.Registry, reason: string)
    requires S.Sound(s) && keys == s.subs.keys && i < |keys| && Ended(s, keys[..i], t, reason)
    ensures keys[i] in t.liveBySubId ==>
      && var g := t.liveBySubId[keys[i]];
      && g < |t.all| && g in t.groups && S.GroupAgrees(t, g)
      && Ended(s, keys[..i + 1], S.EndGroup(t, g, false, reason), reason)
    ensures keys[i] !in t.liveBySubId ==> Ended(s, keys[..i + 1], t, reason)
  {
    NotBefore(keys, i);
    assert keys[..i + 1] == keys[..i] + [keys[i]];
    hide S.Sound, Ended, S.EndGroup, S.GroupAgrees;
    if keys[i] in t.liveBySubId {
      EndsLive(s, keys[..i], keys[i], t, reason);
    } else {
      EndsNone(s, keys[..i], keys[i], t, reason);
    }
  }

  /** Once all groups have ended, they have nobody attached, and nothing was sent. */
  lemma EndedAll(s: S.Registry, t: S.Registry, reason: string)
    requires S.Sound(s) && Ended(s, s.subs.keys, t, reason)
    ensures var end := S.CloseAll(s, reason);
      end == t.(subs := Empty(), liveByFp := map[], liveBySubId := map[], all := end.all, calls := end.calls)
  {
    forall g | g in s.groups
      ensures t.groups[g] == s.groups[g].(attachments := [])
    {
      assert S.GroupAgrees(s, g);
      if s.groups[g].attachments != [] {
        assert S.WireAgrees(s, s.all[g].id);
        assert s.all[g].id in Elements(s.subs.keys);
      }
    }
    hide S.Sound;
  }

  /** The REQs `refs` have ended since the state `t`, and their subscribers were told. */
  ghost predicate Parting(t: S.Registry, refs: seq<Ref>, reason: string, all: seq<S.Subscription>, calls: seq<S.Call>) {
    all == S.Shut(t.all, refs) && calls == t.calls + S.Goodbyes(refs, reason)
  }

  lemma LeftNone(s: S.Registry, t: S.Registry, reason: string)
    ensures S.Exclusives(s, s.subs.keys[..0]) == [] && Parting(t, [], reason, t.all, t.calls)
  {
    assert s.subs.keys[..0] == [];
    assert S.Shut(t.all, []) == t.all;
  }

  lemma PartingNext(t: S.Registry, refs: seq<Ref>, reason: string, all: seq<S.Subscription>, calls: seq<S.Call>,
                    r: Ref)
    requires Parting(t, refs, reason, all, calls) && r < |t.all| && r !in refs && t.all[r].role == S.Exclusive
    ensures |all| == |t.all|
    ensures Parting(t, if t.all[r].closed then refs else refs + [r], reason, S.Shut(all, [r]),
                    calls + if all[r].closed || all[r].role == S.Wire then [] else [S.OnClose(r, reason)])
  {
    assert S.Goodbyes(refs + [r], reason) == S.Goodbyes(refs, reason) + [S.OnClose(r, reason)];
    assert S.Shut(all, [r]) == S.Shut(t.all, if t.all[r].closed then refs else refs + [r]);
  }

  lemma PartingLast(t: S.Registry, refs: seq<Ref>, reason: string, all: seq<S.Subscription>, calls: seq<S.Call>)
    requires Parting(t, refs, reason, all, calls)
    ensures all == S.Shut(t.all, refs) && calls == t.calls + S.Goodbyes(refs, reason)
  {
  }

  lemma LeftNext(s: S.Registry, t: S.Registry, reason: string, i: nat)
    requires S.Sound(s) && Ended(s, s.subs.keys, t, reason) && i < |s.subs.keys|
    ensures
      && var keys := s.subs.keys;
      && var refs := S.Exclusives(s, keys[..i]);
      && (keys[i] !in t.subs.values ==> S.Exclusives(s, keys[..i + 1]) == refs)
      && (keys[i] in t.subs.values ==>
            && var r := t.subs.values[keys[i]];
            && r < |t.all| && t.all[r].role == S.Exclusive && r !in refs
            && S.Exclusives(s, keys[..i + 1]) == if t.all[r].closed then refs else refs + [r])
  {
    hide S.Sound, EndedGroups, S.Farewells, S.Goodbyes;
    var keys := s.subs.keys;
    ListedAt(s, i);
    assert keys[i] in keys;
    assert keys[..i + 1][..i] == keys[..i];
  }

  /** The REQ that is listed at `i`. */
  lemma ListedAt(s: S.Registry, i: nat)
    requires S.Sound(s) && i < |s.subs.keys|
    ensures
      && var id := s.subs.keys[i];
      && id in s.subs.values
      && var r := s.subs.values[id];
      && r < |s.all| && (id in s.liveBySubId <==> s.all[r].role == S.Wire) && !s.all[r].role.Handle?
      && r !in S.Exclusives(s, s.subs.keys[..i])
  {
    var keys := s.subs.keys;
    NotBefore(keys, i);
    DistinctTo(keys, i);
    assert keys[i] in Elements(keys);
    NotLive(s, keys[i]);
    assert S.SubAgrees(s, keys[i]);
    ExclusivesOnce(s, keys[..i], s.subs.values[keys[i]]);
  }

  /** What is open after all groups have ended is listed. */
  lemma OpenLeft(s: S.Registry, t: S.Registry, x: Ref)
    requires S.Sound(s) && EndedSubs(s, s.subs.keys, t) && x < |s.all|
    ensures |t.all| == |s.all|
    ensures t.all[x].closed || x in S.Exclusives(s, s.subs.keys)
    ensures t.all[x].(closed := true) == s.all[x].(closed := true)
  {
    ExclusivesOnce(s, s.subs.keys, x);
    if !s.all[x].closed {
      assert S.Reached(s, x);
      if s.all[x].role != S.Exclusive {
        UnderId(s, s.all[x].id, x);
        assert S.WireAgrees(s, s.all[x].id);
      }
      assert s.all[x].id in Elements(s.subs.keys);
    }
  }

  lemma SubsLength(s: S.Registry, ids: seq<string>, t: S.Registry)
    requires EndedSubs(s, ids, t)
    ensures |t.all| == |s.all|
  {
  }

  lemma LeftLast(s: S.Registry, t: S.Registry, reason: string)
    requires S.Sound(s) && Ended(s, s.subs.keys, t, reason)
    ensures var refs := S.Exclusives(s, s.subs.keys);
      && S.CloseAll(s, reason).all == S.Shut(t.all, refs)
      && S.CloseAll(s, reason).calls == t.calls + S.Goodbyes(refs, reason)
  {
    hide S.Sound, EndedMaps, EndedGroups, EndedSubs, S.Farewells, S.Exclusives;
    var keys := s.subs.keys;
    var f, refs := S.Farewells(s, keys), S.Exclusives(s, keys);
    assert S.Goodbyes(f + refs, reason) == S.Goodbyes(f, reason) + S.Goodbyes(refs, reason);
    assert |t.all| == |s.all| by {
      SubsLength(s, keys, t);
    }
    forall x: Ref | x < |s.all|
      ensures S.Shut(t.all, refs)[x] == s.all[x].(closed := true)
    {
      OpenLeft(s, t, x);
    }
    assert S.CloseAll(s, reason).all == S.Shut(t.all, refs);
  }

  lemma {:induction false} DistinctTo(keys: seq<string>, i: nat)
    requires Distinct(keys) && i <= |keys|
    ensures Distinct(keys[..i])
  {
    if i == |keys| {
      assert keys[..i] == keys;
    } else {
      DistinctInit(keys);
      DistinctTo(keys[..|keys| - 1], i);
      assert keys[..|keys| - 1][..i] == keys[..i];
    }
  }
}
