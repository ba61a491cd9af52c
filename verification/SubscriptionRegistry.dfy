/**
 * The registry of the open REQs of one relay (src/relay/subscription-registry.ts). Its subscriptions are kept in
 * `all` under the order in which they were made, and so are the fields that their own methods update
 * (src/relay/subscription.ts). Whether the socket is open is given to each call.
 */
module SubscriptionRegistries {
  import opened Results
  import opened Events
  import opened Filters
  import opened Fingerprints
  import opened Ordered
  import S = RegistrySpec
  import opened RegistryRuns
  import opened RegistryFacts
  import F = RegistryFacts

  type Ref = S.Ref

  class SubscriptionRegistry {
    /** JSON.stringify, on canonical filters. */
    const json: Filter -> string
    const enableReconnect: bool
    var subs: OrderedMap<string, Ref>
    var liveByFp: map<string, Ref>
    var liveBySubId: map<string, Ref>
    var groups: map<Ref, S.LiveGroup>
    var all: seq<S.Subscription>
    var sent: seq<S.Message>
    var calls: seq<S.Call>
    var reconnects: nat

    ghost function Now(): S.Registry
      reads this
    {
      S.Registry(subs, liveByFp, liveBySubId, groups, all, sent, calls, reconnects)
    }

    constructor (json: Filter -> string, enableReconnect: bool)
      ensures Now() == S.New() && S.Sound(Now())
      ensures this.json == json && this.enableReconnect == enableReconnect
    {
      this.json := json;
      this.enableReconnect := enableReconnect;
      subs := Empty();
      liveByFp, liveBySubId, groups := map[], map[], map[];
      all, sent, calls := [], [], [];
      reconnects := 0;
    }

    // ---- the methods of one subscription ----

    /** end: the flag and the call, and nothing of the registry. */
    method End(r: Ref, reason: string)
      requires r < |all|
      modifies `all, `calls
      ensures all == S.Shut(old(all), [r])
      ensures calls == old(calls) +
        (if old(all)[r].closed || old(all)[r].role == S.Wire then [] else [S.OnClose(r, reason)])
    {
      if all[r].closed {
        assert all == S.Shut(all, [r]);
        return;
      }
      all := all[r := all[r].(closed := true)];
      assert all == S.Shut(old(all), [r]);
      if all[r].role != S.Wire {
        calls := calls + [S.OnClose(r, reason)];
      }
    }

    method NoteVerified(r: Ref, e: Event, now: int)
      requires r < |all|
      modifies `all
      ensures all == old(all)[r := S.Noted(old(all)[r], e, now)]
    {
      var ts := if e.createdAt < now then e.createdAt else now;
      var sub := all[r];
      if sub.last.None? || ts > sub.last.value {
        all := all[r := sub.(last := Some(ts), atMark := {e.id})];
        return;
      }
      if ts == sub.last.value {
        all := all[r := sub.(atMark := sub.atMark + {e.id})];
      }
    }

    method ReplayFilters(r: Ref) returns (filters: seq<Filter>)
      requires r < |all|
      ensures filters == S.ReplayFilters(all[r])
    {
      var sub := all[r];
      if sub.last.None? {
        return sub.filters;
      }
      filters := [];
      for i := 0 to |sub.filters|
        invariant filters == S.ReplayFilters(sub)[..i]
      {
        var f := sub.filters[i];
        var since := if f.since.None? || f.since.value < sub.last.value then sub.last.value else f.since.value;
        filters := filters + [f.(since := Some(since))];
      }
    }

    // ---- groups ----

    method ForgetLiveGroup(g: Ref)
      requires g < |all| && g in groups && all[g].role == S.Wire
      modifies this
      ensures Now() == S.Forget(old(Now()), g)
    {
      var fp := groups[g].fp;
      if fp in liveByFp && liveByFp[fp] == g {
        liveByFp := liveByFp - {fp};
      }
      liveBySubId := liveBySubId - {all[g].id};
      subs := Delete(subs, all[g].id);
      End(g, "");
    }

    /** close of each attachment; the group lists nobody any more, so onLocalClose has nothing left to do. */
    method CloseRemaining(remaining: seq<Ref>, reason: string)
      requires Distinct(remaining) && forall a :: a in remaining ==> a < |all| && !all[a].closed
      modifies `all, `calls
      ensures all == S.Shut(old(all), remaining)
      ensures calls == old(calls) + S.Goodbyes(remaining, reason)
    {
      ghost var was, told := all, calls;
      for i := 0 to |remaining|
        invariant all == S.Shut(was, remaining[..i])
        invariant calls == told + S.Goodbyes(remaining[..i], reason)
      {
        var att := remaining[i];
        assert att in remaining;
        NotBefore(remaining, i);
        if !all[att].closed {
          all := all[att := all[att].(closed := true)];
          calls := calls + [S.OnClose(att, reason)];
        }
        ShutNext(was, remaining[..i], att, remaining[..i + 1]);
        assert S.Goodbyes(remaining[..i + 1], reason) == S.Goodbyes(remaining[..i], reason) + [S.OnClose(att, reason)];
      }
      assert remaining[..|remaining|] == remaining;
    }

    method EndLiveGroup(g: Ref, sendClose: bool, open: bool, reason: string)
      requires g < |all| && g in groups && S.GroupAgrees(Now(), g)
      modifies this
      ensures Now() == S.EndGroup(old(Now()), g, sendClose && open, reason)
    {
      hide Delete, Distinct, S.GroupAgrees, S.Goodbyes;
      ghost var was := Now();
      Remaining(was, g);
      var id := all[g].id;
      var remaining := groups[g].attachments;
      groups := groups[g := groups[g].(attachments := [])];
      ForgetLiveGroup(g);
      if sendClose && open {
        sent := sent + [S.Close(id)];
      }
      assert forall a :: a in remaining ==> a < |all| && !all[a].closed;
      CloseRemaining(remaining, reason);
      ShutBoth(was.all, g, remaining);
    }

    /** onLocalClose of a handle that has just been marked closed. */
    method DetachLive(g: Ref, r: Ref, open: bool, ghost was: S.Registry)
      requires CanLeave(was, g, r) && Now() == Marked(was, r)
      modifies this
      ensures Now() == S.CloseOne(was, r, "", open).(calls := was.calls)
    {
      hide S.Sound, S.CloseOne, S.EndGroup, S.GroupAgrees, Distinct;
      if Without(was.groups[g].attachments, r) == [] {
        LeavingEmpty(was, g, r);
        LeavingLast(was, g, r, open);
      } else {
        LeavingOthers(was, g, r, open);
      }
      if r !in groups[g].attachments {
        return;
      }
      groups := groups[g := groups[g].(attachments := Without(groups[g].attachments, r))];
      if groups[g].attachments != [] {
        return;
      }
      EndLiveGroup(g, true, open, S.CLIENT);
    }

    /** onLocalClose of a one-shot REQ. */
    method Unlist(id: string, open: bool)
      modifies `subs, `sent
      ensures subs == Delete(old(subs), id)
      ensures sent == old(sent) + (if open then [S.Close(id)] else [])
    {
      subs := Delete(subs, id);
      if open {
        sent := sent + [S.Close(id)];
      }
    }

    /** close of a handle or of a one-shot REQ. */
    method CloseSub(r: Ref, reason: string, open: bool)
      requires S.Sound(Now()) && r < |all| && all[r].role != S.Wire
      modifies this
      ensures Now() == S.CloseOne(old(Now()), r, reason, open)
      ensures S.Sound(Now())
    {
      hide S.Sound, S.CloseOne, Delete, CanLeave;
      ghost var was := Now();
      CloseOneSound(was, r, reason, open);
      CloseMarked(was, r, reason, open);
      MayLeave(was, r);
      if all[r].closed {
        return;
      }
      all := all[r := all[r].(closed := true)];
      if all[r].role.Handle? {
        DetachLive(all[r].role.of, r, open, was);
      } else {
        Unlist(all[r].id, open);
      }
      calls := calls + [S.OnClose(r, reason)];
    }

    /** markEose of a handle or of a one-shot REQ; it is called by its timer and by handleEose. */
    method MarkEose(r: Ref, open: bool)
      requires S.Sound(Now()) && r < |all| && all[r].role != S.Wire
      modifies this
      ensures Now() == S.EoseOne(old(Now()), r, open)
      ensures S.Sound(Now())
    {
      hide S.Sound, S.CloseOne;
      ghost var was := Now();
      EoseOneSound(was, r, open);
      if all[r].closed || all[r].eosed {
        return;
      }
      all := all[r := all[r].(eosed := true)];
      calls := calls + [S.OnEose(r)];
      ShapeSound(was, Now());
      if all[r].role == S.Exclusive {
        CloseSub(r, "eose", open);
      }
    }

    /** markEose of each attachment. */
    method EoseRemaining(refs: seq<Ref>)
      requires Distinct(refs) && forall a :: a in refs ==> a < |all|
      modifies `all, `calls
      ensures all == S.Eosed(old(all), refs)
      ensures calls == old(calls) + S.Eoses(S.Waiting(old(all), refs))
    {
      hide S.Waiting, S.Eosed, Distinct;
      ghost var was, told := all, calls;
      NoneWaiting(was);
      for i := 0 to |refs|
        invariant all == S.Eosed(was, refs[..i])
        invariant calls == told + S.Eoses(S.Waiting(was, refs[..i]))
      {
        var a := refs[i];
        assert a in refs;
        NotBefore(refs, i);
        EosedNext(was, refs[..i], a);
        WaitingNext(was, refs[..i], a);
        assert refs[..i + 1] == refs[..i] + [a];
        if !all[a].closed && !all[a].eosed {
          all := all[a := all[a].(eosed := true)];
          calls := calls + [S.OnEose(a)];
        }
      }
      assert refs[..|refs|] == refs;
    }

    /** An EOSE of a wire: markEose of the wire and deliverLiveEose. */
    method EoseWire(id: string, r: Ref, open: bool)
      requires S.Sound(Now()) && id in subs.values && id in liveBySubId
      requires subs.values[id] == r && r < |all| && !all[r].eosed
      modifies `all, `calls
      ensures Now() == S.HandleEose(old(Now()), id, open)
    {
      hide S.Sound, S.Waiting, S.Eoses, S.Eosed, S.EoseOne, S.HandleEose, Distinct;
      ghost var was := Now();
      EoseLive(was, id, open);
      var refs := groups[r].attachments;
      all := all[r := all[r].(eosed := true)];
      EoseRemaining(refs);
      assert Now() == was.(all := all, calls := calls);
    }

    method HandleEose(id: string, open: bool)
      requires S.Sound(Now())
      modifies this
      ensures Now() == S.HandleEose(old(Now()), id, open)
      ensures S.Sound(Now())
    {
      hide S.Sound, S.EoseOne, S.HandleEose;
      ghost var was := Now();
      HandleEoseSound(was, id, open);
      EoseCases(was, id, open);
      if id !in subs.values {
        return;
      }
      var r := subs.values[id];
      if all[r].closed || all[r].eosed {
        return;
      }
      if id in liveBySubId {
        EoseWire(id, r, open);
        return;
      }
      MarkEose(r, open);
    }

    // ---- events ----

    method Notify(refs: seq<Ref>, id: string)
      modifies `calls
      ensures calls == old(calls) + S.Receipts(refs, id)
    {
      ghost var told := calls;
      for i := 0 to |refs|
        invariant calls == told + S.Receipts(refs[..i], id)
      {
        calls := calls + [S.OnReceived(refs[i], id)];
        assert S.Receipts(refs[..i + 1], id) == S.Receipts(refs[..i], id) + [S.OnReceived(refs[i], id)];
      }
      assert refs[..|refs|] == refs;
    }

    method FindRecipients(refs: seq<Ref>, have: set<Ref>) returns (to: seq<Ref>)
      requires forall a :: a in refs ==> a < |all|
      ensures to == S.Recipients(all, refs, have)
    {
      to := [];
      for i := 0 to |refs|
        invariant to == S.Recipients(all, refs[..i], have)
      {
        var a := refs[i];
        assert a in refs;
        var more := refs[..i + 1];
        assert more[..i] == refs[..i] && more[i] == a;
        if !all[a].closed && a !in have {
          to := to + [a];
        }
      }
      assert refs[..|refs|] == refs;
    }

    /** deliver, to each of `to`. */
    method DeliverTo(to: seq<Ref>, e: Event, now: int)
      requires Distinct(to) && forall a :: a in to ==> a < |all|
      modifies `all, `calls
      ensures all == S.NotedBy(old(all), to, e, now)
      ensures calls == old(calls) + S.Deliveries(to, e)
    {
      ghost var was, told := all, calls;
      assert all == S.NotedBy(was, [], e, now);
      for i := 0 to |to|
        invariant all == S.NotedBy(was, to[..i], e, now)
        invariant calls == told + S.Deliveries(to[..i], e)
      {
        var a := to[i];
        assert a in to;
        NotBefore(to, i);
        NoteVerified(a, e, now);
        calls := calls + [S.OnEvent(a, e)];
        NotedNext(was, to[..i], a, to[..i + 1], e, now);
        assert S.Deliveries(to[..i + 1], e) == S.Deliveries(to[..i], e) + [S.OnEvent(a, e)];
      }
      assert to[..|to|] == to;
    }

    method DeliverLiveEvent(id: string, g: Ref, e: Event, now: int, have: set<Ref>, accepted: bool)
      requires S.Sound(Now()) && id in liveBySubId && id in subs.values && subs.values[id] == g
      modifies `all, `calls
      ensures Now() == S.HandleEvent(old(Now()), id, e, now, have, accepted)
    {
      hide S.Sound, S.HandleEvent, S.Recipients, S.Receipts, S.Deliveries, S.NotedBy, S.Noted, Distinct, MatchesAny;
      ghost var was := Now();
      EventLive(was, id, e, now, have, accepted);
      var attachments := groups[g].attachments;
      Notify(attachments, e.id);
      if e.id in all[g].atMark {
        return;
      }
      var recipients := FindRecipients(attachments, have);
      if recipients == [] {
        return;
      }
      var fits := MatchFilters(all[g].filters, e);
      if !fits || !accepted {
        return;
      }
      NoteVerified(g, e, now);
      DeliverTo(recipients, e, now);
    }

    method HandleEvent(id: string, e: Event, now: int, have: set<Ref>, accepted: bool)
      requires S.Sound(Now())
      modifies this
      ensures Now() == S.HandleEvent(old(Now()), id, e, now, have, accepted)
      ensures S.Sound(Now())
    {
      hide S.Sound, S.HandleEvent, S.Noted, MatchesAny, SameShape;
      ghost var was := Now();
      HandleEventSound(was, id, e, now, have, accepted);
      EventCases(was, id, e, now, have, accepted);
      if id !in subs.values || all[subs.values[id]].closed {
        return;
      }
      var r := subs.values[id];
      if id in liveBySubId {
        DeliverLiveEvent(id, r, e, now, have, accepted);
        return;
      }
      calls := calls + [S.OnReceived(r, e.id)];
      if e.id in all[r].atMark || r in have {
        return;
      }
      var fits := MatchFilters(all[r].filters, e);
      if !fits || !accepted {
        return;
      }
      NoteVerified(r, e, now);
      calls := calls + [S.OnEvent(r, e)];
    }

    // ---- opening ----

    /** The REQ goes out on an open socket; a closed one is asked to connect. */
    method Request(id: string, filters: seq<Filter>, open: bool)
      modifies `sent, `reconnects
      ensures sent == old(sent) + (if open then [S.Req(id, filters)] else [])
      ensures reconnects == old(reconnects) + (if !open && enableReconnect then 1 else 0)
    {
      if open {
        sent := sent + [S.Req(id, filters)];
      } else if enableReconnect {
        reconnects := reconnects + 1;
      }
    }

    method OpenExclusive(filters: seq<Filter>, id: string, aborted: bool, open: bool) returns (r: Ref)
      requires S.Sound(Now())
      modifies this
      ensures Now() == S.OpenExclusive(old(Now()), filters, id, aborted, open, enableReconnect)
      ensures (S.Sound(Now()) <==> !S.Held(old(Now()), id)) && r == |old(all)|
    {
      hide S.Sound, S.Held, S.Born, Delete, Enter;
      ghost var was := Now();
      OpenExclusiveExactly(was, filters, id, aborted, open, enableReconnect);
      r := |all|;
      if aborted {
        // close from within the constructor, before the subscription is listed
        Unlist(id, open);
        calls := calls + [S.OnClose(r, "aborted")];
      }
      assert sent == was.sent + (if aborted && open then [S.Close(id)] else []);
      assert calls == was.calls + (if aborted then [S.OnClose(r, "aborted")] else []);
      assert subs == if aborted then Delete(was.subs, id) else was.subs;
      all := all + [S.Born(id, filters, S.Exclusive, aborted)];
      subs := Enter(subs, id, r);
      Request(id, filters, open);
    }

    /** A handle on the wire `g`, unless its signal is aborted. */
    method Attach(g: Ref, filters: seq<Filter>, aborted: bool) returns (handle: Ref)
      requires g < |all| && g in groups
      modifies `all, `groups, `calls
      ensures Now() == S.Join(old(Now()), g, filters, aborted) && handle == |old(all)|
    {
      handle := |all|;
      all := all + [S.Born(all[g].id, filters, S.Handle(g), aborted)];
      if aborted {
        calls := calls + [S.OnClose(handle, "aborted")];
        return;
      }
      groups := groups[g := groups[g].(attachments := groups[g].attachments + [handle])];
    }

    /** A wire of its own, and the first handle on it. */
    method StartLive(fp: string, filters: seq<Filter>, id: string, aborted: bool, open: bool) returns (handle: Ref)
      modifies this
      ensures Now() == S.Start(old(Now()), fp, filters, id, aborted, open, enableReconnect)
      ensures handle == |old(all)| + 1
    {
      hide Delete, Enter, S.Start, S.Join, S.Forget;
      ghost var was := Now();
      F.StartLive(was, fp, filters, id, open, enableReconnect);
      StartAborted(was, fp, filters, id, open, enableReconnect);
      var g := |all|;
      all := all + [S.Born(id, filters, S.Wire, false)];
      groups := groups[g := S.LiveGroup(fp, [])];
      liveByFp := liveByFp[fp := g];
      liveBySubId := liveBySubId[id := g];
      subs := Enter(subs, id, g);
      handle := Attach(g, filters, aborted);
      if aborted {
        ForgetLiveGroup(g);
        return;
      }
      Request(id, filters, open);
    }

    method OpenLive(filters: seq<Filter>, id: string, aborted: bool, open: bool) returns (handle: Ref)
      requires S.Sound(Now())
      modifies this
      ensures Now() == S.OpenLive(old(Now()), Fingerprint(json, filters), filters, id, aborted, open,
                                   enableReconnect)
      ensures S.Sound(Now()) <==> S.Joinable(old(Now()), Fingerprint(json, filters)).Some? || !S.Held(old(Now()), id)
      ensures handle < |all| && all[handle].role.Handle? && all[handle].filters == filters
      ensures all[handle].closed == aborted
    {
      hide S.Sound, S.Held, S.OpenLive, S.Joinable, Delete, Enter, Fingerprint;
      ghost var was := Now();
      var fp := Fingerprint(json, filters);
      OpenLiveExactly(was, fp, filters, id, aborted, open, enableReconnect);
      OpenCases(was, fp, filters, id, aborted, open, enableReconnect);
      if fp in liveByFp && !all[liveByFp[fp]].eosed {
        handle := Attach(liveByFp[fp], filters, aborted);
      } else {
        handle := StartLive(fp, filters, id, aborted, open);
      }
    }

    // ---- the relay ends or repeats a REQ ----

    method DropSub(r: Ref, reason: string)
      requires S.Sound(Now()) && r < |all| && !all[r].role.Handle?
      modifies this
      ensures Now() == S.Drop(old(Now()), r, reason)
      ensures S.Sound(Now()) <==> CanDrop(old(Now()), r)
    {
      hide S.Sound, S.Drop, S.EndGroup, Delete, S.GroupAgrees, CanDrop;
      ghost var was := Now();
      DropExactly(was, r, reason);
      DropCases(was, r, reason);
      if all[r].id in liveBySubId {
        EndLiveGroup(liveBySubId[all[r].id], false, false, reason);
        return;
      }
      subs := Delete(subs, all[r].id);
      End(r, reason);
    }

    method RearmAll(refs: seq<Ref>, auth: bool)
      requires forall a :: a in refs ==> a < |all|
      modifies `all
      ensures all == S.Rearm(old(all), refs, auth)
    {
      ghost var was := all;
      assert all == S.Rearm(was, [], auth);
      for i := 0 to |refs|
        invariant all == S.Rearm(was, refs[..i], auth)
      {
        var a := refs[i];
        assert a in refs;
        all := all[a := S.Armed(all[a], auth)];
        assert refs[..i + 1] == refs[..i] + [a];
        assert all == S.Rearm(was, refs[..i + 1], auth);
      }
      assert refs[..|refs|] == refs;
    }

    /** Rearm a REQ, and its handles. */
    method RearmWith(r: Ref, auth: bool, ghost s: S.Registry)
      requires S.Sound(s) && r < |s.all|
      requires |all| == |s.all| && groups == s.groups && liveBySubId == s.liveBySubId && all[r].id == s.all[r].id
      modifies `all
      ensures all == S.Rearm(old(all), S.With(s, r), auth)
    {
      hide S.Sound, S.With;
      WithIn(s, r);
      ghost var was := all;
      RearmAll([r], auth);
      assert [r] + [] == [r];
      if all[r].id in liveBySubId {
        RearmBoth(was, [r], groups[liveBySubId[all[r].id]].attachments, auth);
        RearmAll(groups[liveBySubId[all[r].id]].attachments, auth);
      }
    }

    /** replay; `sends` says whether the socket takes the message, or `send` throws. */
    method ReplaySub(r: Ref, sends: bool) returns (ok: bool)
      requires S.Sound(Now()) && r < |all| && !all[r].role.Handle?
      modifies this
      ensures Now() == (if sends then S.Replay(old(Now()), r) else S.Rearmed(old(Now()), r)) && ok == sends
      ensures S.Sound(Now())
    {
      hide S.Sound, S.With, S.Rearm, S.ReplayFilters, SameShape;
      ghost var was := Now();
      ReplaySound(was, r);
      RearmedSound(was, r);
      RearmWith(r, false, was);
      RearmAsks(was.all, S.With(was, r), r, false);
      var filters := ReplayFilters(r);
      if !sends {
        return false;
      }
      sent := sent + [S.Req(all[r].id, filters)];
      ok := true;
    }

    /** beginAuthRetry: the first retry wins. */
    method BeginAuthRetry(r: Ref) returns (begun: bool)
      requires S.Sound(Now()) && r < |all|
      modifies `all
      ensures begun <==> !old(all)[r].authRetried
      ensures Now() == (if begun then S.BeginRetry(old(Now()), r) else old(Now())) && S.Sound(Now())
    {
      hide S.Sound;
      BeginRetrySound(Now(), r);
      if all[r].authRetried {
        return false;
      }
      all := all[r := all[r].(authRetried := true)];
      begun := true;
    }

    /**
     * authRetry, once `ensureAuthed` has said yes (`authed`), or no, or has thrown; the message that follows may
     * fail as well.
     */
    method AuthRetry(r: Ref, reason: string, authed: bool, open: bool, sends: bool)
      requires S.Sound(Now()) && r < |all| && !all[r].role.Handle?
      modifies this
      ensures Now() == S.AuthRetry(old(Now()), r, reason, authed, open, sends)
      ensures S.Sound(Now()) <==> CanDrop(old(Now()), r)
    {
      hide S.Sound, S.Drop, S.Replay, S.Rearmed, SameShape, CanDrop;
      AuthRetryExactly(Now(), r, reason, authed, open, sends);
      if !authed || all[r].closed || !open {
        DropSub(r, reason);
        return;
      }
      RearmedSound(Now(), r);
      var sent := ReplaySub(r, sends);
      if !sent {
        RearmedAlike(old(Now()), r);
        DropSub(r, reason);
      }
    }

    /** Rearm one open REQ and send it again, unless the socket takes no more. */
    method ReplayNext(r: Ref, room: nat, ghost s: S.Registry, ghost q: seq<Ref>) returns (ok: bool)
      requires S.Sound(s) && r < |s.all| && !s.all[r].role.Handle?
      requires Within(s, q) && Now() == Sent(s, q, q)
      modifies `all, `sent
      ensures ok <==> room > 0
      ensures Within(s, q + [r]) && Now() == Sent(s, q + [r], if ok then q + [r] else q)
    {
      hide S.Sound, S.With, S.Withs, S.Rearm, S.Reqs, S.ReplayFilters;
      ArmedNext(s, q, r);
      RearmWith(r, true, s);
      if room == 0 {
        return false;
      }
      var filters := ReplayFilters(r);
      sent := sent + [S.Req(all[r].id, filters)];
      ReqsNext(s.all, q, r);
      ok := true;
    }

    /** replayAll; the socket takes `room` more messages before `send` throws. */
    method ReplayAll(room: nat) returns (ok: bool)
      requires S.Sound(Now())
      modifies `all, `sent
      ensures Now() == S.ReplayAll(old(Now()), room) && S.Sound(Now())
      ensures ok <==> |S.Queue(old(Now()), old(subs).keys)| <= room
    {
      hide S.Sound, S.Queue, S.ReplayAll, SameShape, Sent, Queued, Within;
      ghost var was := Now();
      ReplayAllSound(was, room);
      var left := room;
      ghost var q: seq<Ref> := [];
      SentNothing(was);
      for i := 0 to |subs.keys|
        invariant Within(was, q) && Queued(was, i, q) && left == room - |q|
        invariant Now() == Sent(was, q, q)
      {
        SentKeeps(was, q, q);
        QueuedNext(was, i, q);
        var r := subs.values[subs.keys[i]];
        if !all[r].closed {
          ok := ReplayNext(r, left, was, q);
          if !ok {
            ReplayCut(was, room, q, r, i);
            return;
          }
          left := left - 1;
          q := q + [r];
        }
        SentKeeps(was, q, q);
      }
      ReplayWhole(was, room, q);
      ok := true;
    }

    /** end of each REQ that is still listed. */
    method EndListed(keys: seq<string>, reason: string, ghost s: S.Registry)
      requires keys == s.subs.keys && S.Sound(s) && Ended(s, keys, Now(), reason)
      modifies `all, `calls
      ensures all == S.CloseAll(s, reason).all && calls == S.CloseAll(s, reason).calls
    {
      hide S.Sound, S.CloseAll, Ended, S.Exclusives, Parting;
      ghost var t := Now();
      LeftLast(s, t, reason);
      LeftNone(s, t, reason);
      ghost var refs: seq<Ref> := [];
      for i := 0 to |keys|
        invariant refs == S.Exclusives(s, keys[..i]) && |all| == |t.all|
        invariant Parting(t, refs, reason, all, calls)
      {
        LeftNext(s, t, reason, i);
        if keys[i] in subs.values {
          var r := subs.values[keys[i]];
          PartingNext(t, refs, reason, all, calls, r);
          End(r, reason);
          refs := if t.all[r].closed then refs else refs + [r];
        }
      }
      assert keys[..|keys|] == keys;
      PartingLast(t, refs, reason, all, calls);
    }

    method CloseAll(reason: string)
      requires S.Sound(Now())
      modifies this
      ensures Now() == S.CloseAll(old(Now()), reason)
      ensures S.Sound(Now()) && forall r: Ref :: r < |all| ==> all[r].closed
    {
      hide S.Sound, S.CloseAll, S.EndGroup, S.GroupAgrees, Ended, Distinct;
      ghost var was := Now();
      CloseAllSound(was, reason);
      var keys := subs.keys;
      EndedNone(was, reason);
      for i := 0 to |keys|
        invariant S.Sound(was) && Ended(was, keys[..i], Now(), reason)
      {
        EndedNext(was, keys, i, Now(), reason);
        if keys[i] in liveBySubId {
          EndLiveGroup(liveBySubId[keys[i]], false, false, reason);
        }
      }
      assert keys[..|keys|] == keys;
      EndedAll(was, Now(), reason);
      EndListed(keys, reason, was);
      subs := Empty();
      liveByFp := map[];
      liveBySubId := map[];
    }
  }

  /** matchFilters. */
  method MatchFilters(filters: seq<Filter>, e: Event) returns (fits: bool)
    ensures fits == MatchesAny(filters, e)
  {
    for i := 0 to |filters|
      invariant forall j :: 0 <= j < i ==> !Matches(filters[j], e)
    {
      var hit := MatchFilter(filters[i], e);
      if hit {
        assert filters[i] in filters;
        return true;
      }
    }
    fits := false;
  }
}
