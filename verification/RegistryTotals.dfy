/**
 * What every run of the subscription registry adds up to: how often a REQ is closed on the wire, how often a
 * subscriber is told so, and which events its handlers see (src/relay/subscription-registry.ts).
 */
module RegistryTotals {
  import opened Events
  import opened Filters
  import opened Ordered
  import opened RegistrySpec
  import opened RegistryRuns
  import Sequences
  import P = Fingerprints

  /** How often the handlers of `r` were told of its end. */
  function Said(calls: seq<Call>, r: Ref): nat {
    if calls == [] then 0
    else
      var last := calls[|calls| - 1];
      Said(calls[..|calls| - 1], r) + if last.OnClose? && last.to == r then 1 else 0
  }

  lemma {:induction false} SaidAppend(a: seq<Call>, b: seq<Call>, r: Ref)
    ensures Said(a + b, r) == Said(a, r) + Said(b, r)
  {
    if b == [] {
      assert a + b == a;
    } else {
      var n := |b| - 1;
      assert (a + b)[..|a + b| - 1] == a + b[..n];
      SaidAppend(a, b[..n], r);
    }
  }

  lemma {:induction false} SaidNothing(calls: seq<Call>, r: Ref)
    requires forall i :: 0 <= i < |calls| ==> !calls[i].OnClose?
    ensures Said(calls, r) == 0
  {
    if calls != [] {
      SaidNothing(calls[..|calls| - 1], r);
    }
  }

  lemma {:induction false} SaidGoodbyes(refs: seq<Ref>, reason: string, r: Ref)
    ensures Said(Goodbyes(refs, reason), r) == multiset(refs)[r]
  {
    if refs != [] {
      var n := |refs| - 1;
      assert Goodbyes(refs, reason)[..n] == Goodbyes(refs[..n], reason);
      SaidGoodbyes(refs[..n], reason, r);
      assert refs == refs[..n] + [refs[n]];
    }
  }

  lemma {:induction false} DistinctTimes(refs: seq<Ref>, r: Ref)
    requires Distinct(refs)
    ensures multiset(refs)[r] == if r in refs then 1 else 0
  {
    if refs != [] {
      DistinctTimes(refs[1..], r);
      assert refs == [refs[0]] + refs[1..];
    }
  }

  // ---- totals ----

  /** A subscriber is told of the end of its subscription once, when it ends; a wire has nobody to tell. */
  ghost predicate ToldOnce(s: Registry) {
    forall r: Ref :: Said(s.calls, r) == (if r < |s.all| && s.all[r].closed && s.all[r].role != Wire then 1 else 0)
  }

  /** The REQs that were made under this id and are closed. */
  ghost function ClosedUnder(s: Registry, id: string): set<Ref> {
    set r: Ref | r < |s.all| && !s.all[r].role.Handle? && s.all[r].id == id && s.all[r].closed
  }

  /** No REQ is closed twice on the wire, and none as long as it is open. */
  ghost predicate ClosedOnce(s: Registry) {
    forall id :: multiset(s.sent)[Close(id)] <= |ClosedUnder(s, id)|
  }

  /** A group is kept under the fingerprint of its wire and of all the handles that were ever made for it. */
  ghost predicate PrintKept(s: Registry, fpOf: seq<Filter> -> string, r: Ref)
    requires r < |s.all|
  {
    match s.all[r].role
    case Exclusive => true
    case Wire => r in s.groups && s.groups[r].fp == fpOf(s.all[r].filters)
    case Handle(g) => g < r && g in s.groups && s.groups[g].fp == fpOf(s.all[r].filters) && s.all[g].role == Wire
  }

  ghost predicate PrintsKept(s: Registry, fpOf: seq<Filter> -> string) {
    forall r: Ref :: r < |s.all| ==> PrintKept(s, fpOf, r)
  }

  /** The filters of a subscription that a handler of it heard of match the event. */
  ghost predicate Fits(s: Registry, call: Call) {
    call.OnEvent? ==>
      call.to < |s.all| && s.all[call.to].role != Wire && MatchesAny(s.all[call.to].filters, call.event)
  }

  ghost predicate HeardMatches(s: Registry) {
    forall i :: 0 <= i < |s.calls| ==> Fits(s, s.calls[i])
  }

  ghost predicate Tally(s: Registry, fpOf: seq<Filter> -> string) {
    ToldOnce(s) && ClosedOnce(s) && PrintsKept(s, fpOf) && HeardMatches(s)
  }

  // ---- how a step adds to them ----

  /** Subscriptions are never unmade and a closed one stays closed. */
  ghost predicate Onward(s: Registry, s': Registry) {
    && |s.all| <= |s'.all|
    && (forall r: Ref :: r < |s.all| ==>
          && s'.all[r].id == s.all[r].id && s'.all[r].role == s.all[r].role && s'.all[r].filters == s.all[r].filters
          && (s.all[r].closed ==> s'.all[r].closed))
    && forall g :: g in s.groups ==> g in s'.groups && s'.groups[g].fp == s.groups[g].fp
  }

  ghost predicate Ends(s: Registry, s': Registry, r: Ref) {
    r < |s'.all| && s'.all[r].closed && s'.all[r].role != Wire && (r < |s.all| ==> !s.all[r].closed)
  }

  lemma ToldKept(s: Registry, s': Registry, delta: seq<Call>)
    requires ToldOnce(s) && Onward(s, s') && s'.calls == s.calls + delta
    requires forall r: Ref :: Said(delta, r) == (if Ends(s, s', r) then 1 else 0)
    ensures ToldOnce(s')
  {
    forall r: Ref
      ensures Said(s'.calls, r) == (if r < |s'.all| && s'.all[r].closed && s'.all[r].role != Wire then 1 else 0)
    {
      SaidAppend(s.calls, delta, r);
      assert Said(s.calls, r) == (if r < |s.all| && s.all[r].closed && s.all[r].role != Wire then 1 else 0);
      assert Said(delta, r) == (if Ends(s, s', r) then 1 else 0);
    }
  }

  lemma ClosedStay(s: Registry, s': Registry, id: string)
    requires Onward(s, s')
    ensures |ClosedUnder(s, id)| <= |ClosedUnder(s', id)|
  {
    Sequences.SubsetCount(ClosedUnder(s, id), ClosedUnder(s', id));
  }

  /** Messages that close nothing. */
  lemma ClosedKept(s: Registry, s': Registry, delta: seq<Message>)
    requires ClosedOnce(s) && Onward(s, s') && s'.sent == s.sent + delta
    requires forall i :: 0 <= i < |delta| ==> delta[i].Req?
    ensures ClosedOnce(s')
  {
    hide Onward, ClosedUnder;
    forall id
      ensures multiset(s'.sent)[Close(id)] <= |ClosedUnder(s', id)|
    {
      assert Close(id) !in delta && multiset(delta)[Close(id)] == 0;
      assert multiset(s.sent)[Close(id)] <= |ClosedUnder(s, id)|;
      ClosedStay(s, s', id);
    }
  }

  /** The REQ `g` is closed now and was not before. */
  ghost predicate EndsNow(s: Registry, s': Registry, g: Ref) {
    g < |s'.all| && !s'.all[g].role.Handle? && s'.all[g].closed && (g < |s.all| ==> !s.all[g].closed)
  }

  lemma OneMoreClosed(s: Registry, s': Registry, g: Ref)
    requires Onward(s, s') && EndsNow(s, s', g)
    ensures |ClosedUnder(s, s'.all[g].id)| < |ClosedUnder(s', s'.all[g].id)|
  {
    var id := s'.all[g].id;
    Sequences.SubsetCount(ClosedUnder(s, id) + {g}, ClosedUnder(s', id));
  }

  /** A CLOSE for a REQ that ends now. */
  lemma ClosedAdds(s: Registry, s': Registry, g: Ref)
    requires ClosedOnce(s) && Onward(s, s') && EndsNow(s, s', g)
    requires s'.sent == s.sent + [Close(s'.all[g].id)]
    ensures ClosedOnce(s')
  {
    OneMoreClosed(s, s', g);
    hide Onward, ClosedUnder, EndsNow;
    forall id
      ensures multiset(s'.sent)[Close(id)] <= |ClosedUnder(s', id)|
    {
      assert multiset(s.sent)[Close(id)] <= |ClosedUnder(s, id)|;
      ClosedStay(s, s', id);
    }
  }

  /** At most one REQ was ever made under this id. */
  ghost predicate Unrepeated(s: Registry, id: string) {
    forall r: Ref, q: Ref ::
      (r < |s.all| && q < |s.all| && !s.all[r].role.Handle? && !s.all[q].role.Handle? &&
       s.all[r].id == id && s.all[q].id == id) ==> r == q
  }

  lemma ClosedFew(s: Registry, id: string, r: Ref)
    requires Unrepeated(s, id) && r < |s.all| && !s.all[r].role.Handle? && s.all[r].id == id
    ensures ClosedUnder(s, id) == if s.all[r].closed then {r} else {}
  {
  }

  /** An id that only one REQ ever had is closed once at most, and not while that REQ is open. */
  lemma ClosedOncePerId(s: Registry, r: Ref, fpOf: seq<Filter> -> string)
    requires Tally(s, fpOf) && r < |s.all| && !s.all[r].role.Handle? && Unrepeated(s, s.all[r].id)
    ensures multiset(s.sent)[Close(s.all[r].id)] <= if s.all[r].closed then 1 else 0
  {
    ClosedFew(s, s.all[r].id, r);
    assert multiset(s.sent)[Close(s.all[r].id)] <= |ClosedUnder(s, s.all[r].id)|;
    hide ClosedUnder;
  }

  lemma HeardKept(s: Registry, s': Registry, delta: seq<Call>)
    requires HeardMatches(s) && Onward(s, s') && s'.calls == s.calls + delta
    requires forall i :: 0 <= i < |delta| ==> Fits(s', delta[i])
    ensures HeardMatches(s')
  {
    forall i | 0 <= i < |s'.calls|
      ensures Fits(s', s'.calls[i])
    {
      if i < |s.calls| {
        assert Fits(s, s.calls[i]);
      }
    }
  }

  /** The subscriptions that a step made are kept under their fingerprints. */
  lemma PrintsGo(s: Registry, s': Registry, fpOf: seq<Filter> -> string)
    requires PrintsKept(s, fpOf) && Onward(s, s')
    requires forall r: Ref :: |s.all| <= r < |s'.all| ==> PrintKept(s', fpOf, r)
    ensures PrintsKept(s', fpOf)
  {
    forall r: Ref | r < |s.all|
      ensures PrintKept(s', fpOf, r)
    {
      assert PrintKept(s, fpOf, r);
    }
  }

  // ---- the operations ----

  ghost predicate Fine(s: Registry, fpOf: seq<Filter> -> string) {
    Sound(s) && Tally(s, fpOf)
  }

  lemma SaidOne(r: Ref, reason: string, x: Ref)
    ensures Said([OnClose(r, reason)], x) == if x == r then 1 else 0
  {
    assert [OnClose(r, reason)][..0] == [];
  }

  /** An exclusive REQ leaves, with or without a CLOSE. */
  lemma UnlistedTally(s: Registry, r: Ref, s': Registry, reason: string, fpOf: seq<Filter> -> string)
    requires Fine(s, fpOf) && r < |s.all| && s.all[r].role == Exclusive && !s.all[r].closed && Unlisted(s, r, s')
    requires s'.calls == s.calls + [OnClose(r, reason)]
    requires s'.sent == s.sent || s'.sent == s.sent + [Close(s.all[r].id)]
    ensures Tally(s', fpOf)
  {
    hide Sound, Delete, Said;
    assert Onward(s, s');
    forall x: Ref
      ensures Said([OnClose(r, reason)], x) == (if Ends(s, s', x) then 1 else 0)
    {
      SaidOne(r, reason, x);
    }
    ToldKept(s, s', [OnClose(r, reason)]);
    HeardKept(s, s', [OnClose(r, reason)]);
    PrintsGo(s, s', fpOf);
    if s'.sent == s.sent {
      ClosedKept(s, s', []);
    } else {
      ClosedAdds(s, s', r);
    }
  }

  lemma LeftOnward(s: Registry, g: Ref, r: Ref, s': Registry)
    requires r < |s.all| && g < |s.all| && g in s.groups
    requires Left(s, g, r, s') || Retired(s, g, s')
    ensures Onward(s, s') && |s'.all| == |s.all|
  {
    hide Delete, Without;
  }

  /** A handle leaves, alone or with its group. */
  lemma LeavingTally(s: Registry, g: Ref, r: Ref, s': Registry, reason: string, fpOf: seq<Filter> -> string)
    requires Tally(s, fpOf) && Onward(s, s') && r < |s.all| == |s'.all| && g < |s.all|
    requires s.all[r].role.Handle? && !s.all[r].closed && s.all[g].role == Wire && !s.all[g].closed
    requires forall x: Ref :: x < |s.all| && !s.all[x].closed && s.all[x].role != Wire ==>
      (s'.all[x].closed <==> x == r)
    requires s'.calls == s.calls + [OnClose(r, reason)]
    requires s'.sent == s.sent || (s'.sent == s.sent + [Close(s.all[g].id)] && s'.all[g].closed)
    ensures Tally(s', fpOf)
  {
    hide Said;
    forall x: Ref
      ensures Said([OnClose(r, reason)], x) == (if Ends(s, s', x) then 1 else 0)
    {
      SaidOne(r, reason, x);
    }
    ToldKept(s, s', [OnClose(r, reason)]);
    HeardKept(s, s', [OnClose(r, reason)]);
    PrintsGo(s, s', fpOf);
    if s'.sent == s.sent {
      ClosedKept(s, s', []);
    } else {
      ClosedAdds(s, s', g);
    }
  }

  lemma CloseHandleTally(s: Registry, r: Ref, reason: string, open: bool, fpOf: seq<Filter> -> string)
    requires Fine(s, fpOf) && r < |s.all| && s.all[r].role.Handle? && !s.all[r].closed
    ensures Tally(CloseOne(s, r, reason, open), fpOf)
  {
    hide Tally, Sound, Retired, Left, CloseOne;
    var g := s.all[r].role.of;
    LastHandleCloses(s, r, reason, open);
    CloseFacts(s, r, reason, open);
    HandleOpen(s, r);
    LeftOnward(s, g, r, CloseOne(s, r, reason, open));
    LeavingTally(s, g, r, CloseOne(s, r, reason, open), reason, fpOf);
  }

  lemma CloseOneTally(s: Registry, r: Ref, reason: string, open: bool, fpOf: seq<Filter> -> string)
    requires Fine(s, fpOf) && r < |s.all| && s.all[r].role != Wire
    ensures Tally(CloseOne(s, r, reason, open), fpOf)
  {
    hide Sound, Tally, Shut, Delete, Retire, Without;
    if s.all[r].closed {
    } else if s.all[r].role.Handle? {
      CloseHandleTally(s, r, reason, open, fpOf);
    } else {
      var s' := CloseOne(s, r, reason, open);
      assert s'.all == s.all[r := s.all[r].(closed := true)];
      UnlistedTally(s, r, s', reason, fpOf);
    }
  }

  /** Flags, watermarks, REQs and calls that say no goodbye. */
  lemma ShapeTally(s: Registry, s': Registry, calls: seq<Call>, sent: seq<Message>, fpOf: seq<Filter> -> string)
    requires Fine(s, fpOf) && SameShape(s, s') && s'.calls == s.calls + calls && s'.sent == s.sent + sent
    requires forall i :: 0 <= i < |calls| ==> !calls[i].OnClose? && Fits(s', calls[i])
    requires forall i :: 0 <= i < |sent| ==> sent[i].Req?
    ensures Tally(s', fpOf)
  {
    hide Sound, Said, Fits;
    assert Onward(s, s');
    forall x: Ref
      ensures Said(calls, x) == (if Ends(s, s', x) then 1 else 0)
    {
      SaidNothing(calls, x);
    }
    ToldKept(s, s', calls);
    HeardKept(s, s', calls);
    PrintsGo(s, s', fpOf);
    ClosedKept(s, s', sent);
  }

  lemma EoseOneTally(s: Registry, r: Ref, open: bool, fpOf: seq<Filter> -> string)
    requires Fine(s, fpOf) && r < |s.all| && s.all[r].role != Wire
    ensures Tally(EoseOne(s, r, open), fpOf)
  {
    hide MapsSound, GroupAgrees, CloseOne, Sound, Tally;
    if !s.all[r].closed && !s.all[r].eosed {
      var s' := s.(all := s.all[r := s.all[r].(eosed := true)], calls := s.calls + [OnEose(r)]);
      ShapeSound(s, s');
      ShapeTally(s, s', [OnEose(r)], [], fpOf);
      if s.all[r].role == Exclusive {
        CloseOneTally(s', r, "eose", open, fpOf);
      }
    }
  }

  lemma HandleEoseTally(s: Registry, id: string, open: bool, fpOf: seq<Filter> -> string)
    requires Fine(s, fpOf)
    ensures Tally(HandleEose(s, id, open), fpOf)
  {
    hide Sound, EoseOne, Tally, Waiting, Eoses, SameShape;
    if id in s.subs.values {
      ListedRole(s, id);
      var r := s.subs.values[id];
      if s.all[r].role != Wire {
        EoseOneTally(s, r, open, fpOf);
      } else if !s.all[r].eosed {
        HandleEoseShape(s, id, open);
        EosesFit(HandleEose(s, id, open), Waiting(s.all, s.groups[r].attachments));
        ShapeTally(s, HandleEose(s, id, open), Eoses(Waiting(s.all, s.groups[r].attachments)), [], fpOf);
      }
    }
  }

  lemma EosesFit(s': Registry, refs: seq<Ref>)
    ensures forall i :: 0 <= i < |refs| ==> !Eoses(refs)[i].OnClose? && Fits(s', Eoses(refs)[i])
  {
  }

  /** The handles that a group ends are those that are told so. */
  lemma GroupTold(s: Registry, g: Ref, s': Registry, reason: string, x: Ref)
    requires Sound(s) && CanRetire(s, g) && Retired(s, g, s')
    ensures Said(Goodbyes(s.groups[g].attachments, reason), x) == (if Ends(s, s', x) then 1 else 0)
  {
    var refs := s.groups[g].attachments;
    SaidGoodbyes(refs, reason, x);
    assert GroupAgrees(s, g);
    DistinctTimes(refs, x);
    assert x in refs ==> IsHandle(s, g, x);
    if x < |s.all| {
      assert Reached(s, x);
    }
    hide Sound, Said, Goodbyes, Distinct, GroupAgrees;
  }

  lemma EndGroupTally(s: Registry, g: Ref, reason: string, fpOf: seq<Filter> -> string)
    requires Fine(s, fpOf) && CanRetire(s, g)
    ensures Tally(EndGroup(s, g, false, reason), fpOf)
  {
    hide Sound, Said, Retired, CanRetire, Retire, Goodbyes, ToldOnce, ClosedOnce, PrintsKept, HeardMatches, Ends;
    CanRetireFacts(s, g);
    var s' := EndGroup(s, g, false, reason);
    var delta := Goodbyes(s.groups[g].attachments, reason);
    EndGroupSound(s, g, false, reason);
    LeftOnward(s, g, g, s');
    forall x: Ref
      ensures Said(delta, x) == (if Ends(s, s', x) then 1 else 0)
    {
      GroupTold(s, g, s', reason, x);
    }
    ToldKept(s, s', delta);
    HeardKept(s, s', delta);
    PrintsGo(s, s', fpOf);
    ClosedKept(s, s', []);
  }

  lemma CanRetireFacts(s: Registry, g: Ref)
    requires CanRetire(s, g)
    ensures Sound(s) && g < |s.all| && g in s.groups
  {
  }

  lemma DropTally(s: Registry, r: Ref, reason: string, fpOf: seq<Filter> -> string)
    requires Fine(s, fpOf) && r < |s.all| && !s.all[r].role.Handle?
    ensures Tally(Drop(s, r, reason), fpOf)
  {
    hide Tally, Sound, EndGroup, Delete, Unlisted, CanRetire;
    LiveRetires(s, s.all[r].id);
    var s' := Drop(s, r, reason);
    if s.all[r].id in s.liveBySubId {
      EndGroupTally(s, LiveAt(s, s.all[r].id).value, reason, fpOf);
    } else {
      DropUnlists(s, r, reason);
      if s.all[r].closed {
        SameTally(s, s', fpOf);
      } else {
        OneShot(s, r);
        UnlistedTally(s, r, s', reason, fpOf);
      }
    }
  }

  /** An open REQ that leads no group is a one-shot REQ. */
  lemma OneShot(s: Registry, r: Ref)
    requires Sound(s) && r < |s.all| && !s.all[r].role.Handle? && !s.all[r].closed && s.all[r].id !in s.liveBySubId
    ensures s.all[r].role == Exclusive
  {
    hide MapsSound, GroupAgrees;
    assert Reached(s, r);
  }

  /** Nothing that counts has changed. */
  lemma SameTally(s: Registry, s': Registry, fpOf: seq<Filter> -> string)
    requires Tally(s, fpOf) && s'.all == s.all && s'.groups == s.groups && s'.sent == s.sent && s'.calls == s.calls
    ensures Tally(s', fpOf)
  {
    hide Said;
    assert Onward(s, s');
    PrintsGo(s, s', fpOf);
    ClosedKept(s, s', []);
    HeardKept(s, s', []);
    assert forall r: Ref :: Said(s.calls, r) == Said(s'.calls, r);
  }

  /** An attachment is asked for what its wire asks for. */
  lemma SameMeaning(s: Registry, g: Ref, a: Ref, e: Event, fpOf: seq<Filter> -> string)
    requires Fine(s, fpOf) && P.Faithful(fpOf) && Attached(s, g, a)
    ensures IsHandle(s, g, a) && (MatchesAny(s.all[g].filters, e) <==> MatchesAny(s.all[a].filters, e))
  {
    hide MapsSound, Reached, MatchesAny, ToldOnce, ClosedOnce, HeardMatches;
    assert GroupAgrees(s, g);
    assert PrintKept(s, fpOf, g) && PrintKept(s, fpOf, a);
  }

  lemma DeliveriesFit(s: Registry, r: Ref, e: Event, have: set<Ref>, fpOf: seq<Filter> -> string)
    requires Fine(s, fpOf) && P.Faithful(fpOf) && r < |s.all| && MatchesAny(s.all[r].filters, e)
    requires s.all[r].role != Wire || r in s.groups
    requires !s.all[r].role.Handle?
    ensures
      var refs := if s.all[r].role == Wire then s.groups[r].attachments else [r];
      forall i :: 0 <= i < |Recipients(s.all, refs, have)| ==> Fits(s, OnEvent(Recipients(s.all, refs, have)[i], e))
  {
    hide Sound, Tally, MatchesAny;
    var refs := if s.all[r].role == Wire then s.groups[r].attachments else [r];
    var to := Recipients(s.all, refs, have);
    forall i | 0 <= i < |to|
      ensures Fits(s, OnEvent(to[i], e))
    {
      assert to[i] in to && to[i] in refs;
      if s.all[r].role == Wire {
        assert Attached(s, r, to[i]);
        SameMeaning(s, r, to[i], e, fpOf);
      }
    }
  }

  lemma HandleEventTally(s: Registry, id: string, e: Event, now: int, have: set<Ref>, accepted: bool,
                         fpOf: seq<Filter> -> string)
    requires Fine(s, fpOf) && P.Faithful(fpOf)
    ensures Tally(HandleEvent(s, id, e, now, have, accepted), fpOf)
  {
    hide Sound, Tally, MatchesAny, Recipients, P.Faithful, Noted, NotedBy, Receipts, Deliveries;
    if id in s.subs.values {
      ListedRole(s, id);
      var r := s.subs.values[id];
      if !s.all[r].closed {
        var s' := HandleEvent(s, id, e, now, have, accepted);
        var refs := if s.all[r].role == Wire then s.groups[r].attachments else [r];
        var to := Recipients(s.all, refs, have);
        if e.id in s.all[r].atMark || to == [] || !MatchesAny(s.all[r].filters, e) || !accepted {
          HeardTally(s, s', refs, e.id, fpOf);
        } else {
          DeliveriesFit(s, r, e, have, fpOf);
          DeliveryTally(s, s', refs, to, if s.all[r].role == Wire then [r] + to else to, e, now, fpOf);
        }
      }
    }
  }

  lemma HeardTally(s: Registry, s': Registry, refs: seq<Ref>, id: string, fpOf: seq<Filter> -> string)
    requires Fine(s, fpOf) && s' == s.(calls := s.calls + Receipts(refs, id))
    ensures Tally(s', fpOf)
  {
    hide Sound, Tally;
    ShapeTally(s, s', Receipts(refs, id), [], fpOf);
  }

  lemma DeliveryTally(s: Registry, s': Registry, refs: seq<Ref>, to: seq<Ref>, noted: seq<Ref>, e: Event, now: int,
                      fpOf: seq<Filter> -> string)
    requires Fine(s, fpOf)
    requires forall i :: 0 <= i < |to| ==> Fits(s, OnEvent(to[i], e))
    requires s' == s.(all := NotedBy(s.all, noted, e, now),
                      calls := s.calls + Receipts(refs, e.id) + Deliveries(to, e))
    ensures Tally(s', fpOf)
  {
    var calls := Receipts(refs, e.id) + Deliveries(to, e);
    assert s'.calls == s.calls + calls;
    hide Sound, Tally, MatchesAny, Min;
    forall i | 0 <= i < |calls|
      ensures !calls[i].OnClose? && Fits(s', calls[i])
    {
      if |refs| <= i {
        assert Fits(s, OnEvent(to[i - |refs|], e));
      }
    }
    hide Fits, Noted;
    assert SameShape(s, s') by {
      NotedShape(s, s', noted, e, now);
    }
    ShapeTally(s, s', calls, [], fpOf);
  }

  lemma ReplayTally(s: Registry, r: Ref, fpOf: seq<Filter> -> string)
    requires Fine(s, fpOf) && r < |s.all|
    ensures Tally(Replay(s, r), fpOf)
  {
    ReplaySound(s, r);
    hide Sound, Tally, With, ReplayFilters, SameShape;
    ShapeTally(s, Replay(s, r), [], [Req(s.all[r].id, ReplayFilters(s.all[r]))], fpOf);
  }

  lemma AuthRetryTally(s: Registry, r: Ref, reason: string, authed: bool, open: bool, sends: bool,
                       fpOf: seq<Filter> -> string)
    requires Fine(s, fpOf) && r < |s.all| && !s.all[r].role.Handle?
    ensures Tally(AuthRetry(s, r, reason, authed, open, sends), fpOf)
  {
    hide Replay, Drop, Sound, Tally, SameShape, With;
    if !authed || s.all[r].closed || !open {
      DropTally(s, r, reason, fpOf);
    } else if sends {
      ReplayTally(s, r, fpOf);
    } else {
      RearmedSound(s, r);
      ShapeTally(s, Rearmed(s, r), [], [], fpOf);
      DropTally(Rearmed(s, r), r, reason, fpOf);
    }
  }

  lemma ReplayAllTally(s: Registry, room: nat, fpOf: seq<Filter> -> string)
    requires Fine(s, fpOf)
    ensures Tally(ReplayAll(s, room), fpOf)
  {
    ReplayAllSound(s, room);
    hide Sound, Tally, Withs, Queue, SameShape;
    var q := Queue(s, s.subs.keys);
    var n := if room < |q| then room else |q|;
    assert forall i :: 0 <= i < n ==> q[..n][i] == q[i];
    ShapeTally(s, ReplayAll(s, room), [], Reqs(s.all, q[..n]), fpOf);
  }

  // ---- opening ----

  lemma OpenExclusiveTally(s: Registry, filters: seq<Filter>, id: string, aborted: bool, open: bool, reconnect: bool,
                           fpOf: seq<Filter> -> string)
    requires Fine(s, fpOf)
    ensures Tally(OpenExclusive(s, filters, id, aborted, open, reconnect), fpOf)
  {
    var s' := OpenExclusive(s, filters, id, aborted, open, reconnect);
    hide Sound, Said, Enter, Delete;
    assert Onward(s, s');
    var delta := if aborted then [OnClose(|s.all|, "aborted")] else [];
    forall x: Ref
      ensures Said(delta, x) == (if Ends(s, s', x) then 1 else 0)
    {
      SaidOne(|s.all|, "aborted", x);
      SaidNothing([], x);
    }
    ToldKept(s, s', delta);
    HeardKept(s, s', delta);
    PrintsGo(s, s', fpOf);
    if aborted && open {
      var mid := s'.(sent := s.sent + [Close(id)]);
      ClosedAdds(s, mid, |s.all|);
      assert Onward(mid, s');
      ClosedKept(mid, s', [Req(id, filters)]);
    } else {
      ClosedKept(s, s', if open then [Req(id, filters)] else []);
    }
  }

  lemma JoinTally(s: Registry, g: Ref, filters: seq<Filter>, aborted: bool, fpOf: seq<Filter> -> string)
    requires Fine(s, fpOf) && g < |s.all| && g in s.groups && s.groups[g].fp == fpOf(filters) && s.all[g].role == Wire
    ensures Tally(Join(s, g, filters, aborted), fpOf)
  {
    var s' := Join(s, g, filters, aborted);
    hide Sound, Said;
    assert Onward(s, s');
    var delta := if aborted then [OnClose(|s.all|, "aborted")] else [];
    forall x: Ref
      ensures Said(delta, x) == (if Ends(s, s', x) then 1 else 0)
    {
      SaidOne(|s.all|, "aborted", x);
      SaidNothing([], x);
    }
    ToldKept(s, s', delta);
    HeardKept(s, s', delta);
    PrintsGo(s, s', fpOf);
    ClosedKept(s, s', []);
  }

  /** A wire and a handle on it were made, with nothing else that counts here. */
  lemma PairTally(s: Registry, s': Registry, filters: seq<Filter>, id: string, aborted: bool, refs: seq<Ref>,
                  sent: seq<Message>, fpOf: seq<Filter> -> string)
    requires Fine(s, fpOf)
    requires s'.all == s.all + [Born(id, filters, Wire, aborted), Born(id, filters, Handle(|s.all|), aborted)]
    requires s'.groups == s.groups[|s.all| := LiveGroup(fpOf(filters), refs)]
    requires s'.calls == s.calls + if aborted then [OnClose(|s.all| + 1, "aborted")] else []
    requires s'.sent == s.sent + sent && forall i :: 0 <= i < |sent| ==> sent[i].Req?
    ensures Tally(s', fpOf)
  {
    GroupsOld(s);
    hide Sound, Said;
    var g := |s.all|;
    assert Onward(s, s');
    var delta := if aborted then [OnClose(g + 1, "aborted")] else [];
    forall x: Ref
      ensures Said(delta, x) == (if Ends(s, s', x) then 1 else 0)
    {
      SaidOne(g + 1, "aborted", x);
      SaidNothing([], x);
    }
    ToldKept(s, s', delta);
    HeardKept(s, s', delta);
    PrintsGo(s, s', fpOf);
    ClosedKept(s, s', sent);
  }

  lemma StartTally(s: Registry, filters: seq<Filter>, id: string, aborted: bool, open: bool, reconnect: bool,
                   fpOf: seq<Filter> -> string)
    requires Fine(s, fpOf)
    ensures Tally(Start(s, fpOf(filters), filters, id, aborted, open, reconnect), fpOf)
  {
    hide Sound, Tally, Enter, Delete;
    PairTally(s, Start(s, fpOf(filters), filters, id, aborted, open, reconnect), filters, id, aborted,
              if aborted then [] else [|s.all| + 1], if !aborted && open then [Req(id, filters)] else [], fpOf);
  }

  lemma OpenLiveTally(s: Registry, filters: seq<Filter>, id: string, aborted: bool, open: bool, reconnect: bool,
                      fpOf: seq<Filter> -> string)
    requires Fine(s, fpOf)
    ensures Tally(OpenLive(s, fpOf(filters), filters, id, aborted, open, reconnect), fpOf)
  {
    hide Sound, Tally, Start, Join, Joinable;
    if Joinable(s, fpOf(filters)).Some? {
      JoinableRegistered(s, fpOf(filters));
      JoinTally(s, Joinable(s, fpOf(filters)).value, filters, aborted, fpOf);
    } else {
      StartTally(s, filters, id, aborted, open, reconnect, fpOf);
    }
  }

  // ---- closing everything ----

  /** The handles of the groups under these ids, each once. */
  lemma {:induction false} FarewellsOnce(s: Registry, ids: seq<string>, r: Ref)
    requires Sound(s) && Distinct(ids)
    ensures multiset(Farewells(s, ids))[r] ==
      if r < |s.all| && !s.all[r].closed && s.all[r].role.Handle? && s.all[r].id in ids then 1 else 0
  {
    hide Sound, Distinct;
    if ids != [] {
      var id := ids[|ids| - 1];
      DistinctInit(ids);
      FarewellsOnce(s, ids[..|ids| - 1], r);
      GroupOnce(s, id, r);
      assert ids == ids[..|ids| - 1] + [id];
    }
  }

  lemma GroupOnce(s: Registry, id: string, r: Ref)
    requires Sound(s)
    ensures multiset(if id in s.liveBySubId && s.liveBySubId[id] in s.groups
                     then s.groups[s.liveBySubId[id]].attachments else [])[r] ==
      if r < |s.all| && !s.all[r].closed && s.all[r].role.Handle? && s.all[r].id == id then 1 else 0
  {
    if r < |s.all| && !s.all[r].closed && s.all[r].role.Handle? {
      HandleOpen(s, r);
    }
    if id in s.liveBySubId {
      var g := s.liveBySubId[id];
      assert WireAgrees(s, id);
      assert GroupAgrees(s, g);
      DistinctTimes(s.groups[g].attachments, r);
      assert r in s.groups[g].attachments ==> IsHandle(s, g, r);
    }
  }

  /** An id leads to an open one-shot REQ exactly when that one is open and has this id. */
  lemma OneShotAt(s: Registry, id: string, r: Ref)
    requires Sound(s)
    ensures Held(s, id) && id !in s.liveBySubId && s.subs.values[id] == r <==>
      r < |s.all| && !s.all[r].closed && s.all[r].role == Exclusive && s.all[r].id == id
  {
    hide GroupAgrees;
    assert id in s.subs.values ==> SubAgrees(s, id);
    assert id in s.liveBySubId ==> WireAgrees(s, id);
    if r < |s.all| {
      assert Reached(s, r);
    }
  }

  lemma {:induction false} ExclusivesOnce(s: Registry, ids: seq<string>, r: Ref)
    requires Sound(s) && Distinct(ids)
    ensures multiset(Exclusives(s, ids))[r] ==
      if r < |s.all| && !s.all[r].closed && s.all[r].role == Exclusive && s.all[r].id in ids then 1 else 0
  {
    hide Sound, Distinct;
    if ids != [] {
      var id := ids[|ids| - 1];
      DistinctInit(ids);
      ExclusivesOnce(s, ids[..|ids| - 1], r);
      OneShotAt(s, id, r);
      assert ids == ids[..|ids| - 1] + [id];
    }
  }

  /** closeAll tells exactly those whose subscription it ends. */
  lemma FarewellsTold(s: Registry, reason: string, x: Ref)
    requires Sound(s)
    ensures
      var refs := Farewells(s, s.subs.keys) + Exclusives(s, s.subs.keys);
      Said(Goodbyes(refs, reason), x) ==
        if x < |s.all| && !s.all[x].closed && s.all[x].role != Wire then 1 else 0
  {
    hide GroupAgrees, Farewells, Exclusives, Said, Goodbyes;
    var keys := s.subs.keys;
    SaidGoodbyes(Farewells(s, keys) + Exclusives(s, keys), reason, x);
    FarewellsOnce(s, keys, x);
    ExclusivesOnce(s, keys, x);
    if x < |s.all| && !s.all[x].closed {
      assert Reached(s, x);
      if s.all[x].role.Handle? {
        HandleOpen(s, x);
        assert WireAgrees(s, s.all[x].id);
      }
      assert s.all[x].role != Wire ==> s.all[x].id in Elements(keys);
    }
  }

  lemma CloseAllTally(s: Registry, reason: string, fpOf: seq<Filter> -> string)
    requires Fine(s, fpOf)
    ensures Tally(CloseAll(s, reason), fpOf)
  {
    hide Sound, Said, Farewells, Exclusives, Goodbyes;
    var s' := CloseAll(s, reason);
    var delta := Goodbyes(Farewells(s, s.subs.keys) + Exclusives(s, s.subs.keys), reason);
    assert Onward(s, s');
    forall x: Ref
      ensures Said(delta, x) == (if Ends(s, s', x) then 1 else 0)
    {
      FarewellsTold(s, reason, x);
    }
    ToldKept(s, s', delta);
    HeardKept(s, s', delta);
    PrintsGo(s, s', fpOf);
    ClosedKept(s, s', []);
  }

  // ---- runs ----

  /** A call of the registry, with what the world answered during it. */
  datatype Step =
    | Open(filters: seq<Filter>, closeOnEose: bool, id: string, aborted: bool, open: bool)
    | CloseIt(r: Ref, reason: string, open: bool)
    | Timer(r: Ref, open: bool)
    | Eose(id: string, open: bool)
    | Receive(id: string, event: Event, now: int, have: set<Ref>, accepted: bool)
    | Dropped(r: Ref, reason: string)
    | Demanded(r: Ref)
    | Authenticated(r: Ref, reason: string, authed: bool, open: bool, sends: bool)
    | Reconnected(room: nat)
    | Shutdown(reason: string)

  /** Only handles and one-shot REQs are given out, and only REQs get a CLOSED; one retry at most is begun. */
  predicate Posed(s: Registry, step: Step) {
    match step
    case CloseIt(r, reason, open) => r < |s.all| && s.all[r].role != Wire
    case Timer(r, open) => r < |s.all| && s.all[r].role != Wire
    case Dropped(r, reason) => r < |s.all| && !s.all[r].role.Handle?
    case Demanded(r) => r < |s.all| && !s.all[r].role.Handle? && !s.all[r].authRetried
    case Authenticated(r, reason, authed, open, sends) => r < |s.all| && !s.all[r].role.Handle?
    case _ => true
  }

  /**
   * The id of a new REQ is not that of an open one, and a REQ that gets a CLOSED, or whose authentication ends, has
   * not lost its id to an open one-shot REQ.
   */
  ghost predicate Allowed(s: Registry, step: Step, fpOf: seq<Filter> -> string) {
    && Posed(s, step)
    && match step
       case Open(filters, once, id, aborted, open) => once || Joinable(s, fpOf(filters)).None? ==> !Held(s, id)
       case Dropped(r, reason) => CanDrop(s, r)
       case Authenticated(r, reason, authed, open, sends) => CanDrop(s, r)
       case _ => true
  }

  ghost function Do(s: Registry, step: Step, fpOf: seq<Filter> -> string, reconnect: bool): Registry
    requires Sound(s) && Posed(s, step)
  {
    match step
    case Open(filters, once, id, aborted, open) =>
      if once then OpenExclusive(s, filters, id, aborted, open, reconnect)
      else OpenLive(s, fpOf(filters), filters, id, aborted, open, reconnect)
    case CloseIt(r, reason, open) => CloseOne(s, r, reason, open)
    case Timer(r, open) => EoseOne(s, r, open)
    case Eose(id, open) => HandleEose(s, id, open)
    case Receive(id, e, now, have, accepted) => HandleEvent(s, id, e, now, have, accepted)
    case Dropped(r, reason) => Drop(s, r, reason)
    case Demanded(r) => BeginRetry(s, r)
    case Authenticated(r, reason, authed, open, sends) => AuthRetry(s, r, reason, authed, open, sends)
    case Reconnected(room) => ReplayAll(s, room)
    case Shutdown(reason) => CloseAll(s, reason)
  }

  /** A step keeps the registry sound exactly when it is an allowed one. */
  lemma StepExactly(s: Registry, step: Step, fpOf: seq<Filter> -> string, reconnect: bool)
    requires Sound(s) && Posed(s, step)
    ensures Sound(Do(s, step, fpOf, reconnect)) <==> Allowed(s, step, fpOf)
  {
    hide Sound, Held, OpenExclusive, OpenLive, CloseOne, EoseOne, HandleEose, HandleEvent, Drop, AuthRetry, ReplayAll,
      CloseAll, Joinable, CanDrop, SameShape;
    match step
    case Open(filters, once, id, aborted, open) =>
      if once {
        OpenExclusiveExactly(s, filters, id, aborted, open, reconnect);
      } else {
        OpenLiveExactly(s, fpOf(filters), filters, id, aborted, open, reconnect);
      }
    case CloseIt(r, reason, open) => CloseOneSound(s, r, reason, open);
    case Timer(r, open) => EoseOneSound(s, r, open);
    case Eose(id, open) => HandleEoseSound(s, id, open);
    case Receive(id, e, now, have, accepted) => HandleEventSound(s, id, e, now, have, accepted);
    case Dropped(r, reason) => DropExactly(s, r, reason);
    case Demanded(r) => BeginRetrySound(s, r);
    case Authenticated(r, reason, authed, open, sends) => AuthRetryExactly(s, r, reason, authed, open, sends);
    case Reconnected(room) => ReplayAllSound(s, room);
    case Shutdown(reason) => CloseAllSound(s, reason);
  }

  /** Every step keeps the totals right. */
  lemma StepTally(s: Registry, step: Step, fpOf: seq<Filter> -> string, reconnect: bool)
    requires Fine(s, fpOf) && P.Faithful(fpOf) && Posed(s, step)
    ensures Tally(Do(s, step, fpOf, reconnect), fpOf)
  {
    hide Sound, Tally, P.Faithful, OpenExclusive, OpenLive, CloseOne, EoseOne, HandleEose, HandleEvent, Drop, AuthRetry,
      ReplayAll, CloseAll;
    match step
    case Open(filters, once, id, aborted, open) =>
      if once {
        OpenExclusiveTally(s, filters, id, aborted, open, reconnect, fpOf);
      } else {
        OpenLiveTally(s, filters, id, aborted, open, reconnect, fpOf);
      }
    case CloseIt(r, reason, open) => CloseOneTally(s, r, reason, open, fpOf);
    case Timer(r, open) => EoseOneTally(s, r, open, fpOf);
    case Eose(id, open) => HandleEoseTally(s, id, open, fpOf);
    case Receive(id, e, now, have, accepted) => HandleEventTally(s, id, e, now, have, accepted, fpOf);
    case Dropped(r, reason) => DropTally(s, r, reason, fpOf);
    case Demanded(r) =>
      BeginRetryShape(s, r);
      ShapeTally(s, BeginRetry(s, r), [], [], fpOf);
    case Authenticated(r, reason, authed, open, sends) => AuthRetryTally(s, r, reason, authed, open, sends, fpOf);
    case Reconnected(room) => ReplayAllTally(s, room, fpOf);
    case Shutdown(reason) => CloseAllTally(s, reason, fpOf);
  }

  /** Every allowed step keeps the registry sound and its totals right. */
  lemma StepFine(s: Registry, step: Step, fpOf: seq<Filter> -> string, reconnect: bool)
    requires Fine(s, fpOf) && P.Faithful(fpOf) && Allowed(s, step, fpOf)
    ensures Fine(Do(s, step, fpOf, reconnect), fpOf)
  {
    hide Sound, Tally, P.Faithful, Do, Held, Joinable, CanDrop;
    StepExactly(s, step, fpOf, reconnect);
    StepTally(s, step, fpOf, reconnect);
  }

  /** The states of a run: it starts with an empty registry, and `Do` leads from each sound state to the next. */
  ghost predicate Run(states: seq<Registry>, steps: seq<Step>, fpOf: seq<Filter> -> string, reconnect: bool) {
    && |states| == |steps| + 1 && states[0] == New()
    && forall i :: 0 <= i < |steps| ==>
         && Allowed(states[i], steps[i], fpOf)
         && (Sound(states[i]) ==> states[i + 1] == Do(states[i], steps[i], fpOf, reconnect))
  }

  lemma NewFine(fpOf: seq<Filter> -> string)
    ensures Fine(New(), fpOf)
  {
    var s := New();
    assert WellFormed(s.subs);
    assert forall r: Ref :: Said(s.calls, r) == 0;
  }

  /** In every run, every step leaves the registry sound and its totals right. */
  lemma {:induction false} RunFine(states: seq<Registry>, steps: seq<Step>, fpOf: seq<Filter> -> string,
                                   reconnect: bool, n: nat)
    requires P.Faithful(fpOf) && Run(states, steps, fpOf, reconnect) && n < |states|
    ensures Fine(states[n], fpOf)
  {
    hide Sound, Tally, P.Faithful, Do;
    if n == 0 {
      NewFine(fpOf);
    } else {
      RunFine(states, steps, fpOf, reconnect, n - 1);
      assert Allowed(states[n - 1], steps[n - 1], fpOf);
      StepFine(states[n - 1], steps[n - 1], fpOf, reconnect);
    }
  }

  /**
   * In every run of allowed steps, after every step: the maps agree and lead to open subscriptions, a group that is
   * registered has an attachment, nothing open is out of reach, an id was closed on the wire no more often than REQs
   * under it ended, each subscriber was told of its end once if it ended, and heard of matching events only. All that
   * is asked of the text of filters is that of a canonical filter begins no other.
   */
  lemma EveryRun(states: seq<Registry>, steps: seq<Step>, json: Filter -> string, reconnect: bool, n: nat)
    requires P.PrefixFree(json) && Run(states, steps, P.FingerprintOf(json), reconnect) && n < |states|
    ensures Fine(states[n], P.FingerprintOf(json))
  {
    hide Fine, P.Faithful, Run, P.PrefixFree;
    P.FingerprintFaithful(json);
    RunFine(states, steps, P.FingerprintOf(json), reconnect, n);
  }

  /**
   * A wire that its last subscriber leaves on an open socket is closed there; when no other REQ ever had its id,
   * that is the only CLOSE of the id.
   */
  lemma LastCloseCounts(s: Registry, r: Ref, reason: string, fpOf: seq<Filter> -> string)
    requires Fine(s, fpOf) && Last(s, r) && !s.all[r].closed && s.all[r].role.of < |s.all|
    ensures
      && var id := s.all[s.all[r].role.of].id;
      && var s' := CloseOne(s, r, reason, true);
      && multiset(s'.sent)[Close(id)] == multiset(s.sent)[Close(id)] + 1
      && (Unrepeated(s, id) ==> multiset(s'.sent)[Close(id)] == 1)
  {
    LastHandleCloses(s, r, reason, true);
    HandleOpen(s, r);
    if Unrepeated(s, s.all[s.all[r].role.of].id) {
      ClosedOncePerId(s, s.all[r].role.of, fpOf);
    }
    hide Sound, CloseOne, Tally;
  }

  // ---- a REQ that is listed although it is closed ----

  /** Every listed REQ is open. */
  ghost predicate ListedOpen(s: Registry)
    requires Sound(s)
  {
    forall id :: id in s.subs.values ==> !s.all[s.subs.values[id]].closed
  }

  /** No listed REQ is newly listed or newly closed. */
  ghost predicate NoneAdded(s: Registry, s': Registry) {
    |s.all| <= |s'.all| && forall id :: id in s'.subs.values ==>
      && id in s.subs.values && s'.subs.values[id] == s.subs.values[id] && s.subs.values[id] < |s.all|
      && (s'.all[s.subs.values[id]].closed ==> s.all[s.subs.values[id]].closed)
  }

  lemma RetiredAdds(s: Registry, g: Ref, r: Ref, s': Registry)
    requires Sound(s) && g < |s.all| && g in s.groups && r < |s.all| && Registered(s, g)
    requires Retired(s, g, s') || (s.all[r].role == Handle(g) && Left(s, g, r, s'))
    ensures NoneAdded(s, s')
  {
    hide WellFormed, GroupAgrees, Reached, Without;
    forall id | id in s'.subs.values
      ensures id in s.subs.values && s'.subs.values[id] == s.subs.values[id] && s.subs.values[id] < |s.all|
      ensures s'.all[s.subs.values[id]].closed ==> s.all[s.subs.values[id]].closed
    {
      assert SubAgrees(s, id);
    }
  }

  lemma UnlistedAdds(s: Registry, r: Ref, s': Registry)
    requires Sound(s) && r < |s.all| && Unlisted(s, r, s')
    ensures NoneAdded(s, s')
  {
    hide WellFormed, GroupAgrees, Reached;
    forall id | id in s'.subs.values
      ensures id in s.subs.values && s'.subs.values[id] == s.subs.values[id] && s.subs.values[id] < |s.all|
      ensures s'.all[s.subs.values[id]].closed ==> s.all[s.subs.values[id]].closed
    {
      assert SubAgrees(s, id);
    }
  }

  lemma CloseOneAdds(s: Registry, r: Ref, reason: string, open: bool)
    requires Sound(s) && r < |s.all| && s.all[r].role != Wire
    ensures NoneAdded(s, CloseOne(s, r, reason, open))
  {
    var s' := CloseOne(s, r, reason, open);
    if s.all[r].closed {
      forall id | id in s.subs.values
        ensures s.subs.values[id] < |s.all|
      {
        assert SubAgrees(s, id);
      }
    } else if s.all[r].role.Handle? {
      CloseFacts(s, r, reason, open);
      HandleOpen(s, r);
      hide Sound, CloseOne, Retired, Left, NoneAdded;
      RetiredAdds(s, s.all[r].role.of, r, s');
    } else {
      hide Sound, Delete, NoneAdded;
      assert s'.all == s.all[r := s.all[r].(closed := true)];
      UnlistedAdds(s, r, s');
    }
  }

  lemma ShapeAdds(s: Registry, s': Registry)
    requires Sound(s) && SameShape(s, s')
    ensures NoneAdded(s, s')
  {
    hide WellFormed, GroupAgrees, Reached;
    forall id | id in s.subs.values
      ensures s.subs.values[id] < |s.all|
    {
      assert SubAgrees(s, id);
    }
  }

  lemma EoseOneAdds(s: Registry, r: Ref, open: bool)
    requires Sound(s) && r < |s.all| && s.all[r].role != Wire
    ensures NoneAdded(s, EoseOne(s, r, open))
  {
    hide Sound, CloseOne;
    if s.all[r].closed || s.all[r].eosed {
      ShapeAdds(s, s);
    } else {
      var s' := s.(all := s.all[r := s.all[r].(eosed := true)], calls := s.calls + [OnEose(r)]);
      ShapeSound(s, s');
      ShapeAdds(s, s');
      if s.all[r].role == Exclusive {
        CloseOneAdds(s', r, "eose", open);
      }
    }
  }

  lemma HandleEoseAdds(s: Registry, id: string, open: bool)
    requires Sound(s)
    ensures NoneAdded(s, HandleEose(s, id, open))
  {
    assert id in s.subs.values ==> SubAgrees(s, id);
    hide MapsSound, GroupAgrees, EoseOne, Sound, SameShape, Waiting, Eoses, NoneAdded;
    if id in s.subs.values && s.all[s.subs.values[id]].role != Wire {
      EoseOneAdds(s, s.subs.values[id], open);
    } else {
      HandleEoseShape(s, id, open);
      ShapeAdds(s, HandleEose(s, id, open));
    }
  }

  lemma DropAdds(s: Registry, r: Ref, reason: string)
    requires Sound(s) && r < |s.all| && !s.all[r].role.Handle?
    ensures NoneAdded(s, Drop(s, r, reason))
  {
    hide Sound, EndGroup, Retired, NoneAdded, Unlisted, Delete;
    LiveRetires(s, s.all[r].id);
    var s' := Drop(s, r, reason);
    if s.all[r].id in s.liveBySubId {
      var g := LiveAt(s, s.all[r].id).value;
      EndGroupSound(s, g, false, reason);
      RetiredAdds(s, g, g, s');
    } else {
      DropUnlists(s, r, reason);
      UnlistedAdds(s, r, s');
    }
  }

  /**
   * A listed REQ is open, unless a one-shot REQ is opened with a signal that is already aborted: that one is
   * listed after it has closed itself. No other step lists a closed REQ or leaves one listed.
   */
  lemma ListedOpenSteps(s: Registry, step: Step, fpOf: seq<Filter> -> string, reconnect: bool)
    requires Fine(s, fpOf) && P.Faithful(fpOf) && Allowed(s, step, fpOf) && ListedOpen(s)
    ensures Sound(Do(s, step, fpOf, reconnect))
    ensures ListedOpen(Do(s, step, fpOf, reconnect)) <==> !(step.Open? && step.closeOnEose && step.aborted)
  {
    StepFine(s, step, fpOf, reconnect);
    hide Sound, Tally, P.Faithful, CloseOne, EoseOne, HandleEose, HandleEvent, Drop, AuthRetry, Replay, ReplayAll,
      Joinable, SameShape;
    match step
    case Open(filters, once, id, aborted, open) =>
      OpenListed(s, step, fpOf, reconnect);
    case CloseIt(r, reason, open) => CloseOneAdds(s, r, reason, open);
    case Timer(r, open) => EoseOneAdds(s, r, open);
    case Eose(id, open) => HandleEoseAdds(s, id, open);
    case Receive(id, e, now, have, accepted) =>
      HandleEventSound(s, id, e, now, have, accepted);
      ShapeAdds(s, HandleEvent(s, id, e, now, have, accepted));
    case Dropped(r, reason) => DropAdds(s, r, reason);
    case Demanded(r) =>
      BeginRetryShape(s, r);
      ShapeAdds(s, BeginRetry(s, r));
    case Authenticated(r, reason, authed, open, sends) => AuthRetryAdds(s, r, reason, authed, open, sends);
    case Reconnected(room) =>
      ReplayAllSound(s, room);
      ShapeAdds(s, ReplayAll(s, room));
    case Shutdown(reason) =>
  }

  lemma AuthRetryAdds(s: Registry, r: Ref, reason: string, authed: bool, open: bool, sends: bool)
    requires Sound(s) && r < |s.all| && !s.all[r].role.Handle?
    ensures NoneAdded(s, AuthRetry(s, r, reason, authed, open, sends))
  {
    hide Sound, Replay, Drop, SameShape, NoneAdded, With;
    DropAdds(s, r, reason);
    ReplaySound(s, r);
    ShapeAdds(s, Replay(s, r));
    RearmedSound(s, r);
    ShapeAdds(s, Rearmed(s, r));
    DropAdds(Rearmed(s, r), r, reason);
    AddsBoth(s, Rearmed(s, r), Drop(Rearmed(s, r), r, reason));
  }

  lemma AddsBoth(s: Registry, t: Registry, s': Registry)
    requires NoneAdded(s, t) && NoneAdded(t, s') && |t.all| == |s.all|
    ensures NoneAdded(s, s')
  {
  }

  /** One more REQ is listed under an unused id, and it is closed or not. */
  lemma OneListed(s: Registry, s': Registry, id: string, closed: bool)
    requires Sound(s) && ListedOpen(s) && Sound(s') && id !in s.subs.values
    requires |s.all| < |s'.all| && forall x: Ref :: x < |s.all| ==> s'.all[x] == s.all[x]
    requires s'.subs.values == s.subs.values[id := |s.all|] && s'.all[|s.all|].closed == closed
    ensures ListedOpen(s') <==> !closed
  {
    forall x | x in s.subs.values
      ensures s.subs.values[x] < |s.all|
    {
      assert SubAgrees(s, x);
    }
    hide Sound;
    assert id in s'.subs.values;
    forall x | x in s'.subs.values && x != id
      ensures !s'.all[s'.subs.values[x]].closed
    {
      assert x in s.subs.values;
    }
  }

  /** If every listed REQ is open, an id that is not held is not listed. */
  lemma FreeUnlisted(s: Registry, id: string)
    requires Sound(s) && ListedOpen(s) && !Held(s, id)
    ensures id !in s.subs.values && Delete(s.subs, id) == s.subs
  {
    hide GroupAgrees, Reached;
    assert id in s.subs.values ==> SubAgrees(s, id);
    DeleteWellFormed(s.subs, id);
  }

  lemma OpenListed(s: Registry, step: Step, fpOf: seq<Filter> -> string, reconnect: bool)
    requires Sound(s) && Allowed(s, step, fpOf) && ListedOpen(s) && step.Open?
    requires Sound(Do(s, step, fpOf, reconnect))
    ensures ListedOpen(Do(s, step, fpOf, reconnect)) <==> !(step.closeOnEose && step.aborted)
  {
    hide Sound, Delete, Joinable, ListedOpen;
    var s' := Do(s, step, fpOf, reconnect);
    if !step.closeOnEose && Joinable(s, fpOf(step.filters)).Some? {
      JoinableRegistered(s, fpOf(step.filters));
      NoneListed(s, s');
    } else {
      FreeUnlisted(s, step.id);
      if step.closeOnEose || !step.aborted {
        OneListed(s, s', step.id, step.aborted);
      } else {
        NoneListed(s, s');
      }
    }
  }

  lemma NoneListed(s: Registry, s': Registry)
    requires Sound(s) && Sound(s') && ListedOpen(s) && s'.subs.values == s.subs.values
    requires |s.all| <= |s'.all| && forall x: Ref :: x < |s.all| ==> s'.all[x] == s.all[x]
    ensures ListedOpen(s')
  {
    forall id | id in s.subs.values
      ensures s.subs.values[id] < |s.all|
    {
      assert SubAgrees(s, id);
    }
  }

  /**
   * A one-shot REQ opened over an open socket with an aborted signal: its CLOSE is sent, then its REQ, and it stays
   * listed although it is closed. With any other signal the REQ alone is sent.
   */
  lemma AbortedOnce(s: Registry, filters: seq<Filter>, id: string, aborted: bool, reconnect: bool)
    ensures
      && var s' := OpenExclusive(s, filters, id, aborted, true, reconnect);
      && s'.sent == s.sent + (if aborted then [Close(id), Req(id, filters)] else [Req(id, filters)])
      && id in s'.subs.values && s'.subs.values[id] == |s.all| && s'.all[|s.all|].closed == aborted
  {
    hide Delete;
  }

  /** Already the first REQ of a registry can be left behind like that. */
  lemma LeavesOneBehind(filters: seq<Filter>, id: string, fpOf: seq<Filter> -> string, reconnect: bool)
    ensures
      && var step := Open(filters, true, id, true, true);
      && Sound(New()) && Allowed(New(), step, fpOf)
      && var s' := Do(New(), step, fpOf, reconnect);
      && s'.sent == [Close(id), Req(id, filters)]
      && Sound(s') && !ListedOpen(s')
  {
    NewFine(fpOf);
    AbortedOnce(New(), filters, id, true, reconnect);
    OpenExclusiveSound(New(), filters, id, true, true, reconnect);
    hide Sound;
    assert New().sent == [];
  }

  /**
   * Once the id of an open REQ is repeated, the two maps of ids disagree: a one-shot REQ under the id of a live one.
   * `OpenExclusiveExactly` and `StartExactly` say when that happens.
   */
  lemma RepeatedIdDisagrees(filters: seq<Filter>, id: string, fp: string, open: bool, reconnect: bool)
    ensures
      && var s := OpenLive(New(), fp, filters, id, false, open, reconnect);
      && var s' := OpenExclusive(s, filters, id, false, open, reconnect);
      && id in s'.liveBySubId && id in s'.subs.values && s'.liveBySubId[id] != s'.subs.values[id]
      && !Sound(s')
  {
    var s := OpenLive(New(), fp, filters, id, false, open, reconnect);
    var s' := OpenExclusive(s, filters, id, false, open, reconnect);
    assert s'.liveBySubId[id] == 0 && s'.subs.values[id] == 2;
    assert !WireAgrees(s', id);
  }

  /**
   * When the authentication for a REQ ends after it was closed, and a live REQ has taken its id over meanwhile, it is
   * the handles of that one that are closed.
   */
  lemma LateRetryEnds(s: Registry, r: Ref, reason: string, authed: bool, open: bool, sends: bool)
    requires Sound(s) && r < |s.all| && !s.all[r].role.Handle? && s.all[r].closed && s.all[r].id in s.liveBySubId
    ensures
      && var g := s.liveBySubId[s.all[r].id];
      && var s' := AuthRetry(s, r, reason, authed, open, sends);
      && g in s.groups && s.groups[g].attachments != [] && |s'.all| == |s.all| && s.all[r].id !in s'.subs.values
      && forall a :: a in s.groups[g].attachments ==> a < |s.all| && !s.all[a].closed && s'.all[a].closed
  {
    LiveRetires(s, s.all[r].id);
    var g := s.liveBySubId[s.all[r].id];
    EndGroupSound(s, g, false, reason);
    assert WireAgrees(s, s.all[r].id);
    assert GroupAgrees(s, g);
    hide MapsSound, EndGroup;
    forall a | a in s.groups[g].attachments
      ensures a < |s.all| && !s.all[a].closed && EndGroup(s, g, false, reason).all[a].closed
    {
      assert IsHandle(s, g, a);
    }
  }

  /** A one-shot REQ that took the id over is taken off the list while it is open: `AuthRetryExactly` says when. */
  lemma LateRetryForgets(filters: seq<Filter>, id: string, reason: string, authed: bool, open: bool, sends: bool,
                         reconnect: bool)
    ensures
      && var s0 := OpenExclusive(New(), filters, id, false, open, reconnect);
      && var s1 := CloseOne(s0, 0, reason, open);
      && var s2 := OpenExclusive(s1, filters, id, false, open, reconnect);
      && s2.all[0].closed && !s2.all[1].closed && s2.subs.values[id] == 1
      && var s3 := AuthRetry(s2, 0, reason, authed, open, sends);
      && !s3.all[1].closed && id !in s3.subs.values && !Sound(s3)
  {
    var s0 := OpenExclusive(New(), filters, id, false, open, reconnect);
    var s1 := CloseOne(s0, 0, reason, open);
    var s2 := OpenExclusive(s1, filters, id, false, open, reconnect);
    var s3 := AuthRetry(s2, 0, reason, authed, open, sends);
    hide MapsSound, GroupAgrees;
    assert !Reached(s3, 1);
  }
}
