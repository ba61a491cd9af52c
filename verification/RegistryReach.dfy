/**
 * Whom the messages of a relay reach (src/relay/subscription-registry.ts): which REQs are sent again after a
 * reconnect, who waits for the EOSE of a REQ and is told of it, and who is given an event.
 */
module RegistryReach {
  import opened Events
  import opened Filters
  import opened Ordered
  import opened RegistrySpec
  import opened RegistryRuns
  import opened RegistryTotals
  import F = RegistryFacts
  import P = Fingerprints

  /** `x` was given out, by `open`, under the id of a REQ, and has not been closed since. */
  predicate Under(s: Registry, id: string, x: Ref) {
    x < |s.all| && !s.all[x].closed && s.all[x].role != Wire && s.all[x].id == id
  }

  /** No EOSE came in for `x`, nor for the wire of `x` if it has one. */
  predicate Awaits(s: Registry, x: Ref) {
    && x < |s.all| && !s.all[x].eosed
    && (s.all[x].role.Handle? ==> s.all[x].role.of < |s.all| && !s.all[s.all[x].role.of].eosed)
  }

  /** A step sent a REQ of this id. */
  ghost predicate Asks(s: Registry, s': Registry, id: string) {
    |s.sent| <= |s'.sent| && exists i :: |s.sent| <= i < |s'.sent| && s'.sent[i].Req? && s'.sent[i].id == id
  }

  // ---- who is listed where ----

  /** What was given out under an id is found through the one REQ that is listed under it. */
  lemma UnderListed(s: Registry, id: string, x: Ref)
    requires Sound(s) && Under(s, id, x)
    ensures
      && id in s.subs.values
      && var r := s.subs.values[id];
      && r < |s.all| && s.all[r].id == id && !s.all[r].closed
      && (s.all[x].role == Exclusive ==> r == x)
      && (s.all[x].role != Exclusive ==> s.all[x].role == Handle(r) && s.all[r].role == Wire && Attached(s, r, x))
  {
    assert Reached(s, x);
    if s.all[x].role.Handle? {
      var g := s.all[x].role.of;
      HandleOpen(s, x);
      WireListed(s, g);
    }
  }

  /** The attachments of a listed wire are what was given out under its id. */
  lemma AttachedUnder(s: Registry, id: string, x: Ref)
    requires Sound(s) && id in s.subs.values && s.subs.values[id] < |s.all|
    requires Attached(s, s.subs.values[id], x)
    ensures s.all[s.subs.values[id]].id == id && Under(s, id, x)
  {
    assert SubAgrees(s, id);
    assert GroupAgrees(s, s.subs.values[id]);
    assert IsHandle(s, s.subs.values[id], x);
  }

  // ---- who is told of an EOSE ----

  lemma {:induction false} WaitingHas(all: seq<Subscription>, refs: seq<Ref>, x: Ref)
    ensures x in Waiting(all, refs) <==> x in refs && x < |all| && !all[x].closed && !all[x].eosed
    ensures Distinct(refs) ==> Distinct(Waiting(all, refs))
  {
    if refs != [] {
      var n := |refs| - 1;
      WaitingHas(all, refs[..n], x);
      assert refs == refs[..n] + [refs[n]];
      if Distinct(refs) {
        DistinctInit(refs);
        DistinctSnoc(Waiting(all, refs[..n]), refs[n]);
      }
    }
  }

  lemma {:induction false} EoseTimes(refs: seq<Ref>, x: Ref)
    requires Distinct(refs)
    ensures multiset(Eoses(refs))[OnEose(x)] == if x in refs then 1 else 0
  {
    if refs != [] {
      var n := |refs| - 1;
      DistinctInit(refs);
      EoseTimes(refs[..n], x);
      assert refs == refs[..n] + [refs[n]];
      assert Eoses(refs) == Eoses(refs[..n]) + [OnEose(refs[n])];
    }
  }

  lemma WaitingTimes(all: seq<Subscription>, refs: seq<Ref>, x: Ref)
    requires Distinct(refs)
    ensures multiset(Eoses(Waiting(all, refs)))[OnEose(x)] ==
      if x in refs && x < |all| && !all[x].closed && !all[x].eosed then 1 else 0
  {
    hide Eoses, Waiting, Distinct;
    WaitingHas(all, refs, x);
    EoseTimes(Waiting(all, refs), x);
  }

  lemma EoseOneTimes(s: Registry, r: Ref, open: bool, x: Ref)
    requires Sound(s) && r < |s.all| && s.all[r].role != Wire
    ensures multiset(EoseOne(s, r, open).calls)[OnEose(x)] ==
      multiset(s.calls)[OnEose(x)] + if x == r && !s.all[r].closed && !s.all[r].eosed then 1 else 0
  {
    hide Sound, Delete, Shut;
    if !s.all[r].closed && !s.all[r].eosed && s.all[r].role == Exclusive {
      assert EoseOne(s, r, open).calls == s.calls + [OnEose(r)] + [OnClose(r, "eose")];
    }
  }

  /** An EOSE is told once to everyone under its id who waits for it, and to nobody else. */
  lemma EoseReaches(s: Registry, id: string, open: bool, x: Ref)
    requires Sound(s)
    ensures multiset(HandleEose(s, id, open).calls)[OnEose(x)] ==
      multiset(s.calls)[OnEose(x)] + if Under(s, id, x) && Awaits(s, x) then 1 else 0
  {
    hide Sound, EoseOne;
    if Under(s, id, x) {
      UnderListed(s, id, x);
    }
    if id in s.subs.values {
      ListedRole(s, id);
      var r := s.subs.values[id];
      if s.all[r].role != Wire {
        EoseOneTimes(s, r, open, x);
        ListedId(s, id);
      } else if !s.all[r].eosed {
        var refs := s.groups[r].attachments;
        GroupOnce(s, r);
        WaitingTimes(s.all, refs, x);
        if x in refs {
          AttachedUnder(s, id, x);
        }
      }
    }
  }

  lemma ListedId(s: Registry, id: string)
    requires Sound(s) && id in s.subs.values
    ensures s.subs.values[id] < |s.all| && s.all[s.subs.values[id]].id == id
  {
    assert SubAgrees(s, id);
  }

  lemma GroupOnce(s: Registry, g: Ref)
    requires Sound(s) && g in s.groups
    ensures Distinct(s.groups[g].attachments)
  {
    assert GroupAgrees(s, g);
  }

  /** What an EOSE leaves of the REQ that is listed under its id. */
  lemma EoseLeaves(s: Registry, id: string, open: bool)
    requires Sound(s)
    ensures
      && var s' := HandleEose(s, id, open);
      && (id in s'.subs.values ==>
            && s'.subs.values[id] < |s'.all|
            && (s'.all[s'.subs.values[id]].eosed || s'.all[s'.subs.values[id]].closed))
  {
    hide Sound, Waiting, Retire, Shut;
    if id in s.subs.values {
      ListedRole(s, id);
      ListedId(s, id);
    }
  }

  /** After an EOSE nobody under its id waits for another one. */
  lemma EoseSettles(s: Registry, id: string, open: bool, x: Ref)
    requires Sound(s) && Under(HandleEose(s, id, open), id, x)
    ensures !Awaits(HandleEose(s, id, open), x)
  {
    hide Sound, HandleEose;
    HandleEoseSound(s, id, open);
    EoseLeaves(s, id, open);
    UnderListed(HandleEose(s, id, open), id, x);
  }

  /** Right after an EOSE no live REQ can join the wire of its id. */
  lemma NoLateJoin(s: Registry, id: string, open: bool, fp: string)
    requires Sound(s) && Joinable(HandleEose(s, id, open), fp).Some?
    ensures
      && var s' := HandleEose(s, id, open);
      && Joinable(s', fp).value < |s'.all| && s'.all[Joinable(s', fp).value].id != id
  {
    hide Sound, HandleEose;
    var s' := HandleEose(s, id, open);
    HandleEoseSound(s, id, open);
    EoseLeaves(s, id, open);
    JoinableRegistered(s', fp);
    WireListed(s', Joinable(s', fp).value);
  }

  // ---- who is given an event ----

  /** The event is given to `x`, by the filters and the watermark of the REQ that is listed under the id. */
  predicate Takes(s: Registry, id: string, e: Event, have: set<Ref>, accepted: bool, x: Ref) {
    && Under(s, id, x) && x !in have && accepted
    && id in s.subs.values && s.subs.values[id] < |s.all|
    && e.id !in s.all[s.subs.values[id]].atMark && MatchesAny(s.all[s.subs.values[id]].filters, e)
  }

  lemma {:induction false} DeliveryTimes(refs: seq<Ref>, e: Event, x: Ref)
    requires Distinct(refs)
    ensures multiset(Deliveries(refs, e))[OnEvent(x, e)] == if x in refs then 1 else 0
  {
    if refs != [] {
      var n := |refs| - 1;
      DistinctInit(refs);
      DeliveryTimes(refs[..n], e, x);
      assert refs == refs[..n] + [refs[n]];
      assert Deliveries(refs, e) == Deliveries(refs[..n], e) + [OnEvent(refs[n], e)];
    }
  }

  lemma {:induction false} ReceiptTimes(refs: seq<Ref>, id: string, x: Ref)
    requires Distinct(refs)
    ensures multiset(Receipts(refs, id))[OnReceived(x, id)] == if x in refs then 1 else 0
  {
    if refs != [] {
      var n := |refs| - 1;
      DistinctInit(refs);
      ReceiptTimes(refs[..n], id, x);
      assert refs == refs[..n] + [refs[n]];
      assert Receipts(refs, id) == Receipts(refs[..n], id) + [OnReceived(refs[n], id)];
    }
  }

  lemma NoneElse(refs: seq<Ref>, e: Event, x: Ref)
    ensures multiset(Receipts(refs, e.id))[OnEvent(x, e)] == 0
    ensures multiset(Deliveries(refs, e))[OnReceived(x, e.id)] == 0
  {
    assert OnEvent(x, e) !in Receipts(refs, e.id);
    assert OnReceived(x, e.id) !in Deliveries(refs, e);
  }

  /** What an event is handed to: the attachments of a wire, or the REQ itself. */
  function Audience(s: Registry, id: string): (refs: seq<Ref>) {
    if id !in s.subs.values || s.subs.values[id] >= |s.all| || s.all[s.subs.values[id]].closed then []
    else if s.all[s.subs.values[id]].role != Wire then [s.subs.values[id]]
    else if s.subs.values[id] in s.groups then s.groups[s.subs.values[id]].attachments
    else []
  }

  lemma AudienceUnder(s: Registry, id: string, x: Ref)
    requires Sound(s)
    ensures x in Audience(s, id) <==> Under(s, id, x)
    ensures Distinct(Audience(s, id))
  {
    if Under(s, id, x) {
      UnderListed(s, id, x);
    }
    if id in s.subs.values {
      ListedRole(s, id);
      ListedId(s, id);
      var r := s.subs.values[id];
      if s.all[r].role == Wire {
        GroupOnce(s, r);
        if x in s.groups[r].attachments {
          AttachedUnder(s, id, x);
        }
      }
    }
    hide Sound;
  }

  /** The listed REQ lets the event through. */
  predicate Passes(s: Registry, id: string, e: Event, accepted: bool) {
    && accepted && id in s.subs.values && s.subs.values[id] < |s.all|
    && e.id !in s.all[s.subs.values[id]].atMark && MatchesAny(s.all[s.subs.values[id]].filters, e)
  }

  /** An event, by the audience of its REQ. */
  lemma EventIs(s: Registry, id: string, e: Event, now: int, have: set<Ref>, accepted: bool)
    requires Sound(s)
    ensures
      && var s' := HandleEvent(s, id, e, now, have, accepted);
      && var refs := Audience(s, id);
      && var to := Recipients(s.all, refs, have);
      && var given := if Passes(s, id, e, accepted) then to else [];
      && s'.calls == s.calls + Receipts(refs, e.id) + Deliveries(given, e)
      && (given == [] ==> s'.all == s.all)
      && (given != [] ==>
            && id in s.subs.values && s.subs.values[id] < |s.all|
            && var r := s.subs.values[id];
            && s'.all == NotedBy(s.all, if s.all[r].role == Wire then [r] + to else to, e, now))
  {
    hide Sound, MatchesAny, NotedBy;
    assert Receipts([], e.id) == [] && Deliveries([], e) == [];
    if id in s.subs.values {
      ListedRole(s, id);
    }
  }

  lemma TakesIs(s: Registry, id: string, e: Event, have: set<Ref>, accepted: bool, x: Ref)
    requires Sound(s)
    ensures Takes(s, id, e, have, accepted, x) <==>
      Passes(s, id, e, accepted) && x in Recipients(s.all, Audience(s, id), have)
  {
    AudienceUnder(s, id, x);
    hide Sound, Audience, MatchesAny;
  }

  /** An event is announced once to everyone under its id, and given once to those who take it, and to nobody else. */
  lemma EventReaches(s: Registry, id: string, e: Event, now: int, have: set<Ref>, accepted: bool, x: Ref)
    requires Sound(s)
    ensures
      && var s' := HandleEvent(s, id, e, now, have, accepted);
      && multiset(s'.calls)[OnReceived(x, e.id)] ==
           multiset(s.calls)[OnReceived(x, e.id)] + (if Under(s, id, x) then 1 else 0)
      && multiset(s'.calls)[OnEvent(x, e)] ==
           multiset(s.calls)[OnEvent(x, e)] + (if Takes(s, id, e, have, accepted, x) then 1 else 0)
  {
    hide Sound, HandleEvent, Audience, Recipients, Receipts, Deliveries, Passes, Takes, Distinct;
    EventIs(s, id, e, now, have, accepted);
    AudienceUnder(s, id, x);
    TakesIs(s, id, e, have, accepted, x);
    var refs := Audience(s, id);
    var to := Recipients(s.all, refs, have);
    var given := if Passes(s, id, e, accepted) then to else [];
    F.RecipientsDistinct(s.all, refs, have);
    DistinctNone();
    ReceiptTimes(refs, e.id, x);
    DeliveryTimes(given, e, x);
    NoneElse(refs, e, x);
    NoneElse(given, e, x);
  }

  lemma DistinctNone()
    ensures Distinct<Ref>([])
  {
  }

  /** Those who take an event note it, and the wire that brought it does; nobody else changes. */
  lemma EventNoted(s: Registry, id: string, e: Event, now: int, have: set<Ref>, accepted: bool, x: Ref)
    requires Sound(s) && x < |s.all|
    ensures
      && var s' := HandleEvent(s, id, e, now, have, accepted);
      && var wire := s.all[x].role == Wire && id in s.subs.values && s.subs.values[id] == x;
      && |s'.all| == |s.all|
      && s'.all[x] ==
           if Takes(s, id, e, have, accepted, x) || (wire && exists y :: Takes(s, id, e, have, accepted, y))
           then Noted(s.all[x], e, now) else s.all[x]
  {
    hide Sound, HandleEvent, Audience, Passes, Takes, Noted;
    EventIs(s, id, e, now, have, accepted);
    var to := Recipients(s.all, Audience(s, id), have);
    forall y
      ensures Takes(s, id, e, have, accepted, y) <==> Passes(s, id, e, accepted) && y in to
    {
      TakesIs(s, id, e, have, accepted, y);
    }
    if Passes(s, id, e, accepted) && to != [] {
      assert Takes(s, id, e, have, accepted, to[0]);
    }
  }

  // ---- which REQs are sent again ----

  /** How many of the ids are those of an open REQ. */
  function HeldAmong(s: Registry, ids: seq<string>): nat {
    if ids == [] then 0 else HeldAmong(s, ids[..|ids| - 1]) + if Held(s, ids[|ids| - 1]) then 1 else 0
  }

  lemma {:induction false} QueuePlaces(s: Registry, ids: seq<string>, k: nat)
    requires k < |ids|
    ensures |Queue(s, ids)| == HeldAmong(s, ids)
    ensures Held(s, ids[k]) ==>
      && HeldAmong(s, ids[..k]) < |Queue(s, ids)|
      && Queue(s, ids)[HeldAmong(s, ids[..k])] == s.subs.values[ids[k]]
  {
    var n := |ids| - 1;
    var front := ids[..n];
    if n > 0 {
      QueuePlaces(s, front, if k < n then k else 0);
    }
    if k < n {
      assert front[..k] == ids[..k] && front[k] == ids[k];
    }
  }

  /**
   * After a reconnect the open listed REQs are sent again in the order of the list, each once with its filters bound
   * by its watermark, until the socket takes no more; nothing else is sent and nobody is told anything.
   */
  lemma ReplaySends(s: Registry, room: nat)
    requires Sound(s)
    ensures
      && var s' := ReplayAll(s, room);
      && var keys := s.subs.keys;
      && var n := HeldAmong(s, keys);
      && |s'.sent| == |s.sent| + (if room < n then room else n) && s'.sent[..|s.sent|] == s.sent
      && s'.calls == s.calls
      && forall k :: 0 <= k < |keys| && Held(s, keys[k]) && HeldAmong(s, keys[..k]) < room ==>
           && HeldAmong(s, keys[..k]) < n
           && s'.sent[|s.sent| + HeldAmong(s, keys[..k])] ==
                Req(keys[k], ReplayFilters(s.all[s.subs.values[keys[k]]]))
  {
    hide Sound, Rearm, Withs, Queue, ReplayFilters;
    var s' := ReplayAll(s, room);
    var keys := s.subs.keys;
    var q := Queue(s, keys);
    if keys == [] {
      QueueNone(s);
    } else {
      QueuePlaces(s, keys, 0);
    }
    forall k | 0 <= k < |keys| && Held(s, keys[k]) && HeldAmong(s, keys[..k]) < room
      ensures HeldAmong(s, keys[..k]) < |q|
      ensures s'.sent[|s.sent| + HeldAmong(s, keys[..k])] == Req(keys[k], ReplayFilters(s.all[s.subs.values[keys[k]]]))
    {
      QueuePlaces(s, keys, k);
      HeldId(s, keys[k]);
    }
  }

  lemma QueueNone(s: Registry)
    ensures Queue(s, []) == [] && HeldAmong(s, []) == 0
  {
  }

  lemma HeldId(s: Registry, id: string)
    requires Sound(s) && Held(s, id)
    ensures s.subs.values[id] < |s.all| && s.all[s.subs.values[id]].id == id
  {
    ListedId(s, id);
    hide Sound;
  }

  // ---- who waits for an EOSE ----

  /** What is rearmed along with a listed REQ: everything under its id. */
  lemma WithUnder(s: Registry, id: string, x: Ref)
    requires Sound(s) && Under(s, id, x)
    ensures
      && id in s.subs.values && s.subs.values[id] < |s.all|
      && var refs := With(s, s.subs.values[id]);
      && x in refs && s.subs.values[id] in refs && (s.all[x].role.Handle? ==> s.all[x].role.of in refs)
  {
    UnderListed(s, id, x);
    if s.all[x].role.Handle? {
      assert WireAgrees(s, id);
    }
    hide Sound;
  }

  lemma {:induction false} InWiths(s: Registry, refs: seq<Ref>, i: nat)
    requires i < |refs| && forall k :: 0 <= k < |refs| ==> refs[k] < |s.all|
    ensures forall x :: x in With(s, refs[i]) ==> x in Withs(s, refs)
  {
    hide With;
    if i < |refs| - 1 {
      InWiths(s, refs[..|refs| - 1], i);
    }
  }

  /** A queued REQ is the one that is listed under its id. */
  lemma {:induction false} QueueListed(s: Registry, ids: seq<string>, i: nat)
    requires Sound(s) && i < |Queue(s, ids)|
    ensures
      && var r := Queue(s, ids)[i];
      && r < |s.all| && s.all[r].id in s.subs.values && s.subs.values[s.all[r].id] == r
  {
    hide MapsSound, GroupAgrees, Reached;
    var n := |ids| - 1;
    if i < |Queue(s, ids[..n])| {
      QueueListed(s, ids[..n], i);
    } else {
      ListedId(s, ids[n]);
    }
  }

  /** How many of the queue are rearmed: one more than the socket takes. */
  function Reaches(s: Registry, room: nat): (n: nat)
    ensures n <= |Queue(s, s.subs.keys)|
  {
    var q := Queue(s, s.subs.keys);
    if room < |q| then room + 1 else |q|
  }

  lemma AskedWith(s: Registry, room: nat, id: string, x: Ref)
    requires Sound(s) && Under(s, id, x) && Asks(s, ReplayAll(s, room), id)
    ensures
      && var refs := Withs(s, Queue(s, s.subs.keys)[..Reaches(s, room)]);
      && x in refs && (s.all[x].role.Handle? ==> s.all[x].role.of in refs)
  {
    hide Sound, Withs, Queue, ReplayFilters, With, Rearm;
    var q, s' := Queue(s, s.subs.keys), ReplayAll(s, room);
    var k :| |s.sent| <= k < |s'.sent| && s'.sent[k].Req? && s'.sent[k].id == id;
    var i := k - |s.sent|;
    assert s'.sent[k] == Req(s.all[q[i]].id, ReplayFilters(s.all[q[i]]));
    QueueListed(s, s.subs.keys, i);
    WithUnder(s, id, x);
    assert q[..Reaches(s, room)][i] == q[i];
    InWiths(s, q[..Reaches(s, room)], i);
  }

  /**
   * Everything under the id of a REQ that a reconnect sends again waits for its EOSE, and may be authenticated for
   * once more; nothing else about it has changed.
   */
  lemma ReplayAwaits(s: Registry, room: nat, id: string, x: Ref)
    requires Sound(s) && Under(s, id, x) && Asks(s, ReplayAll(s, room), id)
    ensures var s' := ReplayAll(s, room);
      && Under(s', id, x) && Awaits(s', x) && !s'.all[x].authRetried
      && s'.all[x] == s.all[x].(eosed := false, authRetried := false)
  {
    hide Sound, Withs, Queue, Reqs;
    UnderListed(s, id, x);
    AskedWith(s, room, id, x);
  }

  /** The same of a REQ that is sent again after an authentication. */
  lemma RetryAwaits(s: Registry, r: Ref, reason: string, authed: bool, open: bool, sends: bool, id: string, x: Ref)
    requires Sound(s) && r < |s.all| && !s.all[r].role.Handle?
    requires Asks(s, AuthRetry(s, r, reason, authed, open, sends), id) && Under(s, id, x) && CanDrop(s, r)
    ensures var s' := AuthRetry(s, r, reason, authed, open, sends);
      && s'.sent == s.sent + [Req(id, ReplayFilters(s.all[r]))]
      && Under(s', id, x) && Awaits(s', x) && s'.all[x] == s.all[x].(eosed := false)
  {
    hide Sound, ReplayFilters, With, CanDrop;
    UnderListed(s, id, x);
    WithUnder(s, id, x);
    RetrySends(s, r, reason, authed, open, sends);
    RetryListed(s, r, id);
  }

  /** Only an authentication that succeeded sends anything. */
  lemma RetrySends(s: Registry, r: Ref, reason: string, authed: bool, open: bool, sends: bool)
    requires r < |s.all| && !s.all[r].role.Handle?
    ensures var s' := AuthRetry(s, r, reason, authed, open, sends);
      if authed && !s.all[r].closed && open && sends then s' == Replay(s, r) else s'.sent == s.sent
  {
    hide Forget, With, Rearm, ReplayFilters;
  }

  lemma RetryListed(s: Registry, r: Ref, id: string)
    requires Sound(s) && r < |s.all| && !s.all[r].role.Handle? && s.all[r].id == id && !s.all[r].closed
    ensures id in s.subs.values && s.subs.values[id] == r
  {
    assert Reached(s, r);
    assert id in s.liveBySubId ==> WireAgrees(s, id);
  }

  // ---- in every run ----

  /** A new REQ is asked for under an id that is free, so that only what was just made waits for it. */
  lemma OpenAwaits(s: Registry, step: Step, fpOf: seq<Filter> -> string, reconnect: bool, id: string, x: Ref)
    requires Sound(s) && step.Open? && Allowed(s, step, fpOf)
    requires Asks(s, Do(s, step, fpOf, reconnect), id) && Under(Do(s, step, fpOf, reconnect), id, x)
    ensures Awaits(Do(s, step, fpOf, reconnect), x)
  {
    hide Sound, Enter, Delete, Joinable;
    if x < |s.all| {
      UnderListed(s, id, x);
      assert false;
    }
  }

  /** Nothing but REQs that are opened or sent again asks for anything. */
  lemma Silent(s: Registry, step: Step, fpOf: seq<Filter> -> string, reconnect: bool, id: string)
    requires Sound(s) && Posed(s, step) && Asks(s, Do(s, step, fpOf, reconnect), id)
    ensures step.Open? || step.Authenticated? || step.Reconnected?
  {
    hide Sound, Enter, Delete, Joinable, Shut, Retire, ReplayAll, AuthRetry, Without, Waiting, Recipients;
  }

  /** Whenever a REQ is sent, everything under its id waits for its EOSE. */
  lemma AskedAwaits(s: Registry, step: Step, fpOf: seq<Filter> -> string, reconnect: bool, id: string, x: Ref)
    requires Sound(s) && Allowed(s, step, fpOf)
    requires Asks(s, Do(s, step, fpOf, reconnect), id) && Under(Do(s, step, fpOf, reconnect), id, x)
    ensures Awaits(Do(s, step, fpOf, reconnect), x)
  {
    hide Sound, OpenExclusive, OpenLive, CloseOne, EoseOne, HandleEose, HandleEvent, Drop, AuthRetry, ReplayAll,
      CloseAll, Joinable, Held, CanDrop, Awaits, Asks;
    Silent(s, step, fpOf, reconnect, id);
    match step
    case Open(_, _, _, _, _) => OpenAwaits(s, step, fpOf, reconnect, id, x);
    case Authenticated(r, reason, authed, open, sends) =>
      RetryUnder(s, r, reason, authed, open, sends, id, x);
      RetryAwaits(s, r, reason, authed, open, sends, id, x);
    case Reconnected(room) =>
      ReplayUnder(s, room, id, x);
      ReplayAwaits(s, room, id, x);
    case _ =>
  }

  lemma RetryUnder(s: Registry, r: Ref, reason: string, authed: bool, open: bool, sends: bool, id: string, x: Ref)
    requires Sound(s) && r < |s.all| && !s.all[r].role.Handle?
    requires Asks(s, AuthRetry(s, r, reason, authed, open, sends), id)
    requires Under(AuthRetry(s, r, reason, authed, open, sends), id, x)
    ensures Under(s, id, x)
  {
    hide Sound, With, ReplayFilters;
    RetrySends(s, r, reason, authed, open, sends);
  }

  lemma ReplayUnder(s: Registry, room: nat, id: string, x: Ref)
    requires Under(ReplayAll(s, room), id, x)
    ensures Under(s, id, x)
  {
    hide Withs, Queue, Reqs;
  }

  /** Subscriptions keep their ids and roles, stay closed, and no EOSE comes in for them. */
  ghost predicate Calm(s: Registry, s': Registry) {
    |s.all| == |s'.all| && forall x: Ref :: x < |s.all| ==>
      && s'.all[x].id == s.all[x].id && s'.all[x].role == s.all[x].role
      && (s.all[x].closed ==> s'.all[x].closed) && (s'.all[x].eosed ==> s.all[x].eosed)
      && (s.all[x].authRetried ==> s'.all[x].authRetried)
  }

  /**
   * An EOSE comes in for a subscription by its own timer or under its id, and not otherwise; and only a reconnect
   * makes that it may be authenticated for once more.
   */
  ghost predicate Goes(s: Registry, step: Step, s': Registry) {
    |s.all| <= |s'.all| && (|s.all| < |s'.all| ==> step.Open?) && forall x: Ref :: x < |s.all| ==>
      && s'.all[x].id == s.all[x].id && s'.all[x].role == s.all[x].role
      && (s.all[x].closed ==> s'.all[x].closed)
      && (s'.all[x].eosed ==>
            || s.all[x].eosed || (step.Eose? && step.id == s.all[x].id) || (step.Timer? && step.r == x))
      && (s.all[x].authRetried && !step.Reconnected? ==> s'.all[x].authRetried)
  }

  lemma CloseCalm(s: Registry, r: Ref, reason: string, open: bool)
    requires r < |s.all| && s.all[r].role != Wire
    ensures Calm(s, CloseOne(s, r, reason, open))
  {
    hide Delete, Without;
  }

  lemma TimerGoes(s: Registry, r: Ref, open: bool)
    requires r < |s.all| && s.all[r].role != Wire
    ensures Goes(s, Timer(r, open), EoseOne(s, r, open))
  {
    hide CloseOne;
    if !s.all[r].closed && !s.all[r].eosed && s.all[r].role == Exclusive {
      var s' := s.(all := s.all[r := s.all[r].(eosed := true)], calls := s.calls + [OnEose(r)]);
      CloseCalm(s', r, "eose", open);
    }
  }

  lemma DropCalm(s: Registry, r: Ref, reason: string)
    requires r < |s.all| && !s.all[r].role.Handle?
    ensures Calm(s, Drop(s, r, reason))
  {
    hide Delete;
  }

  lemma RetryCalm(s: Registry, r: Ref, reason: string, authed: bool, open: bool, sends: bool)
    requires r < |s.all| && !s.all[r].role.Handle?
    ensures Calm(s, AuthRetry(s, r, reason, authed, open, sends))
  {
    hide Drop, ReplayFilters, With;
    DropCalm(s, r, reason);
    assert Calm(s, Rearmed(s, r));
    DropCalm(Rearmed(s, r), r, reason);
  }

  lemma ReplayGoes(s: Registry, room: nat)
    ensures Goes(s, Reconnected(room), ReplayAll(s, room))
  {
    hide Withs, Queue, Reqs;
  }

  lemma ReceiveCalm(s: Registry, id: string, e: Event, now: int, have: set<Ref>, accepted: bool)
    requires Sound(s)
    ensures Calm(s, HandleEvent(s, id, e, now, have, accepted))
  {
    hide Sound, HandleEvent, Takes, Noted;
    forall x: Ref | x < |s.all|
      ensures |HandleEvent(s, id, e, now, have, accepted).all| == |s.all|
      ensures CalmAt(s.all[x], HandleEvent(s, id, e, now, have, accepted).all[x])
    {
      EventNoted(s, id, e, now, have, accepted, x);
      NotedCalm(s.all[x], e, now);
    }
    SameCount(s, id, e, now, have, accepted);
  }

  predicate CalmAt(was: Subscription, now: Subscription) {
    && now.id == was.id && now.role == was.role && (was.closed ==> now.closed) && (now.eosed ==> was.eosed)
    && (was.authRetried ==> now.authRetried)
  }

  lemma NotedCalm(was: Subscription, e: Event, now: int)
    ensures CalmAt(was, Noted(was, e, now)) && CalmAt(was, was)
  {
  }

  lemma SameCount(s: Registry, id: string, e: Event, now: int, have: set<Ref>, accepted: bool)
    requires Sound(s)
    ensures |HandleEvent(s, id, e, now, have, accepted).all| == |s.all|
  {
    hide Sound, HandleEvent, Audience, Recipients, Passes;
    EventIs(s, id, e, now, have, accepted);
  }

  lemma OpenGoes(s: Registry, step: Step, fpOf: seq<Filter> -> string, reconnect: bool)
    requires Sound(s) && step.Open?
    ensures Goes(s, step, Do(s, step, fpOf, reconnect))
  {
    hide Sound, Joinable, Delete, Enter;
  }

  lemma StepGoes(s: Registry, step: Step, fpOf: seq<Filter> -> string, reconnect: bool)
    requires Sound(s) && Posed(s, step)
    ensures Goes(s, step, Do(s, step, fpOf, reconnect))
  {
    hide Sound, OpenExclusive, OpenLive, CloseOne, EoseOne, HandleEose, HandleEvent, Drop, AuthRetry, ReplayAll;
    match step
    case Open(_, _, _, _, _) => OpenGoes(s, step, fpOf, reconnect);
    case CloseIt(r, reason, open) => CloseCalm(s, r, reason, open);
    case Timer(r, open) => TimerGoes(s, r, open);
    case Eose(id, open) => EoseGoes(s, id, open);
    case Receive(id, e, now, have, accepted) => ReceiveCalm(s, id, e, now, have, accepted);
    case Dropped(r, reason) => DropCalm(s, r, reason);
    case Demanded(_) =>
    case Authenticated(r, reason, authed, open, sends) => RetryCalm(s, r, reason, authed, open, sends);
    case Reconnected(room) => ReplayGoes(s, room);
    case Shutdown(_) =>
  }

  lemma EoseGoes(s: Registry, id: string, open: bool)
    requires Sound(s)
    ensures Goes(s, Eose(id, open), HandleEose(s, id, open))
  {
    hide Sound, Delete, Waiting, Without;
    if id in s.subs.values {
      ListedId(s, id);
      ListedRole(s, id);
      var r := s.subs.values[id];
      if s.all[r].role == Wire {
        forall x | x in s.groups[r].attachments
          ensures Under(s, id, x)
        {
          AttachedUnder(s, id, x);
        }
      }
    }
  }

  /** A handle that is made joins a wire that no EOSE came in for, or brings one along. */
  lemma NewbornAwaits(s: Registry, step: Step, fpOf: seq<Filter> -> string, reconnect: bool, id: string, x: Ref)
    requires Sound(s) && Posed(s, step) && |s.all| <= x && Under(Do(s, step, fpOf, reconnect), id, x)
    ensures Awaits(Do(s, step, fpOf, reconnect), x)
  {
    hide Sound, Enter, Delete, CloseOne, EoseOne, HandleEose, HandleEvent, Drop, AuthRetry, ReplayAll, Goes, CloseAll;
    GoesOn(s, step, fpOf, reconnect);
  }

  lemma GoesOn(s: Registry, step: Step, fpOf: seq<Filter> -> string, reconnect: bool)
    requires Sound(s) && Posed(s, step)
    ensures var s' := Do(s, step, fpOf, reconnect); |s.all| <= |s'.all| && (|s.all| < |s'.all| ==> step.Open?)
  {
    hide Sound, Do;
    StepGoes(s, step, fpOf, reconnect);
  }

  /** Between the steps `i` and `j` neither an EOSE of the id comes in nor does the timer of `x` go off. */
  predicate Quiet(steps: seq<Step>, i: nat, j: nat, id: string, x: Ref)
    requires i < j <= |steps|
  {
    forall k :: i < k < j ==> !(steps[k].Eose? && steps[k].id == id) && !(steps[k].Timer? && steps[k].r == x)
  }

  lemma {:induction false} StillAwaits(states: seq<Registry>, steps: seq<Step>, fpOf: seq<Filter> -> string,
                                       reconnect: bool, i: nat, j: nat, id: string, x: Ref)
    requires P.Faithful(fpOf) && Run(states, steps, fpOf, reconnect) && i < j <= |steps|
    requires Asks(states[i], states[i + 1], id) && Quiet(steps, i, j, id, x) && Under(states[j], id, x)
    ensures Awaits(states[j], x)
    decreases j
  {
    hide P.Faithful, Fine, Sound, Do, Asks, Awaits, Allowed, Posed;
    var s, step := states[j - 1], steps[j - 1];
    RunFine(states, steps, fpOf, reconnect, j - 1);
    FineSound(s, fpOf);
    AllowedPosed(s, step, fpOf);
    if j == i + 1 {
      AskedAwaits(s, step, fpOf, reconnect, id, x);
    } else if x < |s.all| {
      StepGoes(s, step, fpOf, reconnect);
      StillAwaits(states, steps, fpOf, reconnect, i, j - 1, id, x);
      UnderListed(s, id, x);
      AwaitsOn(s, step, states[j], id, x);
    } else {
      NewbornAwaits(s, step, fpOf, reconnect, id, x);
    }
  }

  lemma FineSound(s: Registry, fpOf: seq<Filter> -> string)
    requires Fine(s, fpOf)
    ensures Sound(s)
  {
  }

  lemma AllowedPosed(s: Registry, step: Step, fpOf: seq<Filter> -> string)
    requires Allowed(s, step, fpOf)
    ensures Posed(s, step) && (step.Timer? ==> step.r < |s.all| && s.all[step.r].role != Wire)
  {
  }

  lemma AwaitsOn(s: Registry, step: Step, s': Registry, id: string, x: Ref)
    requires Sound(s) && Goes(s, step, s') && Under(s, id, x) && Awaits(s, x)
    requires !(step.Eose? && step.id == id) && !(step.Timer? && step.r == x)
    requires step.Timer? ==> step.r < |s.all| && s.all[step.r].role != Wire
    ensures Awaits(s', x)
  {
    UnderListed(s, id, x);
    hide Sound;
  }

  /**
   * In every run: once a REQ was sent, at first, after a reconnect or after an authentication, its EOSE is told once
   * to everyone under its id who is open when it comes in, unless an EOSE of the id came in before or the timer of
   * the subscriber went off.
   */
  lemma EoseTold(states: seq<Registry>, steps: seq<Step>, json: Filter -> string, reconnect: bool, i: nat, j: nat,
                 id: string, open: bool, x: Ref)
    requires P.PrefixFree(json) && Run(states, steps, P.FingerprintOf(json), reconnect) && i < j < |steps|
    requires Asks(states[i], states[i + 1], id) && Quiet(steps, i, j, id, x)
    requires steps[j] == Eose(id, open) && Under(states[j], id, x)
    ensures multiset(states[j + 1].calls)[OnEose(x)] == multiset(states[j].calls)[OnEose(x)] + 1
  {
    hide P.Faithful, P.PrefixFree, Fine, Sound, HandleEose, Asks, Awaits, Under, Quiet, Allowed;
    P.FingerprintFaithful(json);
    RunFine(states, steps, P.FingerprintOf(json), reconnect, j);
    FineSound(states[j], P.FingerprintOf(json));
    StillAwaits(states, steps, P.FingerprintOf(json), reconnect, i, j, id, x);
    EoseReaches(states[j], id, open, x);
  }

  // ---- how often a REQ is authenticated for ----

  lemma {:induction false} RetriedOn(states: seq<Registry>, steps: seq<Step>, fpOf: seq<Filter> -> string,
                                     reconnect: bool, i: nat, j: nat, r: Ref)
    requires P.Faithful(fpOf) && Run(states, steps, fpOf, reconnect) && i < j <= |steps|
    requires steps[i] == Demanded(r) && forall k :: i < k < j ==> !steps[k].Reconnected?
    ensures r < |states[j].all| && states[j].all[r].authRetried
    decreases j
  {
    hide P.Faithful, Fine, Sound;
    RunFine(states, steps, fpOf, reconnect, j - 1);
    FineSound(states[j - 1], fpOf);
    AllowedPosed(states[j - 1], steps[j - 1], fpOf);
    if i < j - 1 {
      hide Do, Allowed;
      RetriedOn(states, steps, fpOf, reconnect, i, j - 1, r);
      StepGoes(states[j - 1], steps[j - 1], fpOf, reconnect);
    }
  }

  ghost predicate SomeReconnect(steps: seq<Step>, i: nat, j: nat)
    requires j <= |steps|
  {
    exists k :: i < k < j && steps[k].Reconnected?
  }

  /** In every run a reconnect lies between any two retries of one REQ. */
  lemma OneRetry(states: seq<Registry>, steps: seq<Step>, json: Filter -> string, reconnect: bool, i: nat, j: nat,
                 r: Ref)
    requires P.PrefixFree(json) && Run(states, steps, P.FingerprintOf(json), reconnect) && i < j < |steps|
    requires steps[i] == Demanded(r) && steps[j] == Demanded(r)
    ensures SomeReconnect(steps, i, j)
  {
    hide P.Faithful, P.PrefixFree, Fine, Sound, Do;
    P.FingerprintFaithful(json);
    if !SomeReconnect(steps, i, j) {
      RetriedOn(states, steps, P.FingerprintOf(json), reconnect, i, j, r);
      assert false;
    }
  }
}
