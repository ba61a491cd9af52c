/**
 * What the subscription registry of a relay holds and what each of its operations leaves behind
 * (src/relay/subscription-registry.ts, src/relay/subscription.ts). A subscription object is named by its
 * place in `all`, the list of every subscription ever made; a live group is named by its wire.
 */
module RegistrySpec {
  import opened Results
  import opened Events
  import opened Filters
  import opened Ordered

  type Ref = nat

  /** What `onLocalClose` was bound to: a REQ of its own, the wire of a group, or a handle on that wire. */
  datatype Role = Exclusive | Wire | Handle(of: Ref)

  datatype Subscription = Subscription(
    id: string,
    filters: seq<Filter>,
    role: Role,
    closed: bool,
    eosed: bool,
    authRetried: bool,
    last: Option<int>,
    atMark: set<string>
  )

  datatype LiveGroup = LiveGroup(fp: string, attachments: seq<Ref>)

  datatype Message = Req(id: string, filters: seq<Filter>) | Close(id: string)

  /** A call of a handler of the subscription `to`. */
  datatype Call =
    | OnReceived(to: Ref, id: string)
    | OnEvent(to: Ref, event: Event)
    | OnEose(to: Ref)
    | OnClose(to: Ref, reason: string)

  datatype Registry = Registry(
    subs: OrderedMap<string, Ref>,
    liveByFp: map<string, Ref>,
    liveBySubId: map<string, Ref>,
    groups: map<Ref, LiveGroup>,
    all: seq<Subscription>,
    sent: seq<Message>,
    calls: seq<Call>,
    reconnects: nat
  )

  const CLIENT := "closed by client"

  // ---- one subscription ----

  function Born(id: string, filters: seq<Filter>, role: Role, aborted: bool): Subscription {
    Subscription(id, filters, role, aborted, false, false, None, {})
  }

  function Min(a: int, b: int): int {
    if a < b then a else b
  }

  /** noteVerified: the watermark moves up to the stamp, which counts as no later than `now`. */
  function Noted(s: Subscription, e: Event, now: int): (r: Subscription) {
    var ts := Min(e.createdAt, now);
    if s.last.None? || s.last.value < ts then s.(last := Some(ts), atMark := {e.id})
    else if ts == s.last.value then s.(atMark := s.atMark + {e.id})
    else s
  }

  function Since(f: Filter, since: int): Filter {
    f.(since := Some(if f.since.Some? && f.since.value > since then f.since.value else since))
  }

  /** replayFilters. */
  function ReplayFilters(s: Subscription): (r: seq<Filter>)
    ensures |r| == |s.filters|
  {
    if s.last.None? then s.filters
    else seq(|s.filters|, i requires 0 <= i < |s.filters| => Since(s.filters[i], s.last.value))
  }

  // ---- several subscriptions at once ----

  function Shut(all: seq<Subscription>, refs: seq<Ref>): (r: seq<Subscription>)
    ensures |r| == |all|
    ensures forall i :: 0 <= i < |all| ==> r[i] == (if i in refs then all[i].(closed := true) else all[i])
  {
    seq(|all|, i requires 0 <= i < |all| => if i in refs then all[i].(closed := true) else all[i])
  }

  function Armed(s: Subscription, auth: bool): Subscription {
    s.(eosed := false, authRetried := if auth then false else s.authRetried)
  }

  function Rearm(all: seq<Subscription>, refs: seq<Ref>, auth: bool): (r: seq<Subscription>)
    ensures |r| == |all|
    ensures forall i :: 0 <= i < |all| ==> r[i] == (if i in refs then Armed(all[i], auth) else all[i])
  {
    seq(|all|, i requires 0 <= i < |all| => if i in refs then Armed(all[i], auth) else all[i])
  }

  function Ended(s: Subscription): Subscription {
    if s.closed then s else s.(eosed := true)
  }

  function Eosed(all: seq<Subscription>, refs: seq<Ref>): (r: seq<Subscription>)
    ensures |r| == |all|
    ensures forall i :: 0 <= i < |all| ==> r[i] == (if i in refs then Ended(all[i]) else all[i])
  {
    seq(|all|, i requires 0 <= i < |all| => if i in refs then Ended(all[i]) else all[i])
  }

  function NotedBy(all: seq<Subscription>, refs: seq<Ref>, e: Event, now: int): (r: seq<Subscription>)
    ensures |r| == |all|
    ensures forall i :: 0 <= i < |all| ==> r[i] == (if i in refs then Noted(all[i], e, now) else all[i])
  {
    seq(|all|, i requires 0 <= i < |all| => if i in refs then Noted(all[i], e, now) else all[i])
  }

  /** The subscriptions among `refs` that an EOSE still concerns. */
  function Waiting(all: seq<Subscription>, refs: seq<Ref>): (r: seq<Ref>)
    ensures forall x :: x in r ==> x in refs
  {
    if refs == [] then []
    else
      var x := refs[|refs| - 1];
      var rest := Waiting(all, refs[..|refs| - 1]);
      if x < |all| && !all[x].closed && !all[x].eosed then rest + [x] else rest
  }

  /** The subscriptions among `refs` that are open and do not have the event yet. */
  function Recipients(all: seq<Subscription>, refs: seq<Ref>, have: set<Ref>): (r: seq<Ref>)
    ensures forall x :: x in r <==> x in refs && x < |all| && !all[x].closed && x !in have
  {
    if refs == [] then []
    else
      var x := refs[|refs| - 1];
      var rest := Recipients(all, refs[..|refs| - 1], have);
      if x < |all| && !all[x].closed && x !in have then rest + [x] else rest
  }

  function Goodbyes(refs: seq<Ref>, reason: string): (r: seq<Call>)
    ensures |r| == |refs|
    ensures forall i :: 0 <= i < |refs| ==> r[i] == OnClose(refs[i], reason)
  {
    seq(|refs|, i requires 0 <= i < |refs| => OnClose(refs[i], reason))
  }

  function Eoses(refs: seq<Ref>): (r: seq<Call>)
    ensures |r| == |refs|
    ensures forall i :: 0 <= i < |refs| ==> r[i] == OnEose(refs[i])
  {
    seq(|refs|, i requires 0 <= i < |refs| => OnEose(refs[i]))
  }

  function Receipts(refs: seq<Ref>, id: string): (r: seq<Call>)
    ensures |r| == |refs|
    ensures forall i :: 0 <= i < |refs| ==> r[i] == OnReceived(refs[i], id)
  {
    seq(|refs|, i requires 0 <= i < |refs| => OnReceived(refs[i], id))
  }

  function Deliveries(refs: seq<Ref>, e: Event): (r: seq<Call>)
    ensures |r| == |refs|
    ensures forall i :: 0 <= i < |refs| ==> r[i] == OnEvent(refs[i], e)
  {
    seq(|refs|, i requires 0 <= i < |refs| => OnEvent(refs[i], e))
  }

  // ---- what holds between two calls ----

  /** The wire `g` is the one that its id stands for. */
  predicate Registered(s: Registry, g: Ref) {
    g < |s.all| && s.all[g].id in s.liveBySubId && s.liveBySubId[s.all[g].id] == g
  }

  /** A registered wire is open, is listed under its id in both maps, and has a handle. */
  ghost predicate WireAgrees(s: Registry, id: string)
    requires id in s.liveBySubId
  {
    var g := s.liveBySubId[id];
    && g < |s.all| && s.all[g].role == Wire && s.all[g].id == id && !s.all[g].closed
    && g in s.groups && s.groups[g].attachments != []
    && id in s.subs.values && s.subs.values[id] == g
  }

  ghost predicate SubAgrees(s: Registry, id: string)
    requires id in s.subs.values
  {
    var r := s.subs.values[id];
    && r < |s.all| && s.all[r].id == id && !s.all[r].role.Handle?
    && (s.all[r].role == Wire ==> Registered(s, r))
  }

  /** A fingerprint leads to a registered group of that fingerprint. */
  ghost predicate PrintAgrees(s: Registry, fp: string)
    requires fp in s.liveByFp
  {
    var g := s.liveByFp[fp];
    Registered(s, g) && g in s.groups && s.groups[g].fp == fp
  }

  /** An attachment is an open handle of its group, under the id of the wire. */
  ghost predicate IsHandle(s: Registry, g: Ref, a: Ref) {
    && g < |s.all| && a < |s.all|
    && s.all[a].role == Handle(g) && !s.all[a].closed && s.all[a].id == s.all[g].id
  }

  ghost predicate GroupAgrees(s: Registry, g: Ref)
    requires g in s.groups
  {
    && g < |s.all| && s.all[g].role == Wire
    && Distinct(s.groups[g].attachments)
    && (s.groups[g].attachments != [] ==> Registered(s, g))
    && forall a :: a in s.groups[g].attachments ==> IsHandle(s, g, a)
  }

  predicate Attached(s: Registry, g: Ref, a: Ref) {
    g in s.groups && a in s.groups[g].attachments
  }

  /** Whatever is open can be reached by the messages of the relay. */
  ghost predicate Reached(s: Registry, r: Ref)
    requires r < |s.all|
  {
    !s.all[r].closed ==>
      match s.all[r].role
      case Exclusive => s.all[r].id in s.subs.values && s.subs.values[s.all[r].id] == r
      case Wire => Registered(s, r)
      case Handle(g) => Attached(s, g, r)
  }

  /** A REQ that is still open is listed under this id. */
  predicate Held(s: Registry, id: string) {
    id in s.subs.values && s.subs.values[id] < |s.all| && !s.all[s.subs.values[id]].closed
  }

  ghost predicate MapsSound(s: Registry) {
    && WellFormed(s.subs)
    && (forall id :: id in s.liveBySubId ==> WireAgrees(s, id))
    && (forall id :: id in s.subs.values ==> SubAgrees(s, id))
    && (forall fp :: fp in s.liveByFp ==> PrintAgrees(s, fp))
  }

  ghost predicate Sound(s: Registry) {
    && MapsSound(s)
    && (forall g :: g in s.groups ==> GroupAgrees(s, g))
    && (forall r: Ref :: r < |s.all| ==> Reached(s, r))
  }

  // ---- the operations ----

  function New(): Registry {
    Registry(Empty(), map[], map[], map[], [], [], [], 0)
  }

  /** #forgetLiveGroup: the group leaves the three maps and its wire ends without a call. */
  function Forget(s: Registry, g: Ref): Registry
    requires g < |s.all| && g in s.groups
  {
    var fp := s.groups[g].fp;
    s.(liveByFp := if fp in s.liveByFp && s.liveByFp[fp] == g then s.liveByFp - {fp} else s.liveByFp,
       liveBySubId := s.liveBySubId - {s.all[g].id},
       subs := Delete(s.subs, s.all[g].id),
       all := Shut(s.all, [g]))
  }

  /** A group ends: it is forgotten and all its handles are closed. */
  function Retire(s: Registry, g: Ref): Registry
    requires g < |s.all| && g in s.groups
  {
    Forget(s, g).(groups := s.groups[g := s.groups[g].(attachments := [])],
                  all := Shut(s.all, [g] + s.groups[g].attachments))
  }

  /** #endLiveGroup. */
  function EndGroup(s: Registry, g: Ref, close: bool, reason: string): Registry
    requires g < |s.all| && g in s.groups
  {
    Retire(s, g).(sent := s.sent + (if close then [Close(s.all[g].id)] else []),
                  calls := s.calls + Goodbyes(s.groups[g].attachments, reason))
  }

  /** #openExclusive: an aborted signal closes the subscription while it is made, before it is listed. */
  function OpenExclusive(s: Registry, filters: seq<Filter>, id: string, aborted: bool, open: bool, reconnect: bool)
    : Registry
  {
    var r := |s.all|;
    s.(subs := Enter(if aborted then Delete(s.subs, id) else s.subs, id, r),
       all := s.all + [Born(id, filters, Exclusive, aborted)],
       sent := s.sent + (if aborted && open then [Close(id)] else []) + (if open then [Req(id, filters)] else []),
       calls := s.calls + (if aborted then [OnClose(r, "aborted")] else []),
       reconnects := s.reconnects + (if !open && reconnect then 1 else 0))
  }

  /** The group that a live REQ may join: the one of its fingerprint, as long as no EOSE came in for it. */
  function Joinable(s: Registry, fp: string): (g: Option<Ref>) {
    if fp in s.liveByFp && s.liveByFp[fp] < |s.all| && s.liveByFp[fp] in s.groups && !s.all[s.liveByFp[fp]].eosed
    then Some(s.liveByFp[fp])
    else None
  }

  /** #openLive, onto a wire that is already there. */
  function Join(s: Registry, g: Ref, filters: seq<Filter>, aborted: bool): Registry
    requires g < |s.all| && g in s.groups
  {
    var a := |s.all|;
    s.(all := s.all + [Born(s.all[g].id, filters, Handle(g), aborted)],
       calls := s.calls + (if aborted then [OnClose(a, "aborted")] else []),
       groups := if aborted then s.groups
                 else s.groups[g := s.groups[g].(attachments := s.groups[g].attachments + [a])])
  }

  /** #openLive, with a wire of its own. */
  function Start(s: Registry, fp: string, filters: seq<Filter>, id: string, aborted: bool, open: bool, reconnect: bool)
    : Registry
  {
    var g := |s.all|;
    var made := s.all + [Born(id, filters, Wire, aborted), Born(id, filters, Handle(g), aborted)];
    if aborted then
      s.(all := made,
         groups := s.groups[g := LiveGroup(fp, [])],
         liveByFp := s.liveByFp - {fp},
         liveBySubId := s.liveBySubId - {id},
         subs := Delete(s.subs, id),
         calls := s.calls + [OnClose(g + 1, "aborted")])
    else
      s.(all := made,
         groups := s.groups[g := LiveGroup(fp, [g + 1])],
         liveByFp := s.liveByFp[fp := g],
         liveBySubId := s.liveBySubId[id := g],
         subs := Enter(s.subs, id, g),
         sent := s.sent + (if open then [Req(id, filters)] else []),
         reconnects := s.reconnects + (if !open && reconnect then 1 else 0))
  }

  function OpenLive(s: Registry, fp: string, filters: seq<Filter>, id: string, aborted: bool, open: bool,
                    reconnect: bool): Registry
  {
    match Joinable(s, fp)
    case Some(g) => Join(s, g, filters, aborted)
    case None => Start(s, fp, filters, id, aborted, open, reconnect)
  }

  /** close of what `open` returned. */
  function CloseOne(s: Registry, r: Ref, reason: string, open: bool): Registry
    requires r < |s.all| && s.all[r].role != Wire
  {
    if s.all[r].closed then s
    else
      match s.all[r].role
      case Exclusive =>
        s.(subs := Delete(s.subs, s.all[r].id),
           all := Shut(s.all, [r]),
           sent := s.sent + (if open then [Close(s.all[r].id)] else []),
           calls := s.calls + [OnClose(r, reason)])
      case Handle(g) =>
        if g >= |s.all| || !Attached(s, g, r) then
          s.(all := Shut(s.all, [r]), calls := s.calls + [OnClose(r, reason)])
        else if Without(s.groups[g].attachments, r) != [] then
          var left := Without(s.groups[g].attachments, r);
          s.(groups := s.groups[g := s.groups[g].(attachments := left)],
             all := Shut(s.all, [r]),
             calls := s.calls + [OnClose(r, reason)])
        else
          Retire(s, g).(sent := s.sent + (if open then [Close(s.all[g].id)] else []),
                        calls := s.calls + [OnClose(r, reason)])
  }

  /** markEose of one subscription, from its timer or for its own REQ. */
  function EoseOne(s: Registry, r: Ref, open: bool): Registry
    requires r < |s.all| && s.all[r].role != Wire
  {
    if s.all[r].closed || s.all[r].eosed then s
    else
      var s' := s.(all := s.all[r := s.all[r].(eosed := true)], calls := s.calls + [OnEose(r)]);
      if s.all[r].role == Exclusive then CloseOne(s', r, "eose", open) else s'
  }

  /** handleEose. */
  function HandleEose(s: Registry, id: string, open: bool): Registry
    requires Sound(s)
  {
    if id !in s.subs.values then s
    else
      var r := s.subs.values[id];
      if s.all[r].role != Wire then EoseOne(s, r, open)
      else if s.all[r].eosed then s
      else
        var refs := s.groups[r].attachments;
        s.(all := Eosed(s.all, [r] + refs), calls := s.calls + Eoses(Waiting(s.all, refs)))
  }

  /**
   * handleEvent. `have` are the subscriptions whose `alreadyHaveEvent` says yes and `accepted` is the verdict
   * of the verifier.
   */
  function HandleEvent(s: Registry, id: string, e: Event, now: int, have: set<Ref>, accepted: bool): Registry
    requires Sound(s)
  {
    if id !in s.subs.values || s.all[s.subs.values[id]].closed then s
    else
      var r := s.subs.values[id];
      var refs := if s.all[r].role == Wire then s.groups[r].attachments else [r];
      var heard := s.(calls := s.calls + Receipts(refs, e.id));
      var to := Recipients(s.all, refs, have);
      if e.id in s.all[r].atMark || to == [] || !MatchesAny(s.all[r].filters, e) || !accepted then heard
      else heard.(all := NotedBy(s.all, if s.all[r].role == Wire then [r] + to else to, e, now),
                  calls := heard.calls + Deliveries(to, e))
  }

  /** A CLOSED that asks for authentication: the one retry of the REQ begins. */
  function BeginRetry(s: Registry, r: Ref): Registry
    requires r < |s.all|
  {
    s.(all := s.all[r := s.all[r].(authRetried := true)])
  }

  /** The group that is kept under a wire id. */
  function LiveAt(s: Registry, id: string): (g: Option<Ref>)
    ensures g.Some? ==> g.value < |s.all| && g.value in s.groups
  {
    if id in s.liveBySubId && s.liveBySubId[id] < |s.all| && s.liveBySubId[id] in s.groups
    then Some(s.liveBySubId[id])
    else None
  }

  /** drop, of a REQ that the relay closed: whatever is kept under its id goes. */
  function Drop(s: Registry, r: Ref, reason: string): Registry
    requires r < |s.all| && !s.all[r].role.Handle?
  {
    match LiveAt(s, s.all[r].id)
    case Some(g) => EndGroup(s, g, false, reason)
    case None =>
      s.(subs := Delete(s.subs, s.all[r].id),
         all := Shut(s.all, [r]),
         calls := s.calls + (if s.all[r].closed then [] else [OnClose(r, reason)]))
  }

  /** The subscription and the handles of the group that is kept under its id. */
  function With(s: Registry, r: Ref): (refs: seq<Ref>)
    requires r < |s.all|
  {
    match LiveAt(s, s.all[r].id)
    case Some(g) => [r] + s.groups[g].attachments
    case None => [r]
  }

  /** replay, up to the message. */
  function Rearmed(s: Registry, r: Ref): Registry
    requires r < |s.all|
  {
    s.(all := Rearm(s.all, With(s, r), false))
  }

  /** replay. */
  function Replay(s: Registry, r: Ref): Registry
    requires r < |s.all|
  {
    Rearmed(s, r).(sent := s.sent + [Req(s.all[r].id, ReplayFilters(s.all[r]))])
  }

  /** authRetry, once the authentication has come to its end; `sends` says whether the message gets out. */
  function AuthRetry(s: Registry, r: Ref, reason: string, authed: bool, open: bool, sends: bool): Registry
    requires r < |s.all| && !s.all[r].role.Handle?
  {
    if !authed || s.all[r].closed || !open then Drop(s, r, reason)
    else if sends then Replay(s, r)
    else Drop(Rearmed(s, r), r, reason)
  }

  /** The open subscriptions under the given ids, in their order. */
  function Queue(s: Registry, ids: seq<string>): (refs: seq<Ref>)
    ensures |refs| <= |ids|
    ensures forall i :: 0 <= i < |refs| ==> refs[i] < |s.all| && !s.all[refs[i]].closed
  {
    if ids == [] then []
    else
      var rest := Queue(s, ids[..|ids| - 1]);
      var id := ids[|ids| - 1];
      if id in s.subs.values && s.subs.values[id] < |s.all| && !s.all[s.subs.values[id]].closed
      then rest + [s.subs.values[id]]
      else rest
  }

  function Withs(s: Registry, refs: seq<Ref>): (r: seq<Ref>)
    requires forall i :: 0 <= i < |refs| ==> refs[i] < |s.all|
  {
    if refs == [] then [] else Withs(s, refs[..|refs| - 1]) + With(s, refs[|refs| - 1])
  }

  function Reqs(all: seq<Subscription>, refs: seq<Ref>): (r: seq<Message>)
    requires forall i :: 0 <= i < |refs| ==> refs[i] < |all|
    ensures |r| == |refs|
    ensures forall i :: 0 <= i < |refs| ==> r[i] == Req(all[refs[i]].id, ReplayFilters(all[refs[i]]))
  {
    seq(|refs|, i requires 0 <= i < |refs| => Req(all[refs[i]].id, ReplayFilters(all[refs[i]])))
  }

  /** replayAll over a socket that takes `room` messages before it fails. */
  function ReplayAll(s: Registry, room: nat): Registry {
    var q := Queue(s, s.subs.keys);
    var sent := if room < |q| then room else |q|;
    var armed := if room < |q| then room + 1 else |q|;
    s.(all := Rearm(s.all, Withs(s, q[..armed]), true), sent := s.sent + Reqs(s.all, q[..sent]))
  }

  /** The handlers that closeAll calls: the handles of each group, then the REQs of their own. */
  function Farewells(s: Registry, ids: seq<string>): (refs: seq<Ref>) {
    if ids == [] then []
    else
      var rest := Farewells(s, ids[..|ids| - 1]);
      var id := ids[|ids| - 1];
      if id in s.liveBySubId && s.liveBySubId[id] in s.groups then rest + s.groups[s.liveBySubId[id]].attachments
      else rest
  }

  function Exclusives(s: Registry, ids: seq<string>): (refs: seq<Ref>) {
    if ids == [] then []
    else
      var rest := Exclusives(s, ids[..|ids| - 1]);
      var id := ids[|ids| - 1];
      if id in s.subs.values && s.subs.values[id] < |s.all| && !s.all[s.subs.values[id]].closed && id !in s.liveBySubId
      then rest + [s.subs.values[id]]
      else rest
  }

  /** closeAll: nothing stays registered and nothing stays open. */
  function CloseAll(s: Registry, reason: string): Registry {
    s.(subs := Empty(), liveByFp := map[], liveBySubId := map[],
       groups := map g | g in s.groups :: s.groups[g].(attachments := []),
       all := seq(|s.all|, i requires 0 <= i < |s.all| => s.all[i].(closed := true)),
       calls := s.calls + Goodbyes(Farewells(s, s.subs.keys) + Exclusives(s, s.subs.keys), reason))
  }
}
