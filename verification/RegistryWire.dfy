/**
 * What the relay serves: a registry and the relay at the other end of an open socket agree on the open REQs
 * (src/relay/subscription-registry.ts).
 */
module RegistryWire {
  import opened Events
  import opened Filters
  import opened Ordered
  import opened RegistrySpec
  import opened RegistryRuns
  import opened RegistryTotals
  import opened RegistryReach
  import P = Fingerprints

  /** The ids that a relay serves after these messages. */
  function Heeded(served: set<string>, sent: seq<Message>): set<string> {
    if sent == [] then served
    else
      var before := Heeded(served, sent[..|sent| - 1]);
      match sent[|sent| - 1]
      case Req(id, _) => before + {id}
      case Close(id) => before - {id}
  }

  /**
   * What the relay served when the step came: the REQ that it closed is gone, also one that it closed until an
   * authentication, and a new socket starts with nothing, as an old one ends.
   */
  function Spared(s: Registry, step: Step, served: set<string>): set<string>
    requires Posed(s, step)
  {
    match step
    case Dropped(r, _) => served - {s.all[r].id}
    case Authenticated(r, _, _, _, _) => served - {s.all[r].id}
    case Reconnected(_) => {}
    case Shutdown(_) => {}
    case _ => served
  }

  /** What the relay serves after the step. */
  function Serves(s: Registry, step: Step, s': Registry, served: set<string>): set<string>
    requires Posed(s, step) && |s.sent| <= |s'.sent|
  {
    Heeded(Spared(s, step, served), s'.sent[|s.sent|..])
  }

  /** The ids of the open REQs. */
  function HeldIds(s: Registry): set<string> {
    set id | id in s.subs.values && Held(s, id)
  }

  /** A REQ of this id is open. */
  ghost predicate OpenUnder(s: Registry, id: string) {
    exists r: Ref :: r < |s.all| && !s.all[r].role.Handle? && !s.all[r].closed && s.all[r].id == id
  }

  /**
   * The socket is open during the step, and takes all REQs if it is a new one; a one-shot REQ comes with a signal
   * that is not aborted.
   */
  predicate Up(s: Registry, step: Step) {
    match step
    case Open(_, once, _, aborted, open) => open && !(once && aborted)
    case CloseIt(_, _, open) => open
    case Timer(_, open) => open
    case Eose(_, open) => open
    case Reconnected(room) => HeldAmong(s, s.subs.keys) <= room
    case _ => true
  }

  lemma HeededOne(served: set<string>, id: string, filters: seq<Filter>)
    ensures Heeded(served, []) == served
    ensures Heeded(served, [Req(id, filters)]) == served + {id}
    ensures Heeded(served, [Close(id)]) == served - {id}
  {
    assert [Req(id, filters)][..0] == [] && [Close(id)][..0] == [];
  }

  /** The messages of a step that only adds to them. */
  lemma Added(sent: seq<Message>, more: seq<Message>)
    ensures (sent + more)[|sent|..] == more
  {
  }

  /** A REQ that is closed by its subscriber is taken off the list and closed on the wire. */
  lemma CloseServes(s: Registry, r: Ref, reason: string)
    requires Sound(s) && r < |s.all| && s.all[r].role != Wire
    ensures var s' := CloseOne(s, r, reason, true);
      |s.sent| <= |s'.sent| && Heeded(HeldIds(s), s'.sent[|s.sent|..]) == HeldIds(s')
  {
    var s' := CloseOne(s, r, reason, true);
    if s.all[r].closed {
      Added(s.sent, []);
    } else if s.all[r].role.Handle? {
      CloseHandleServes(s, r, reason);
    } else {
      RetryListed(s, r, s.all[r].id);
      var id := s.all[r].id;
      HeededOne(HeldIds(s), id, []);
      Added(s.sent, [Close(id)]);
      OffList(s, s', id);
    }
  }

  /** The REQ of an id is taken off the list; the others stay as they are. */
  lemma OffList(s: Registry, s': Registry, id: string)
    requires Sound(s) && |s'.all| == |s.all| && s'.subs == Delete(s.subs, id)
    requires forall x: Ref :: x < |s.all| && !s.all[x].role.Handle? && s.all[x].id != id ==>
      s'.all[x].closed == s.all[x].closed
    ensures HeldIds(s') == HeldIds(s) - {id}
  {
    forall i | i in s.subs.values
      ensures s.subs.values[i] < |s.all| && s.all[s.subs.values[i]].id == i && !s.all[s.subs.values[i]].role.Handle?
    {
      assert SubAgrees(s, i);
    }
    hide Sound;
    DeletedValues(s.subs, id);
    forall i
      ensures i in HeldIds(s') <==> i in HeldIds(s) && i != id
    {
    }
  }

  lemma DeletedValues(m: OrderedMap<string, Ref>, id: string)
    ensures Delete(m, id).values == m.values - {id}
  {
  }

  /** The list stays, and none of its REQs is closed. */
  lemma OnList(s: Registry, s': Registry)
    requires Sound(s) && |s'.all| == |s.all| && s'.subs == s.subs
    requires forall x: Ref :: x < |s.all| && !s.all[x].role.Handle? ==> s'.all[x].closed == s.all[x].closed
    ensures HeldIds(s') == HeldIds(s)
  {
    forall i | i in s.subs.values
      ensures s.subs.values[i] < |s.all| && !s.all[s.subs.values[i]].role.Handle?
    {
      assert SubAgrees(s, i);
    }
    hide Sound;
  }

  lemma CloseHandleServes(s: Registry, r: Ref, reason: string)
    requires Sound(s) && r < |s.all| && s.all[r].role.Handle? && !s.all[r].closed
    ensures var s' := CloseOne(s, r, reason, true);
      |s.sent| <= |s'.sent| && Heeded(HeldIds(s), s'.sent[|s.sent|..]) == HeldIds(s')
  {
    hide Sound, CloseOne, Delete;
    CloseFacts(s, r, reason, true);
    HandleOpen(s, r);
    var g, s' := s.all[r].role.of, CloseOne(s, r, reason, true);
    HeededOne(HeldIds(s), s.all[g].id, []);
    if Last(s, r) {
      Added(s.sent, [Close(s.all[g].id)]);
      OffList(s, s', s.all[g].id);
    } else {
      Added(s.sent, []);
      OnList(s, s');
    }
  }

  lemma TimerServes(s: Registry, r: Ref)
    requires Sound(s) && r < |s.all| && s.all[r].role != Wire
    ensures var s' := EoseOne(s, r, true);
      |s.sent| <= |s'.sent| && Heeded(HeldIds(s), s'.sent[|s.sent|..]) == HeldIds(s')
  {
    hide Sound, CloseOne;
    HeededOne(HeldIds(s), s.all[r].id, []);
    Added(s.sent, []);
    if !s.all[r].closed && !s.all[r].eosed {
      var t := s.(all := s.all[r := s.all[r].(eosed := true)], calls := s.calls + [OnEose(r)]);
      ShapeSound(s, t);
      OnList(s, t);
      if s.all[r].role == Exclusive {
        CloseServes(t, r, "eose");
      }
    }
  }

  lemma EoseServes(s: Registry, id: string)
    requires Sound(s)
    ensures var s' := HandleEose(s, id, true);
      |s.sent| <= |s'.sent| && Heeded(HeldIds(s), s'.sent[|s.sent|..]) == HeldIds(s')
  {
    hide Sound, EoseOne, Waiting;
    HeededOne(HeldIds(s), id, []);
    Added(s.sent, []);
    if id in s.subs.values {
      ListedRole(s, id);
      if s.all[s.subs.values[id]].role != Wire {
        TimerServes(s, s.subs.values[id]);
      } else {
        OnList(s, HandleEose(s, id, true));
      }
    }
  }

  /** What the relay closed goes from the list without a message. */
  lemma DropServes(s: Registry, r: Ref, reason: string)
    requires Sound(s) && r < |s.all| && !s.all[r].role.Handle?
    ensures var s' := Drop(s, r, reason); s'.sent == s.sent && HeldIds(s') == HeldIds(s) - {s.all[r].id}
  {
    hide Sound, Delete, EndGroup;
    var id := s.all[r].id;
    LiveRetires(s, id);
    if id in s.liveBySubId {
      var g := LiveAt(s, id).value;
      EndGroupSound(s, g, false, reason);
      EndsSilently(s, g, reason);
      OffList(s, Drop(s, r, reason), id);
    } else {
      OffList(s, Drop(s, r, reason), id);
    }
  }

  lemma EndsSilently(s: Registry, g: Ref, reason: string)
    requires g < |s.all| && g in s.groups
    ensures EndGroup(s, g, false, reason).sent == s.sent
  {
  }

  lemma RetryServes(s: Registry, r: Ref, reason: string, authed: bool, open: bool, sends: bool)
    requires Sound(s) && r < |s.all| && !s.all[r].role.Handle?
    ensures var s' := AuthRetry(s, r, reason, authed, open, sends);
      |s.sent| <= |s'.sent| && Heeded(HeldIds(s) - {s.all[r].id}, s'.sent[|s.sent|..]) == HeldIds(s')
  {
    hide Sound, Drop, ReplayFilters, With;
    var id := s.all[r].id;
    HeededOne(HeldIds(s) - {id}, id, ReplayFilters(s.all[r]));
    Added(s.sent, []);
    if !authed || s.all[r].closed || !open {
      DropServes(s, r, reason);
    } else if sends {
      RetryListed(s, r, id);
      Added(s.sent, [Req(id, ReplayFilters(s.all[r]))]);
      OnList(s, Replay(s, r));
      assert id in HeldIds(s);
    } else {
      RearmedSound(s, r);
      OnList(s, Rearmed(s, r));
      DropServes(Rearmed(s, r), r, reason);
    }
  }

  /** The ids of these REQs. */
  function IdsOf(all: seq<Subscription>, refs: seq<Ref>): set<string>
    requires forall i :: 0 <= i < |refs| ==> refs[i] < |all|
  {
    set i | 0 <= i < |refs| :: all[refs[i]].id
  }

  lemma IdsNext(all: seq<Subscription>, refs: seq<Ref>)
    requires refs != [] && forall i :: 0 <= i < |refs| ==> refs[i] < |all|
    ensures IdsOf(all, refs) == IdsOf(all, refs[..|refs| - 1]) + {all[refs[|refs| - 1]].id}
  {
    var init := refs[..|refs| - 1];
    forall i | 0 <= i < |refs|
      ensures all[refs[i]].id in IdsOf(all, init) + {all[refs[|refs| - 1]].id}
    {
      if i < |init| {
        assert init[i] == refs[i];
      }
    }
    forall i | 0 <= i < |init|
      ensures all[init[i]].id in IdsOf(all, refs)
    {
      assert init[i] == refs[i];
    }
  }

  lemma {:induction false} HeededReqs(served: set<string>, all: seq<Subscription>, refs: seq<Ref>)
    requires forall i :: 0 <= i < |refs| ==> refs[i] < |all|
    ensures Heeded(served, Reqs(all, refs)) == served + IdsOf(all, refs)
  {
    hide IdsOf, ReplayFilters;
    if refs != [] {
      var n := |refs| - 1;
      HeededReqs(served, all, refs[..n]);
      IdsNext(all, refs);
      assert Reqs(all, refs)[..n] == Reqs(all, refs[..n]);
    } else {
      assert Reqs(all, refs) == [];
      NoIdsOf(all);
    }
  }

  lemma NoIdsOf(all: seq<Subscription>)
    ensures IdsOf(all, []) == {}
  {
  }

  /** A new socket that takes all REQs serves what is open. */
  lemma ReplayServes(s: Registry, room: nat)
    requires Sound(s) && HeldAmong(s, s.subs.keys) <= room
    ensures var s' := ReplayAll(s, room);
      |s.sent| <= |s'.sent| && Heeded({}, s'.sent[|s.sent|..]) == HeldIds(s')
  {
    hide Sound, Queue, Withs, Held, Reqs, HeldAmong, Rearm;
    var q, s' := Queue(s, s.subs.keys), ReplayAll(s, room);
    QueueIs(s);
    assert q[..|q|] == q;
    HeededReqs({}, s.all, q);
    Added(s.sent, Reqs(s.all, q));
    OnList(s, s');
  }

  /** The queue of a reconnect holds the open REQs. */
  lemma QueueIs(s: Registry)
    requires Sound(s)
    ensures var q := Queue(s, s.subs.keys);
      |q| == HeldAmong(s, s.subs.keys) && HeldIds(s) == IdsOf(s.all, q)
  {
    var keys := s.subs.keys;
    var q := Queue(s, keys);
    if keys != [] {
      QueuePlaces(s, keys, 0);
    }
    forall id
      ensures id in HeldIds(s) <==> exists i :: 0 <= i < |q| && s.all[q[i]].id == id
    {
      if id in HeldIds(s) {
        assert id in Elements(keys);
        var k :| 0 <= k < |keys| && keys[k] == id;
        QueuePlaces(s, keys, k);
        ListedId(s, id);
        assert s.all[q[HeldAmong(s, keys[..k])]].id == id;
      }
      if i :| 0 <= i < |q| && s.all[q[i]].id == id {
        QueueListed(s, keys, i);
      }
    }
    hide Sound;
  }

  /** A REQ is listed under a free id, or none is. */
  lemma Lists(s: Registry, s': Registry, id: string, filters: seq<Filter>)
    requires Sound(s) && |s.all| <= |s'.all| && forall x: Ref :: x < |s.all| ==> s'.all[x] == s.all[x]
    requires if s'.sent == s.sent then s'.subs == s.subs || (!Held(s, id) && s'.subs == Delete(s.subs, id))
             else
               && s'.sent == s.sent + [Req(id, filters)] && s'.subs == Enter(s.subs, id, |s.all|)
               && |s.all| < |s'.all| && !s'.all[|s.all|].closed
    ensures |s.sent| <= |s'.sent| && Heeded(HeldIds(s), s'.sent[|s.sent|..]) == HeldIds(s')
  {
    Added(s.sent, []);
    Added(s.sent, [Req(id, filters)]);
    HeededOne(HeldIds(s), id, filters);
    DeletedValues(s.subs, id);
    forall i | i in s.subs.values
      ensures s.subs.values[i] < |s.all|
    {
      ListedId(s, i);
    }
    hide Sound, Delete;
    forall i
      ensures i in HeldIds(s') <==> i in HeldIds(s) || (i == id && s'.sent != s.sent)
    {
    }
  }

  lemma OpenServes(s: Registry, step: Step, fpOf: seq<Filter> -> string, reconnect: bool)
    requires Sound(s) && step.Open? && Allowed(s, step, fpOf) && Up(s, step)
    ensures var s' := Do(s, step, fpOf, reconnect);
      |s.sent| <= |s'.sent| && Heeded(HeldIds(s), s'.sent[|s.sent|..]) == HeldIds(s')
  {
    hide Sound, Delete, Joinable, HeldIds, Held;
    Lists(s, Do(s, step, fpOf, reconnect), step.id, step.filters);
  }

  /** A REQ is made and listed by the step, and not joined to one that was there. */
  predicate MakesReq(s: Registry, s': Registry, id: string) {
    id in s'.subs.values && s'.subs.values[id] >= |s.all|
  }

  /** On a closed socket nothing is sent, and a reconnect is asked for once if a REQ is made and reconnects are on. */
  lemma OpenOffline(s: Registry, step: Step, fpOf: seq<Filter> -> string, reconnect: bool)
    requires Sound(s) && step.Open? && !step.open && Allowed(s, step, fpOf)
    ensures
      && var s' := Do(s, step, fpOf, reconnect);
      && s'.sent == s.sent
      && s'.reconnects == s.reconnects + if reconnect && MakesReq(s, s', step.id) then 1 else 0
  {
    hide Sound, Without, Joinable;
    if step.id in s.subs.values {
      ListedId(s, step.id);
    }
  }

  /** A step keeps the registry and the relay agreed. */
  lemma StepServes(s: Registry, step: Step, fpOf: seq<Filter> -> string, reconnect: bool, served: set<string>)
    requires Sound(s) && Allowed(s, step, fpOf) && Up(s, step)
    requires step.Reconnected? || served == HeldIds(s)
    ensures var s' := Do(s, step, fpOf, reconnect);
      |s.sent| <= |s'.sent| && Serves(s, step, s', served) == HeldIds(s')
  {
    hide Sound, OpenExclusive, OpenLive, CloseOne, EoseOne, HandleEose, HandleEvent, Drop, AuthRetry, ReplayAll,
      Joinable, Held, CanDrop, HeldIds, HeldAmong;
    Added(s.sent, []);
    HeededOne(served, "", []);
    match step
    case Open(_, _, _, _, _) => OpenServes(s, step, fpOf, reconnect);
    case CloseIt(r, reason, _) => CloseServes(s, r, reason);
    case Timer(r, _) => TimerServes(s, r);
    case Eose(id, _) => EoseServes(s, id);
    case Receive(id, e, now, have, accepted) => ReceiveServes(s, id, e, now, have, accepted);
    case Dropped(r, reason) =>
      DropServes(s, r, reason);
      HeededOne(served - {s.all[r].id}, "", []);
    case Demanded(r) => OnList(s, BeginRetry(s, r));
    case Authenticated(r, reason, authed, open, sends) => RetryServes(s, r, reason, authed, open, sends);
    case Reconnected(room) => ReplayServes(s, room);
    case Shutdown(reason) => ShutdownServes(s, reason);
  }

  lemma ReceiveServes(s: Registry, id: string, e: Event, now: int, have: set<Ref>, accepted: bool)
    requires Sound(s)
    ensures var s' := HandleEvent(s, id, e, now, have, accepted); s'.sent == s.sent && HeldIds(s') == HeldIds(s)
  {
    hide Sound, Recipients, MatchesAny;
    OnList(s, HandleEvent(s, id, e, now, have, accepted));
  }

  lemma ShutdownServes(s: Registry, reason: string)
    ensures var s' := CloseAll(s, reason);
      s'.sent == s.sent && HeldIds(s') == {} && Heeded({}, s'.sent[|s.sent|..]) == {}
  {
    hide Farewells, Exclusives;
    assert s.sent[|s.sent|..] == [];
  }

  /** What the relay serves after the steps from `i` to `n`, if it served nothing before. */
  ghost function ServedFrom(states: seq<Registry>, steps: seq<Step>, i: nat, n: nat): set<string>
    requires i <= n <= |steps| && |states| == |steps| + 1
    requires forall k :: i <= k < n ==> Posed(states[k], steps[k]) && |states[k].sent| <= |states[k + 1].sent|
  {
    if n == i then {}
    else Serves(states[n - 1], steps[n - 1], states[n], ServedFrom(states, steps, i, n - 1))
  }

  lemma {:induction false} ServesOn(states: seq<Registry>, steps: seq<Step>, fpOf: seq<Filter> -> string,
                                    reconnect: bool, i: nat, n: nat)
    requires P.Faithful(fpOf) && Run(states, steps, fpOf, reconnect) && i <= n <= |steps|
    requires HeldIds(states[i]) == {} || (i < n && steps[i].Reconnected?)
    requires forall k :: i <= k < n ==> Up(states[k], steps[k])
    ensures forall k :: i <= k < n ==> Posed(states[k], steps[k]) && |states[k].sent| <= |states[k + 1].sent|
    ensures ServedFrom(states, steps, i, n) == HeldIds(states[n])
  {
    hide P.Faithful, Fine, Sound, Do, Up, Serves, HeldIds, Allowed, Posed;
    if i < n {
      if i < n - 1 || HeldIds(states[i]) == {} {
        ServesOn(states, steps, fpOf, reconnect, i, n - 1);
      }
      RunFine(states, steps, fpOf, reconnect, n - 1);
      FineSound(states[n - 1], fpOf);
      AllowedPosed(states[n - 1], steps[n - 1], fpOf);
      StepServes(states[n - 1], steps[n - 1], fpOf, reconnect, ServedFrom(states, steps, i, n - 1));
    }
  }

  /**
   * In every run: from the start, or from a reconnect that got through, the relay serves exactly the ids of the
   * REQs that are open here, after every step, for as long as the socket stays open and no one-shot REQ comes with
   * an aborted signal. `AbortedOnce` says what becomes of that one.
   */
  lemma ServesOpen(states: seq<Registry>, steps: seq<Step>, json: Filter -> string, reconnect: bool, i: nat, n: nat)
    requires P.PrefixFree(json) && Run(states, steps, P.FingerprintOf(json), reconnect) && i <= n <= |steps|
    requires i == 0 || (i < n && steps[i].Reconnected?)
    requires forall k :: i <= k < n ==> Up(states[k], steps[k])
    ensures forall k :: i <= k < n ==> Posed(states[k], steps[k]) && |states[k].sent| <= |states[k + 1].sent|
    ensures forall id :: id in ServedFrom(states, steps, i, n) <==> OpenUnder(states[n], id)
  {
    hide P.Faithful, P.PrefixFree, Fine, Sound, Do, Up, Serves, HeldIds, Allowed, Posed, ServedFrom;
    P.FingerprintFaithful(json);
    RunFine(states, steps, P.FingerprintOf(json), reconnect, n);
    FineSound(states[n], P.FingerprintOf(json));
    if i == 0 {
      NewHolds();
    }
    ServesOn(states, steps, P.FingerprintOf(json), reconnect, i, n);
    forall id
      ensures id in HeldIds(states[n]) <==> OpenUnder(states[n], id)
    {
      HeldOpen(states[n], id);
    }
  }

  lemma NewHolds()
    ensures HeldIds(New()) == {}
  {
  }

  lemma HeldOpen(s: Registry, id: string)
    requires Sound(s)
    ensures id in HeldIds(s) <==> OpenUnder(s, id)
  {
    if id in HeldIds(s) {
      ListedRole(s, id);
      ListedId(s, id);
    }
    if r: Ref :| r < |s.all| && !s.all[r].role.Handle? && !s.all[r].closed && s.all[r].id == id {
      RetryListed(s, r, id);
    }
    hide Sound;
  }
}
