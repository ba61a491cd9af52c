/**
 * What a store knows after any sequence of puts, without caps, evictions or removals: the facts
 * that the order of arrival does not change.
 */
module ConvergenceFacts {
  import opened Results
  import opened Events
  import opened Ordered
  import opened Deletion
  import opened Storage
  import opened StorageInvariants
  import opened StorageSteps

  // ---- puts in sequence ----

  const NEW: Store := NewStore(None, 0)

  function PutAll(s: Store, h: seq<Event>): Store {
    if h == [] then s else Put(PutAll(s, h[..|h| - 1]), h[|h| - 1])
  }

  function After(h: seq<Event>): Store {
    PutAll(NEW, h)
  }

  function Held(s: Store): set<Event> {
    set id | id in s.events :: s.events[id]
  }

  predicate Plain(s: Store) {
    s.watermarks == Empty() && s.maxTombstones == None
  }

  // ---- what events say about each other ----

  predicate IsDeletion(e: Event) {
    Canonical(e) && e.kind == EVENT_DELETION
  }

  predicate Storable(e: Event) {
    Canonical(e) && e.kind != EVENT_DELETION && !IsEphemeralKind(e.kind)
  }

  predicate Asks(d: Event, z: Event) {
    IsDeletion(d) && NamesId(d, z.id)
  }

  /** The author of `z` asked for its deletion by id. */
  ghost predicate DeletedIn(seen: set<Event>, z: Event) {
    exists d :: d in seen && Asks(d, z) && d.pubkey == z.pubkey
  }

  /** Somebody else asked for the deletion of `z` by id. */
  ghost predicate ConflictedIn(seen: set<Event>, z: Event) {
    exists d :: d in seen && Asks(d, z) && d.pubkey != z.pubkey
  }

  /** A deletion of the address of `z` is no older than `z`. */
  ghost predicate BuriedIn(seen: set<Event>, z: Event) {
    exists d :: d in seen && IsDeletion(d) && Buries(d, z)
  }

  // ---- the facts ----

  ghost predicate KnowsIds(s: Store, seen: set<Event>) {
    forall id :: id in s.deletion.ids.values ==>
      exists z :: z in seen && z.id == id && z.kind != EVENT_DELETION && (DeletedIn(seen, z) || BuriedIn(seen, z))
  }

  ghost predicate KnowsPending(s: Store, seen: set<Event>) {
    forall id :: id in s.deletion.pending.values ==>
      exists d :: d in seen && IsDeletion(d) && NamesId(d, id) && d.pubkey == s.deletion.pending.values[id]
  }

  predicate Closed(s: Store, a: Address, time: int) {
    a in s.deletion.coordinates.values && time <= s.deletion.coordinates.values[a]
  }

  ghost predicate KnowsCoordinates(s: Store, seen: set<Event>) {
    forall z: Event :: EventAddress(z).Some? ==> (Closed(s, EventAddress(z).value, z.createdAt) <==> BuriedIn(seen, z))
  }

  ghost predicate KnowsEvents(s: Store, seen: set<Event>) {
    && (forall id :: id in s.events ==> s.events[id] in seen)
    && (forall d :: d in seen && IsDeletion(d) ==> d.id in s.events && s.events[d.id] == d)
  }

  ghost predicate Facts(s: Store, seen: set<Event>) {
    KnowsEvents(s, seen) && KnowsIds(s, seen) && KnowsPending(s, seen) && KnowsCoordinates(s, seen)
  }

  /** The store has taken in exactly the events of `seen`, all of them from `u`. */
  ghost predicate Reached(s: Store, seen: set<Event>, u: set<Event>) {
    Plain(s) && Good(s, u) && OneEventPerId(u) && seen <= u && Facts(s, seen)
  }

  // ---- one put ----

  lemma TrimsNothing(s: Store)
    requires s.maxTombstones == None
    ensures Trimmed(s) == s
  {
  }

  lemma PutErases(s: Store, d: Event)
    requires Plain(s) && Fresh(s, d) && d.kind == EVENT_DELETION
    ensures Put(s, d) == Trimmed(Erasing(s, d))
  {
  }

  /** The event is newer than the holder of its address, if there is one. */
  predicate Prevails(s: Store, e: Event) {
    var a := EventAddress(e);
    a.Some? && HasLive(s, a.value) ==> Before(e, s.events[s.winners[a.value]])
  }

  /** A put that erases nothing, case by case. */
  predicate Outcome(s: Store, e: Event, s': Store) {
    if !Fresh(s, e) then s' == s
    else if Covers(s.deletion, e) then s' == s.(deletion := Bury(s.deletion, e.id))
    else if IsEphemeralKind(e.kind) || !Prevails(s, e) then s' == s
    else
      var a := EventAddress(e);
      && s'.deletion == s.deletion
      && s'.events == (if a.Some? && HasLive(s, a.value) then s.events - {s.winners[a.value]} else s.events)[e.id := e]
  }

  lemma Prevailing(s: Store, e: Event)
    requires Plain(s) && Filed(s) && Fresh(s, e) && e.kind != EVENT_DELETION
    ensures DecisionFor(s, e).Insert? <==> !Covers(s.deletion, e) && !IsEphemeralKind(e.kind) && Prevails(s, e)
    ensures DecisionFor(s, e).Entomb? <==> Covers(s.deletion, e)
    ensures !DecisionFor(s, e).Erase?
  {
    var a := EventAddress(e);
    if a.Some? && HasLive(s, a.value) {
      BeforeTotal(e, s.events[s.winners[a.value]]);
    }
  }

  lemma PutInserts(s: Store, e: Event)
    requires Plain(s) && Filed(s) && DecisionFor(s, e).Insert?
    ensures var s', a := Put(s, e), EventAddress(e);
            && s'.deletion == s.deletion
            && s'.events == (if a.Some? && HasLive(s, a.value) then s.events - {s.winners[a.value]} else s.events)[e.id := e]
  {
    Inserting(s, e);
    InsertingReplaces(s, e);
    TrimsNothing(Settle(s, e));
  }

  lemma PutLeaves(s: Store, e: Event)
    requires Plain(s)
    ensures DecisionFor(s, e).Leave? ==> Put(s, e) == s
    ensures DecisionFor(s, e).Entomb? ==> Put(s, e) == s.(deletion := Bury(s.deletion, e.id))
  {
    if DecisionFor(s, e).Leave? {
      TrimsNothing(s);
    } else if DecisionFor(s, e).Entomb? {
      TrimsNothing(s.(deletion := Bury(s.deletion, e.id)));
    }
  }

  lemma NotFresh(s: Store, e: Event)
    requires !Fresh(s, e)
    ensures DecisionFor(s, e).Leave?
  {
  }

  lemma PutOutcome(s: Store, e: Event)
    requires Plain(s) && Filed(s) && (e.kind == EVENT_DELETION ==> !Fresh(s, e))
    ensures Outcome(s, e, Put(s, e))
  {
    ghost var s' := Put(s, e);
    PutLeaves(s, e);
    if !Fresh(s, e) {
      NotFresh(s, e);
    } else {
      Prevailing(s, e);
      if DecisionFor(s, e).Insert? {
        PutInserts(s, e);
      }
    }
  }

  lemma NoMarks(s: Store)
    requires WellFormed(s.watermarks) && forall a :: a !in s.watermarks.values
    ensures s.watermarks == Empty()
  {
    assert s.watermarks.values == map[];
    DistinctCount(s.watermarks.keys);
  }

  lemma ErasesPlain(s: Store, u: set<Event>, d: Event)
    requires Plain(s) && Good(s, u) && OneEventPerId(u) && d in u && d.kind == EVENT_DELETION && Fresh(s, d)
    ensures Plain(Erasing(s, d)) && Put(s, d) == Erasing(s, d)
  {
    ErasingParts(s, u, d);
    NoMarks(Erasing(s, d));
    PutErases(s, d);
    TrimsNothing(Erasing(s, d));
  }

  lemma InsertsPlain(s: Store, e: Event)
    requires Plain(s) && Filed(s) && DecisionFor(s, e).Insert?
    ensures Plain(Put(s, e))
  {
    Inserting(s, e);
    NoMarks(Settle(s, e));
    TrimsNothing(Settle(s, e));
  }

  lemma DecidesToErase(s: Store, e: Event)
    requires DecisionFor(s, e).Erase?
    ensures Fresh(s, e) && e.kind == EVENT_DELETION
  {
  }

  /** Without caps, evictions and removals no watermark is ever kept. */
  lemma PutPlain(s: Store, u: set<Event>, e: Event)
    requires Plain(s) && Good(s, u) && OneEventPerId(u) && e in u
    ensures Plain(Put(s, e)) && Good(Put(s, e), u)
  {
    PutKeeps(s, u, e);
    if DecisionFor(s, e).Erase? {
      DecidesToErase(s, e);
      ErasesPlain(s, u, e);
    } else if DecisionFor(s, e).Insert? {
      InsertsPlain(s, e);
    } else {
      PutLeaves(s, e);
    }
  }

  // ---- one put keeps the facts ----

  lemma SeeMore(seen: set<Event>, e: Event, z: Event)
    ensures DeletedIn(seen, z) ==> DeletedIn(seen + {e}, z)
    ensures BuriedIn(seen, z) ==> BuriedIn(seen + {e}, z)
    ensures !IsDeletion(e) ==> (BuriedIn(seen + {e}, z) ==> BuriedIn(seen, z))
    ensures BuriedIn(seen + {e}, z) ==> BuriedIn(seen, z) || (IsDeletion(e) && Buries(e, z))
  {
  }

  lemma EraseEvents(s: Store, u: set<Event>, seen: set<Event>, d: Event)
    requires Plain(s) && Good(s, u) && OneEventPerId(u) && d in u && Fresh(s, d) && d.kind == EVENT_DELETION
    requires KnowsEvents(s, seen)
    ensures KnowsEvents(Erasing(s, d), seen + {d})
  {
    ErasingEvents(s, u, d);
  }

  lemma EraseIds(s: Store, u: set<Event>, seen: set<Event>, d: Event)
    requires Plain(s) && Good(s, u) && OneEventPerId(u) && d in u && Fresh(s, d) && d.kind == EVENT_DELETION
    requires KnowsEvents(s, seen) && KnowsIds(s, seen)
    ensures KnowsIds(Erasing(s, d), seen + {d})
  {
    forall id | id in Erasing(s, d).deletion.ids.values
      ensures exists z :: z in seen + {d} && z.id == id && z.kind != EVENT_DELETION && (DeletedIn(seen + {d}, z) || BuriedIn(seen + {d}, z))
    {
      ErasingIds(s, u, d, id);
      if id in s.deletion.ids.values {
        var z :| z in seen && z.id == id && z.kind != EVENT_DELETION && (DeletedIn(seen, z) || BuriedIn(seen, z));
        SeeMore(seen, d, z);
        assert z in seen + {d};
      } else {
        var z := s.events[id];
        assert Erases(d, z);
        assert z in seen + {d} && z.id == id && z.kind != EVENT_DELETION;
        assert d in seen + {d} && IsDeletion(d);
        assert DeletedIn(seen + {d}, z) || BuriedIn(seen + {d}, z);
      }
    }
  }

  lemma ErasePending(s: Store, u: set<Event>, seen: set<Event>, d: Event)
    requires Plain(s) && Good(s, u) && OneEventPerId(u) && d in u && Fresh(s, d) && d.kind == EVENT_DELETION
    requires KnowsPending(s, seen)
    ensures KnowsPending(Erasing(s, d), seen + {d})
  {
    var p' := Erasing(s, d).deletion.pending.values;
    forall id | id in p'
      ensures exists x :: x in seen + {d} && IsDeletion(x) && NamesId(x, id) && x.pubkey == p'[id]
    {
      ErasingPending(s, u, d, id);
      if id !in s.events && id !in s.deletion.ids.values && NamesId(d, id) {
        assert d in seen + {d};
      } else {
        var x :| x in seen && IsDeletion(x) && NamesId(x, id) && x.pubkey == s.deletion.pending.values[id];
        assert x in seen + {d};
      }
    }
  }

  lemma EraseCoordinates(s: Store, u: set<Event>, seen: set<Event>, d: Event)
    requires Plain(s) && Good(s, u) && OneEventPerId(u) && d in u && Fresh(s, d) && d.kind == EVENT_DELETION
    requires KnowsCoordinates(s, seen)
    ensures KnowsCoordinates(Erasing(s, d), seen + {d})
  {
    forall z: Event | EventAddress(z).Some?
      ensures Closed(Erasing(s, d), EventAddress(z).value, z.createdAt) <==> BuriedIn(seen + {d}, z)
    {
      ErasingCoordinates(s, u, d, EventAddress(z).value);
      SeeMore(seen, d, z);
      assert d in seen + {d} && IsDeletion(d);
      assert Closed(s, EventAddress(z).value, z.createdAt) <==> BuriedIn(seen, z);
      assert Buries(d, z) ==> BuriedIn(seen + {d}, z);
    }
  }

  lemma SameTombstones(s: Store, s': Store, seen: set<Event>, e: Event)
    requires KnowsIds(s, seen) && KnowsPending(s, seen) && KnowsCoordinates(s, seen) && !IsDeletion(e)
    requires s'.deletion == s.deletion || (s'.deletion == Bury(s.deletion, e.id) && e.kind != EVENT_DELETION && (DeletedIn(seen, e) || BuriedIn(seen, e)))
    ensures KnowsIds(s', seen + {e}) && KnowsPending(s', seen + {e}) && KnowsCoordinates(s', seen + {e})
  {
    forall id | id in s'.deletion.ids.values
      ensures exists z :: z in seen + {e} && z.id == id && z.kind != EVENT_DELETION && (DeletedIn(seen + {e}, z) || BuriedIn(seen + {e}, z))
    {
      SeeMore(seen, e, e);
      if id in s.deletion.ids.values {
        var z :| z in seen && z.id == id && z.kind != EVENT_DELETION && (DeletedIn(seen, z) || BuriedIn(seen, z));
        SeeMore(seen, e, z);
        assert z in seen + {e};
      } else {
        assert e in seen + {e};
      }
    }
    forall id | id in s'.deletion.pending.values
      ensures exists d :: d in seen + {e} && IsDeletion(d) && NamesId(d, id) && d.pubkey == s'.deletion.pending.values[id]
    {
      var d :| d in seen && IsDeletion(d) && NamesId(d, id) && d.pubkey == s.deletion.pending.values[id];
      assert d in seen + {e};
    }
    forall z: Event | EventAddress(z).Some?
      ensures Closed(s', EventAddress(z).value, z.createdAt) <==> BuriedIn(seen + {e}, z)
    {
      SeeMore(seen, e, z);
      assert Closed(s', EventAddress(z).value, z.createdAt) == Closed(s, EventAddress(z).value, z.createdAt);
    }
  }

  /** A covered event has been deleted by its author, or lies buried. */
  lemma CoveredMeans(s: Store, seen: set<Event>, e: Event)
    requires KnowsPending(s, seen) && KnowsCoordinates(s, seen) && e.kind != EVENT_DELETION && e.id !in s.deletion.ids.values
    ensures Covers(s.deletion, e) ==> DeletedIn(seen, e) || BuriedIn(seen, e)
  {
    if e.id in s.deletion.pending.values && s.deletion.pending.values[e.id] == e.pubkey {
      var d :| d in seen && IsDeletion(d) && NamesId(d, e.id) && d.pubkey == s.deletion.pending.values[e.id];
      assert Asks(d, e);
    } else if Covers(s.deletion, e) {
      assert Closed(s, EventAddress(e).value, e.createdAt);
    }
  }

  /** A fresh deletion put is erased with, any other put has one of the plain outcomes. */
  lemma PutIs(s: Store, seen: set<Event>, u: set<Event>, e: Event)
    requires Reached(s, seen, u) && e in u
    ensures Reached(Put(s, e), seen + {e}, u)
    ensures IsDeletion(e) && e !in seen ==> Put(s, e) == Erasing(s, e) && Fresh(s, e)
    ensures IsDeletion(e) && e in seen ==> Put(s, e) == s
    ensures !IsDeletion(e) ==> Outcome(s, e, Put(s, e))
  {
    PutPlain(s, u, e);
    if IsDeletion(e) {
      KnownDeletion(s, seen, u, e);
    }
    if Fresh(s, e) && e.kind == EVENT_DELETION {
      ErasesPlain(s, u, e);
      EraseEvents(s, u, seen, e);
      EraseIds(s, u, seen, e);
      ErasePending(s, u, seen, e);
      EraseCoordinates(s, u, seen, e);
    } else {
      PutOutcome(s, e);
      OutcomeFacts(s, u, seen, e, Put(s, e));
    }
  }

  lemma OutcomeEvents(s: Store, seen: set<Event>, e: Event, s': Store)
    requires Filed(s) && KnowsEvents(s, seen) && Outcome(s, e, s') && !IsDeletion(e)
    ensures KnowsEvents(s', seen + {e})
  {
  }

  lemma OutcomeTombstones(s: Store, seen: set<Event>, e: Event, s': Store)
    requires KnowsPending(s, seen) && KnowsCoordinates(s, seen) && Outcome(s, e, s') && (e.kind == EVENT_DELETION ==> !Fresh(s, e))
    ensures s'.deletion == s.deletion ||
            (s'.deletion == Bury(s.deletion, e.id) && e.kind != EVENT_DELETION && (DeletedIn(seen, e) || BuriedIn(seen, e)))
  {
    if Fresh(s, e) {
      CoveredMeans(s, seen, e);
    }
  }

  lemma OutcomeFacts(s: Store, u: set<Event>, seen: set<Event>, e: Event, s': Store)
    requires Reached(s, seen, u) && e in u
    requires (e.kind == EVENT_DELETION ==> !Fresh(s, e)) && Outcome(s, e, s')
    ensures Facts(s', seen + {e})
  {
    if IsDeletion(e) {
      KnownDeletion(s, seen, u, e);
      assert seen + {e} == seen;
    } else {
      OutcomeEvents(s, seen, e, s');
      OutcomeTombstones(s, seen, e, s');
      SameTombstones(s, s', seen, e);
    }
  }

  /** A deletion that is not fresh has been seen. */
  lemma KnownDeletion(s: Store, seen: set<Event>, u: set<Event>, d: Event)
    requires Reached(s, seen, u) && d in u && IsDeletion(d)
    ensures d.id !in s.deletion.ids.values
    ensures !Fresh(s, d) <==> d in seen
  {
    if d.id in s.deletion.ids.values {
      var z :| z in seen && z.id == d.id && z.kind != EVENT_DELETION && (DeletedIn(seen, z) || BuriedIn(seen, z));
      assert false;
    }
  }

  function Seen(h: seq<Event>): set<Event> {
    Elements(h)
  }

  /** After any sequence of puts. */
  lemma {:induction false} AfterReaches(h: seq<Event>, u: set<Event>)
    requires Seen(h) <= u && OneEventPerId(u)
    ensures Reached(After(h), Seen(h), u)
  {
    hide Settle;
    if h == [] {
      NewStoreGood(u, None, 0);
    } else {
      AfterReaches(h[..|h| - 1], u);
      assert Seen(h) == Seen(h[..|h| - 1]) + {h[|h| - 1]};
      PutIs(After(h[..|h| - 1]), Seen(h[..|h| - 1]), u, h[|h| - 1]);
    }
  }

  /** The last put, of several. */
  lemma LastPut(h: seq<Event>, u: set<Event>) returns (before: seq<Event>, e: Event)
    requires Seen(h) <= u && OneEventPerId(u) && h != []
    ensures h == before + [e] && |before| == |h| - 1 && Seen(h) == Seen(before) + {e} && e in u
    ensures Reached(After(before), Seen(before), u) && After(h) == Put(After(before), e)
    ensures IsDeletion(e) && e !in Seen(before) ==> After(h) == Erasing(After(before), e) && Fresh(After(before), e)
    ensures IsDeletion(e) && e in Seen(before) ==> After(h) == After(before)
    ensures !IsDeletion(e) ==> Outcome(After(before), e, After(h))
  {
    hide Settle;
    before, e := h[..|h| - 1], h[|h| - 1];
    AfterReaches(before, u);
    PutIs(After(before), Seen(before), u, e);
  }
}
