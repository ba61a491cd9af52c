/** What one put changes, and that every run of operations keeps the invariants of the index. */
module StorageSteps {
  import opened Results
  import opened Events
  import opened Ordered
  import opened Deletion
  import opened Storage
  import opened StorageInvariants

  /** The deletion `d` erases the stored event `x`. */
  predicate Erases(d: Event, x: Event) {
    && x.kind != EVENT_DELETION
    && ((x.pubkey == d.pubkey && NamesId(d, x.id)) || Buries(d, x))
  }

  /** The deletion `d` names the address of `x` and is no older than `x`. */
  predicate Buries(d: Event, x: Event) {
    EventAddress(x).Some? && NamesAddress(d, EventAddress(x).value) && x.createdAt <= d.createdAt
  }

  predicate Fresh(s: Store, e: Event) {
    Canonical(e) && e.id !in s.deletion.ids.values && e.id !in s.events
  }

  lemma {:induction false} CoordinateRemovalsAre(coordinates: seq<Address>, current: map<Address, Winner>,
      until: int, id: string)
    ensures id in CoordinateRemovals(coordinates, current, until) <==>
              exists a :: a in coordinates && a in current && current[a].mark.createdAt <= until && current[a].mark.id == id
  {
    if coordinates != [] {
      CoordinateRemovalsAre(coordinates[..|coordinates| - 1], current, until, id);
      assert coordinates == coordinates[..|coordinates| - 1] + [coordinates[|coordinates| - 1]];
    }
  }

  /** The ids a deletion removes are those of the events it erases. */
  lemma RemovedAreErased(s: Store, u: set<Event>, d: Event, id: string)
    requires Filed(s) && Known(s, u) && OneEventPerId(u) && id in s.events
    ensures var plan := Plan(d, s.events);
            id in plan.removeIds || id in CoordinateIds(d, LookupOf(s))
            <==> Erases(d, s.events[id])
  {
    var plan, current := Plan(d, s.events), LookupOf(s).current;
    RemovalsAre(NamedIds(d.tags), s.events, d.pubkey, id);
    CoordinateRemovalsAre(plan.coordinates, current, plan.until, id);
    var x := s.events[id];
    if id in CoordinateIds(d, LookupOf(s)) {
      var a :| a in plan.coordinates && a in current && current[a].mark.createdAt <= plan.until && current[a].mark.id == id;
      assert HasLive(s, a);
    }
    if Buries(d, x) {
      var a := EventAddress(x).value;
      assert HasLive(s, a) && s.winners[a] == id;
      assert a in current && current[a].mark == MarkOf(x);
    }
  }

  /** A mark does not carry the id of an event without an address. */
  lemma NoMarkOf(s: Store, u: set<Event>, e: Event)
    requires Known(s, u) && OneEventPerId(u) && e in u && EventAddress(e).None?
    ensures forall a :: a in s.watermarks.values ==> s.watermarks.values[a].id != e.id
  {
    forall a | a in s.watermarks.values
      ensures s.watermarks.values[a].id != e.id
    {
      var y :| y in u && MarkOf(y) == s.watermarks.values[a] && EventAddress(y) == Some(a);
    }
  }

  lemma ErasingParts(s: Store, u: set<Event>, d: Event)
    requires Filed(s) && Known(s, u) && OneEventPerId(u) && d in u && d.kind == EVENT_DELETION && Fresh(s, d)
    ensures var plan := Plan(d, s.events);
            var coordIds := CoordinateIds(d, LookupOf(s));
            var t := s.deletion.(pending := Delete(s.deletion.pending, d.id));
            var s' := Erasing(s, d);
            && s'.events == (s.events - Elements(plan.removeIds) - Elements(coordIds))[d.id := d]
            && s'.deletion == AddAll(Absorb(t, plan), coordIds)
            && s'.maxTombstones == s.maxTombstones && s'.maxWatermarks == s.maxWatermarks
            && (forall a :: a in s'.watermarks.values ==> a in s.watermarks.values && s'.watermarks.values[a] == s.watermarks.values[a])
    ensures Filed(Erasing(s, d))
  {
    var plan := Plan(d, s.events);
    var coordIds := CoordinateIds(d, LookupOf(s));
    var t := s.deletion.(pending := Delete(s.deletion.pending, d.id));
    var s0 := DropMarksOf(s, plan.pendingIds);
    DropMarksOfIs(s, plan.pendingIds);
    var s1 := DropMarks(s0, plan.coordinates);
    DropMarksIs(s0, plan.coordinates);
    DeleteWellFormed(s.deletion.pending, d.id);
    AbsorbFiled(t, plan);
    var s2 := s1.(deletion := Absorb(t, plan));
    var s3 := RemoveAll(s2, plan.removeIds);
    RemoveAllIs(s2, plan.removeIds);
    RemoveAllFiles(s2, plan.removeIds);
    UprootAllIs(s3, coordIds);
    RemoveAllIs(s3, coordIds);
    RemoveAllFiles(s3, coordIds);
    AddAllIs(s3.deletion, coordIds);
    IndexInsertIs(UprootAll(s3, coordIds), d);
  }

  /** A new deletion takes away exactly what it erases, and is stored. */
  lemma ErasingEvents(s: Store, u: set<Event>, d: Event)
    requires Filed(s) && Known(s, u) && OneEventPerId(u) && d in u && d.kind == EVENT_DELETION && Fresh(s, d)
    ensures forall id :: id in Erasing(s, d).events <==> id == d.id || (id in s.events && !Erases(d, s.events[id]))
    ensures forall id :: id in Erasing(s, d).events ==> Erasing(s, d).events[id] == if id == d.id then d else s.events[id]
  {
    hide Erasing, Erases, Plan, CoordinateIds, Filed, Known, OneEventPerId;
    ErasingParts(s, u, d);
    forall id | id in s.events
      ensures id in Erasing(s, d).events <==> !Erases(d, s.events[id])
    {
      RemovedAreErased(s, u, d, id);
    }
  }

  /** A new deletion buries the ids that its plan and its coordinates remove. */
  lemma ErasingBuries(s: Store, u: set<Event>, d: Event, id: string)
    requires Filed(s) && Known(s, u) && OneEventPerId(u) && d in u && d.kind == EVENT_DELETION && Fresh(s, d)
    ensures id in Erasing(s, d).deletion.ids.values <==>
      id in s.deletion.ids.values || id in Plan(d, s.events).removeIds || id in CoordinateIds(d, LookupOf(s))
  {
    hide FiledEvents, FiledMarks, Known, OneEventPerId, Erasing, Fresh, Plan, CoordinateIds;
    var plan := Plan(d, s.events);
    var coordIds := CoordinateIds(d, LookupOf(s));
    var t := s.deletion.(pending := Delete(s.deletion.pending, d.id));
    ErasingParts(s, u, d);
    DeleteWellFormed(s.deletion.pending, d.id);
    AbsorbFiled(t, plan);
    AddAllIs(Absorb(t, plan), coordIds);
    AbsorbAt(t, plan, id);
  }

  /** What is not stored is not removed, but for the marks of its coordinates. */
  lemma NotStored(s: Store, u: set<Event>, d: Event, id: string)
    requires Filed(s) && Known(s, u) && OneEventPerId(u) && d in u && d.kind == EVENT_DELETION && id !in s.events
    ensures id !in Plan(d, s.events).removeIds
    ensures id == d.id || s.watermarks == Empty() ==> id !in CoordinateIds(d, LookupOf(s))
  {
    hide FiledMarks, FiledTombstones, Known, OneEventPerId, Canonical;
    var plan := Plan(d, s.events);
    RemovalsAre(NamedIds(d.tags), s.events, d.pubkey, id);
    CoordinateRemovalsAre(plan.coordinates, LookupOf(s).current, plan.until, id);
    if id == d.id {
      NoMarkOf(s, u, d);
    }
  }

  /** The ids a new deletion buries. */
  lemma ErasingIds(s: Store, u: set<Event>, d: Event, id: string)
    requires Filed(s) && Known(s, u) && OneEventPerId(u) && d in u && d.kind == EVENT_DELETION && Fresh(s, d)
    ensures var ids, ids' := s.deletion.ids.values, Erasing(s, d).deletion.ids.values;
            && (id in ids ==> id in ids')
            && (id in s.events ==> (id in ids' <==> id in ids || Erases(d, s.events[id])))
            && (id == d.id ==> id !in ids')
            && (s.watermarks == Empty() && id !in s.events ==> (id in ids' <==> id in ids))
  {
    hide Erasing, Erases, Plan, CoordinateIds;
    ErasingBuries(s, u, d, id);
    if id in s.events {
      RemovedAreErased(s, u, d, id);
    } else {
      NotStored(s, u, d, id);
    }
  }

  /** Whose deletion is awaited for an id, after a new deletion. */
  lemma ErasingPending(s: Store, u: set<Event>, d: Event, id: string)
    requires Filed(s) && Known(s, u) && OneEventPerId(u) && d in u && d.kind == EVENT_DELETION && Fresh(s, d)
    ensures var t, p, p' := s.deletion, s.deletion.pending.values, Erasing(s, d).deletion.pending.values;
            && (id !in s.events && id !in t.ids.values && NamesId(d, id) ==> id in p' && p'[id] == d.pubkey)
            && (id in p' && (id in s.events || !NamesId(d, id) || id in t.ids.values) ==> id in p && p'[id] == p[id])
            && (id != d.id && id !in s.events && !NamesId(d, id) && id in p ==> id in p')
  {
    var plan := Plan(d, s.events);
    var t := s.deletion.(pending := Delete(s.deletion.pending, d.id));
    ErasingParts(s, u, d);
    DeleteWellFormed(s.deletion.pending, d.id);
    AbsorbFiled(t, plan);
    AddAllIs(Absorb(t, plan), CoordinateIds(d, LookupOf(s)));
    AbsorbAt(t, plan, id);
    RemovalsAre(NamedIds(d.tags), s.events, d.pubkey, id);
    MissingAre(NamedIds(d.tags), s.events, id);
  }

  lemma AbsorbAt(t: Tombstones, plan: DeletionPlan, id: string)
    ensures var t' := Absorb(t, plan);
            && (id in t'.ids.values <==> id in t.ids.values || id in plan.removeIds)
            && (id in t'.pending.values <==>
                  (id in t.pending.values && id !in plan.removeIds) || (id in plan.pendingIds && id !in t'.ids.values))
            && (id in t'.pending.values ==>
                  t'.pending.values[id] ==
                  if id in plan.pendingIds && id !in t'.ids.values then plan.pubkey else t.pending.values[id])
  {
    var t1 := BuryAll(t, plan.removeIds);
    BuryAllAt(t, plan.removeIds, id);
    var t2 := AwaitAll(t1, plan.pendingIds, plan.pubkey);
    AwaitAllAt(t1, plan.pendingIds, plan.pubkey, id);
    CloseAllAt(t2, plan.coordinates, plan.until, Address(0, "", ""));
  }

  /** A new deletion closes the coordinates it names up to its own time. */
  lemma ErasingCoordinates(s: Store, u: set<Event>, d: Event, a: Address)
    requires Filed(s) && Known(s, u) && OneEventPerId(u) && d in u && d.kind == EVENT_DELETION && Fresh(s, d)
    ensures var c, c' := s.deletion.coordinates.values, Erasing(s, d).deletion.coordinates.values;
            && (a in c' <==> a in c || NamesAddress(d, a))
            && (a in c' ==> c'[a] == if NamesAddress(d, a) then Later(s.deletion, a, d.createdAt) else c[a])
  {
    var plan := Plan(d, s.events);
    var coordIds := CoordinateIds(d, LookupOf(s));
    var t := s.deletion.(pending := Delete(s.deletion.pending, d.id));
    ErasingParts(s, u, d);
    DeleteWellFormed(s.deletion.pending, d.id);
    AbsorbFiled(t, plan);
    AddAllIs(Absorb(t, plan), coordIds);
    var t1 := BuryAll(t, plan.removeIds);
    BuryAllAt(t, plan.removeIds, "");
    AwaitAllAt(t1, plan.pendingIds, plan.pubkey, "");
    CloseAllAt(AwaitAll(t1, plan.pendingIds, plan.pubkey), plan.coordinates, plan.until, a);
  }

  // ---- an accepted event ----

  function DecisionFor(s: Store, e: Event): PutDecision {
    Decide(e, LookupOf(s))
  }

  /** An accepted event takes its address over from the event that held it. */
  lemma Inserting(s: Store, e: Event)
    requires Filed(s) && DecisionFor(s, e).Insert?
    ensures var s', r := Settle(s, e), DecisionFor(s, e).replaceId;
            && s'.deletion == s.deletion && s'.maxTombstones == s.maxTombstones && s'.maxWatermarks == s.maxWatermarks
            && s'.events == (if r.None? then s.events else s.events - {r.value})[e.id := e]
            && (forall a :: a in s'.watermarks.values ==>
                  a in s.watermarks.values && s'.watermarks.values[a] == s.watermarks.values[a] && EventAddress(e) != Some(a))
    ensures Filed(Settle(s, e))
  {
    InsertingReplaces(s, e);
    var r := DecisionFor(s, e).replaceId;
    if r.Some? {
      IndexRemoveFiles(s, r.value);
      IndexRemoveIs(s, r.value);
      IndexInsertIs(IndexRemove(s, r.value), e);
    } else {
      IndexInsertIs(s, e);
    }
  }

  lemma InsertingReplaces(s: Store, e: Event)
    requires Filed(s) && DecisionFor(s, e).Insert?
    ensures var a, r := EventAddress(e), DecisionFor(s, e).replaceId;
            if a.Some? && HasLive(s, a.value) then r == Some(s.winners[a.value]) else r == None
    ensures Fresh(s, e) && e.kind != EVENT_DELETION && !IsEphemeralKind(e.kind) && !Covers(s.deletion, e)
  {
  }

  // ---- every operation keeps the invariants ----

  ghost predicate Good(s: Store, u: set<Event>) {
    Filed(s) && NoneCovered(s) && Known(s, u)
  }

  lemma ErasingKeeps(s: Store, u: set<Event>, d: Event)
    requires Good(s, u) && OneEventPerId(u) && d in u && d.kind == EVENT_DELETION && Fresh(s, d)
    ensures Good(Erasing(s, d), u)
  {
    hide Covers, Erasing, Erases, Fresh;
    var s' := Erasing(s, d);
    ErasingParts(s, u, d);
    ErasingEvents(s, u, d);
    forall id | id in s'.events
      ensures !Covers(s'.deletion, s'.events[id])
    {
      ErasingUncovers(s, u, d, id);
    }
  }

  /** What is stored after a deletion is not covered. */
  lemma ErasingUncovers(s: Store, u: set<Event>, d: Event, id: string)
    requires Good(s, u) && OneEventPerId(u) && d in u && d.kind == EVENT_DELETION && Fresh(s, d)
    requires id in Erasing(s, d).events
    ensures !Covers(Erasing(s, d).deletion, Erasing(s, d).events[id])
  {
    hide Erasing, FiledMarks, FiledTombstones, Known, OneEventPerId, Canonical;
    ErasingEvents(s, u, d);
    ErasingIds(s, u, d, id);
    if id != d.id {
      ErasingPending(s, u, d, id);
      var a := EventAddress(s.events[id]);
      if a.Some? {
        ErasingCoordinates(s, u, d, a.value);
      }
    }
  }

  lemma InsertingKeeps(s: Store, u: set<Event>, e: Event)
    requires Good(s, u) && e in u && DecisionFor(s, e).Insert?
    ensures Good(Settle(s, e), u)
  {
    hide Filed, Covers, Settle, DecisionFor, Canonical, MarkKnown, Elements;
    Inserting(s, e);
    InsertingReplaces(s, e);
  }

  lemma EntombKeeps(s: Store, u: set<Event>, e: Event)
    requires Good(s, u) && e.id !in s.events
    ensures Good(s.(deletion := Bury(s.deletion, e.id)), u)
  {
    hide FiledMarks, MarkKnown, Canonical;
    BuryFiled(s.deletion, e.id);
  }

  lemma SettleKeeps(s: Store, u: set<Event>, e: Event)
    requires Good(s, u) && OneEventPerId(u) && e in u
    ensures Good(Settle(s, e), u)
  {
    hide Good, OneEventPerId;
    var d := DecisionFor(s, e);
    if d.Erase? {
      ErasingKeeps(s, u, e);
    } else if d.Insert? {
      InsertingKeeps(s, u, e);
    } else if d.Entomb? {
      EntombKeeps(s, u, e);
    }
  }

  lemma SettleCaps(s: Store, u: set<Event>, e: Event)
    requires Good(s, u) && OneEventPerId(u) && e in u
    ensures Settle(s, e).maxTombstones == s.maxTombstones && Settle(s, e).maxWatermarks == s.maxWatermarks
  {
    match DecisionFor(s, e)
    case Leave(_) =>
    case Entomb =>
    case Erase(_, _) =>
      ErasingParts(s, u, e);
    case Insert(_) =>
      Inserting(s, e);
  }

  /** The caps of a store are as given when it was made. */
  predicate SameCaps(s': Store, s: Store) {
    s'.maxTombstones == s.maxTombstones && s'.maxWatermarks == s.maxWatermarks
  }

  lemma PutKeeps(s: Store, u: set<Event>, e: Event)
    requires Good(s, u) && OneEventPerId(u) && e in u
    ensures Good(Put(s, e), u) && WithinCap(Put(s, e).deletion, s.maxTombstones) && SameCaps(Put(s, e), s)
  {
    SettleKeeps(s, u, e);
    SettleCaps(s, u, e);
    TrimmedKeeps(Settle(s, e));
  }

  lemma {:induction false} RemoveEachKeeps(s: Store, u: set<Event>, ids: seq<string>)
    requires Good(s, u)
    ensures Good(RemoveEach(s, ids), u) && SameCaps(RemoveEach(s, ids), s)
  {
    if ids != [] {
      var before, id := RemoveEach(s, ids[..|ids| - 1]), Lower(ids[|ids| - 1]);
      RemoveEachKeeps(s, u, ids[..|ids| - 1]);
      IndexRemoveFiles(before, id);
      IndexRemoveIs(before, id);
      BuryFiled(before.deletion, id);
    }
  }

  lemma RemoveKeeps(s: Store, u: set<Event>, ids: seq<string>)
    requires Good(s, u)
    ensures Good(Remove(s, ids), u) && WithinCap(Remove(s, ids).deletion, s.maxTombstones) && SameCaps(Remove(s, ids), s)
  {
    RemoveEachKeeps(s, u, ids);
    TrimmedKeeps(RemoveEach(s, ids));
  }

  lemma SetMarkIs(s: Store, a: Address, m: Mark, b: Address)
    ensures var s' := SetMark(s, a, m);
            && s' == s.(watermarks := s'.watermarks)
            && (b in s'.watermarks.values ==>
                  if b == a && s.maxWatermarks > 0 then s'.watermarks.values[b] == m
                  else b in s.watermarks.values && s'.watermarks.values[b] == s.watermarks.values[b])
  {
  }

  lemma SetMarkFiles(s: Store, a: Address, m: Mark)
    requires FiledMarks(s.watermarks, s.winners, s.maxWatermarks) && a !in s.winners
    requires forall b :: b in s.watermarks.values ==> s.watermarks.values[b].id != m.id
    ensures FiledMarks(SetMark(s, a, m).watermarks, s.winners, s.maxWatermarks)
  {
    if s.maxWatermarks > 0 {
      var marks := Delete(s.watermarks, a);
      DeleteWellFormed(s.watermarks, a);
      EnterWellFormed(marks, a, m);
      TrimWellFormed(Enter(marks, a, m), s.maxWatermarks);
      forall b
        ensures b in SetMark(s, a, m).watermarks.values ==>
                  if b == a then SetMark(s, a, m).watermarks.values[b] == m
                  else b in s.watermarks.values && SetMark(s, a, m).watermarks.values[b] == s.watermarks.values[b]
      {
        SetMarkIs(s, a, m, b);
      }
    }
  }

  lemma SetMarkKeeps(s: Store, u: set<Event>, a: Address, m: Mark)
    requires Good(s, u) && MarkKnown(u, a, m) && a !in s.winners
    requires forall b :: b in s.watermarks.values ==> s.watermarks.values[b].id != m.id
    ensures Good(SetMark(s, a, m), u)
  {
    SetMarkFiles(s, a, m);
    SetMarkIs(s, a, m, a);
    forall b | b in SetMark(s, a, m).watermarks.values
      ensures MarkKnown(u, b, SetMark(s, a, m).watermarks.values[b])
    {
      SetMarkIs(s, a, m, b);
    }
  }

  lemma EvictOneKeeps(s: Store, u: set<Event>, id: string)
    requires Good(s, u)
    ensures Good(EvictOne(s, id), u) && SameCaps(EvictOne(s, id), s)
  {
    var key := Lower(id);
    if key in s.events {
      var e := s.events[key];
      IndexRemoveFiles(s, key);
      IndexRemoveIs(s, key);
      assert MarkOf(e) == Mark(key, e.createdAt);
      if EventAddress(e).Some? {
        SetMarkKeeps(IndexRemove(s, key), u, EventAddress(e).value, MarkOf(e));
      }
    }
  }

  lemma {:induction false} EvictKeeps(s: Store, u: set<Event>, ids: seq<string>)
    requires Good(s, u)
    ensures Good(Evict(s, ids), u) && SameCaps(Evict(s, ids), s)
    ensures Evict(s, ids).deletion == s.deletion
  {
    if ids != [] {
      EvictKeeps(s, u, ids[..|ids| - 1]);
      EvictOneKeeps(Evict(s, ids[..|ids| - 1]), u, ids[|ids| - 1]);
      IndexRemoveIs(Evict(s, ids[..|ids| - 1]), Lower(ids[|ids| - 1]));
    }
  }

  // ---- runs ----

  datatype Op =
    | PutOp(event: Event)
    | RemoveOp(ids: seq<string>)
    | EvictOp(ids: seq<string>)
    | ClearOp

  function Perform(s: Store, op: Op): Store {
    match op
    case PutOp(e) => Put(s, e)
    case RemoveOp(ids) => Remove(s, ids)
    case EvictOp(ids) => Evict(s, ids)
    case ClearOp => NewStore(s.maxTombstones, s.maxWatermarks)
  }

  function Run(s: Store, ops: seq<Op>): Store {
    if ops == [] then s else Perform(Run(s, ops[..|ops| - 1]), ops[|ops| - 1])
  }

  /** The events that the operations put. */
  function PutBy(ops: seq<Op>): set<Event> {
    set op | op in ops && op.PutOp? :: op.event
  }

  lemma NewStoreGood(u: set<Event>, maxTombstones: Option<nat>, maxWatermarks: nat)
    ensures Good(NewStore(maxTombstones, maxWatermarks), u)
    ensures WithinCap(NewStore(maxTombstones, maxWatermarks).deletion, maxTombstones)
  {
  }

  lemma PerformKeeps(s: Store, u: set<Event>, op: Op)
    requires Good(s, u) && OneEventPerId(u) && WithinCap(s.deletion, s.maxTombstones) && (op.PutOp? ==> op.event in u)
    ensures Good(Perform(s, op), u) && WithinCap(Perform(s, op).deletion, s.maxTombstones) && SameCaps(Perform(s, op), s)
  {
    if op.PutOp? {
      PutKeeps(s, u, op.event);
    } else if op.RemoveOp? {
      RemoveKeeps(s, u, op.ids);
    } else if op.EvictOp? {
      EvictKeeps(s, u, op.ids);
    } else {
      NewStoreGood(u, s.maxTombstones, s.maxWatermarks);
    }
  }

  /**
   * In every run of operations the index stays filed, no stored event is ever covered by a tombstone,
   * and no collection grows past its cap.
   */
  lemma {:induction false} EveryRun(ops: seq<Op>, u: set<Event>, maxTombstones: Option<nat>, maxWatermarks: nat)
    requires PutBy(ops) <= u && OneEventPerId(u)
    ensures var s := Run(NewStore(maxTombstones, maxWatermarks), ops);
            && Good(s, u) && WithinCap(s.deletion, maxTombstones) && |s.watermarks.keys| <= maxWatermarks
            && s.maxTombstones == maxTombstones && s.maxWatermarks == maxWatermarks
  {
    if ops != [] {
      EveryRun(ops[..|ops| - 1], u, maxTombstones, maxWatermarks);
      assert ops[|ops| - 1].PutOp? ==> ops[|ops| - 1].event in PutBy(ops);
      PerformKeeps(Run(NewStore(maxTombstones, maxWatermarks), ops[..|ops| - 1]), u, ops[|ops| - 1]);
    }
  }
}
