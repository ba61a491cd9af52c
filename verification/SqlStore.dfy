/**
 * The SQLite event store on its tables, and that it answers like the in-memory index
 * (src/storage/sqlite.ts).
 */
module SqlStore {
  import opened Results
  import opened Events
  import opened Ordered
  import opened Deletion
  import opened Storage
  import opened StorageInvariants
  import opened StorageSteps
  import opened ConvergenceFacts
  import opened Filters
  import opened Listing
  import opened Items
  import opened SqlCompile
  import opened SqlRows
  import opened Tombs
  import Mem = MemoryIndex

  /** The primary key of the tombstones table. */
  datatype TombKey = IdKey(id: string) | PendingKey(id: string) | CoordKey(a: Address)

  datatype TombRow = NullRow | PubkeyRow(pubkey: string) | UntilRow(until: int)

  // ---- the policy on a partial lookup ----

  /** The ids and addresses the policy asks for when it decides on an event. */
  predicate AsksForId(e: Event, id: string) {
    id == e.id || (e.kind == EVENT_DELETION && id in NamedIds(e.tags))
  }

  predicate AsksForAddress(e: Event, a: Address) {
    EventAddress(e) == Some(a) || (e.kind == EVENT_DELETION && a in NamedAddresses(e.tags, e.pubkey))
  }

  /** The two lookups answer alike wherever the policy asks. */
  ghost predicate Agree(e: Event, l: Lookup, m: Lookup) {
    && (forall id :: AsksForId(e, id) ==> (id in l.byId <==> id in m.byId) && (id in l.byId ==> l.byId[id] == m.byId[id]))
    && (forall a :: AsksForAddress(e, a) ==> (a in l.current <==> a in m.current) && (a in l.current ==> l.current[a] == m.current[a]))
    && (e.id in l.deletion.ids.values <==> e.id in m.deletion.ids.values)
    && (e.id in l.deletion.ids.values || Covers(l.deletion, e) == Covers(m.deletion, e))
  }

  lemma {:induction false} RemovalsAgree(ids: seq<string>, l: map<string, Event>, m: map<string, Event>, pubkey: string)
    requires forall id :: id in ids ==> (id in l <==> id in m) && (id in l ==> l[id] == m[id])
    ensures Removals(ids, l, pubkey) == Removals(ids, m, pubkey) && Missing(ids, l) == Missing(ids, m)
  {
    if ids != [] {
      assert ids == ids[..|ids| - 1] + [ids[|ids| - 1]];
      RemovalsAgree(ids[..|ids| - 1], l, m, pubkey);
    }
  }

  lemma {:induction false} CoordinatesAgree(coordinates: seq<Address>, l: map<Address, Winner>,
                                            m: map<Address, Winner>, until: int)
    requires forall a :: a in coordinates ==> (a in l <==> a in m) && (a in l ==> l[a] == m[a])
    ensures CoordinateRemovals(coordinates, l, until) == CoordinateRemovals(coordinates, m, until)
  {
    if coordinates != [] {
      assert coordinates == coordinates[..|coordinates| - 1] + [coordinates[|coordinates| - 1]];
      CoordinatesAgree(coordinates[..|coordinates| - 1], l, m, until);
    }
  }

  /** The policy decides the same on a partial lookup as on a full one. */
  lemma PartialDecides(e: Event, l: Lookup, m: Lookup)
    requires Agree(e, l, m)
    ensures Decide(e, l) == Decide(e, m)
  {
    hide Covers, NamedIds, NamedAddresses;
    if e.kind == EVENT_DELETION {
      RemovalsAgree(NamedIds(e.tags), l.byId, m.byId, e.pubkey);
      CoordinatesAgree(NamedAddresses(e.tags, e.pubkey), l.current, m.current, e.createdAt);
    }
  }

  // ---- what the tables hold ----

  ghost predicate SameIds(rows: map<TombKey, TombRow>, t: Tombstones) {
    forall id :: IdKey(id) in rows <==> id in t.ids.values
  }

  /** Of an id with a tombstone of its own no pending row need be kept. */
  ghost predicate SamePending(rows: map<TombKey, TombRow>, t: Tombstones) {
    forall id :: id !in t.ids.values ==>
      && (PendingKey(id) in rows <==> id in t.pending.values)
      && (PendingKey(id) in rows ==> rows[PendingKey(id)] == PubkeyRow(t.pending.values[id]))
  }

  ghost predicate SameCoordinates(rows: map<TombKey, TombRow>, t: Tombstones) {
    forall a :: (CoordKey(a) in rows <==> a in t.coordinates.values) &&
                (CoordKey(a) in rows ==> rows[CoordKey(a)] == UntilRow(t.coordinates.values[a]))
  }

  ghost predicate SameTombs(rows: map<TombKey, TombRow>, t: Tombstones) {
    SameIds(rows, t) && SamePending(rows, t) && SameCoordinates(rows, t)
  }

  predicate SameRow(before: map<TombKey, TombRow>, after: map<TombKey, TombRow>, k: TombKey) {
    (k in after <==> k in before) && (k in before ==> k in after && after[k] == before[k])
  }

  /** The pending rows after those for some ids have been written. */
  ghost predicate RowsAwait(before: map<TombKey, TombRow>, after: map<TombKey, TombRow>, ids: seq<string>,
                            pubkey: string) {
    forall id ::
      if id in ids && IdKey(id) !in before then PendingKey(id) in after && after[PendingKey(id)] == PubkeyRow(pubkey)
      else SameRow(before, after, PendingKey(id))
  }

  /** The coordinate rows after those for some coordinates have been written. */
  ghost predicate RowsClosed(rows: map<TombKey, TombRow>, t: Tombstones, coordinates: seq<Address>, until: int) {
    forall a ::
      if a in coordinates then CoordKey(a) in rows && rows[CoordKey(a)] == UntilRow(Later(t, a, until))
      else (CoordKey(a) in rows <==> a in t.coordinates.values) &&
           (CoordKey(a) in rows ==> rows[CoordKey(a)] == UntilRow(t.coordinates.values[a]))
  }

  /** Every tag row belongs to a stored event. */
  ghost predicate NoOrphans(events: map<string, Event>, tags: set<TagRow>) {
    forall row :: row in tags ==> row.eventId in events
  }

  /** An event at one of the addresses asked for is the answer for its address. */
  predicate RowAnswers(byAddress: map<Address, Winner>, addresses: set<Address>, e: Event) {
    var a := EventAddress(e);
    a.Some? && a.value in addresses ==> a.value in byAddress && byAddress[a.value] == Winner(MarkOf(e), false)
  }

  class SqliteEventStore {
    var events: map<string, Event>
    var tags: set<TagRow>
    var tombstones: map<TombKey, TombRow>

    /** The tables hold what the index holds. */
    ghost predicate Simulates(s: Store)
      reads this
    {
      && events == s.events
      && Tabled(events, tags) && NoOrphans(events, tags)
      && SameTombs(tombstones, s.deletion)
    }

    constructor ()
      ensures Simulates(NEW)
    {
      events, tags, tombstones := map[], {}, map[];
    }

    // ---- looking up ----

    /** SELECT ... FROM events WHERE id IN (...). */
    method RowsByIds(ids: seq<string>) returns (byId: map<string, Event>)
      ensures forall id :: id in byId <==> id in ids && id in events
      ensures forall id :: id in byId ==> byId[id] == events[id]
    {
      byId := map id | id in ids && id in events :: events[id];
    }

    /** SELECT address, id, created_at FROM events WHERE address IN (...). */
    method RowsByAddresses(addresses: set<Address>) returns (byAddress: map<Address, Winner>)
      requires forall id :: id in events ==> events[id].id == id
      requires forall x, y :: x in events && y in events && EventAddress(events[x]) == EventAddress(events[y]) != None ==> x == y
      ensures forall a :: a in byAddress <==> a in addresses && exists id :: id in events && EventAddress(events[id]) == Some(a)
      ensures forall id :: id in events ==> RowAnswers(byAddress, addresses, events[id])
    {
      byAddress := map[];
      var left := events.Keys;
      while left != {}
        invariant left <= events.Keys
        invariant forall a :: a in byAddress <==> a in addresses && exists id :: id in events && id !in left && EventAddress(events[id]) == Some(a)
        invariant forall id :: id in events && id !in left ==> RowAnswers(byAddress, addresses, events[id])
        decreases |left|
      {
        var id :| id in left;
        left := left - {id};
        var a := EventAddress(events[id]);
        if a.Some? && a.value in addresses {
          byAddress := byAddress[a.value := Winner(MarkOf(events[id]), false)];
        }
      }
    }

    /** The ids of the lookup: the event's own, and those its e tags name. */
    method IdList(e: Event) returns (ids: seq<string>)
      ensures forall id :: AsksForId(e, id) ==> id in ids
    {
      ids := [e.id];
      if e.kind == EVENT_DELETION {
        for i := 0 to |e.tags|
          invariant e.id in ids
          invariant forall k, id :: 0 <= k < i && NamedId(e.tags[k]) == Some(id) ==> id in ids
        {
          var tag := e.tags[i];
          if |tag| > 1 && tag[0] == "e" && tag[1] != "" {
            ids := ids + [Lower(tag[1])];
          }
        }
        forall id | id in NamedIds(e.tags)
          ensures id in ids
        {
          NamedIdsAre(e.tags, id);
        }
      }
    }

    /** The addresses of the lookup: the event's own, and all that its a tags name. */
    method AddressList(e: Event) returns (addresses: set<Address>)
      ensures forall a :: AsksForAddress(e, a) ==> a in addresses
    {
      addresses := {};
      var own := EventAddress(e);
      if own.Some? {
        addresses := {own.value};
      }
      if e.kind == EVENT_DELETION {
        for i := 0 to |e.tags|
          invariant forall a :: own == Some(a) ==> a in addresses
          invariant forall k, a :: 0 <= k < i && NamedAddress(e.tags[k], e.pubkey) == Some(a) ==> a in addresses
        {
          var tag := e.tags[i];
          if |tag| > 1 && tag[0] == "a" && tag[1] != "" {
            var coord := ParseAddress(tag[1]);
            if coord.Some? {
              addresses := addresses + {coord.value};
            }
          }
        }
        forall a | a in NamedAddresses(e.tags, e.pubkey)
          ensures a in addresses
        {
          NamedAddressesAre(e.tags, e.pubkey, a);
        }
      }
    }

    /** The tombstones of the event's own id, and of its own address. */
    method OwnTombstones(e: Event, ghost s: Store) returns (t: Tombstones)
      requires SameTombs(tombstones, s.deletion)
      ensures e.id in t.ids.values <==> e.id in s.deletion.ids.values
      ensures e.id in t.ids.values || Covers(t, e) == Covers(s.deletion, e)
    {
      t := NO_TOMBSTONES;
      if IdKey(e.id) in tombstones {
        t := t.(ids := Add(t.ids, e.id));
      }
      if PendingKey(e.id) in tombstones && tombstones[PendingKey(e.id)].PubkeyRow? {
        t := t.(pending := Enter(t.pending, e.id, tombstones[PendingKey(e.id)].pubkey));
      }
      var own := EventAddress(e);
      if own.Some? && CoordKey(own.value) in tombstones && tombstones[CoordKey(own.value)].UntilRow? {
        t := t.(coordinates := Enter(t.coordinates, own.value, tombstones[CoordKey(own.value)].until));
      }
    }

    method BuildLookup(e: Event, ghost s: Store, ghost u: set<Event>) returns (l: Lookup)
      requires Simulates(s) && Plain(s) && Good(s, u)
      ensures Agree(e, l, LookupOf(s))
    {
      hide AsksForId, AsksForAddress, Covers, SameTombs;
      var ids := IdList(e);
      var byId := RowsByIds(ids);
      var addresses := AddressList(e);
      OneRowPerAddress(s);
      var byAddress := RowsByAddresses(addresses);
      var t := OwnTombstones(e, s);
      l := Lookup(t, byId, byAddress);
      forall a | AsksForAddress(e, a)
        ensures a in l.current <==> a in LookupOf(s).current
        ensures a in l.current ==> l.current[a] == LookupOf(s).current[a]
      {
        LiveRow(s, a);
      }
    }

    // ---- writing rows ----

    /** INSERT INTO events: neither the id nor the address may be taken. Then the tag rows. */
    method InsertRow(e: Event)
      requires Tabled(events, tags) && NoOrphans(events, tags)
      requires e.id !in events
      requires forall id :: id in events && EventAddress(events[id]).Some? ==> EventAddress(events[id]) != EventAddress(e)
      modifies `events, `tags
      ensures Tabled(events, tags) && NoOrphans(events, tags) && events == old(events)[e.id := e]
    {
      RowsInserted(events, tags, e);
      events := events[e.id := e];
      for i := 0 to |e.tags|
        invariant events == old(events)[e.id := e] && tags == old(tags) + TagRowsOf(e, e.tags[..i])
      {
        var tag := e.tags[i];
        TagRowsNext(e, i);
        if |tag| > 1 && |tag[0]| == 1 {
          tags := tags + {TagRow(e.id, tag[0], TagKey(tag[0], tag[1]))};
        }
      }
      assert e.tags[..|e.tags|] == e.tags;
      assert tags == old(tags) + TagRows(e);
    }

    /** DELETE of the tag rows and the row of an event; the number of rows that went. */
    method DeleteRow(id: string) returns (changes: nat)
      requires Tabled(events, tags) && NoOrphans(events, tags)
      modifies `events, `tags
      ensures Tabled(events, tags) && NoOrphans(events, tags) && events == old(events) - {id}
      ensures changes == if id in old(events) then 1 else 0
    {
      tags := set row | row in tags && row.eventId != id;
      changes := if id in events then 1 else 0;
      events := events - {id};
    }

    method DeleteRows(ids: seq<string>)
      requires Tabled(events, tags) && NoOrphans(events, tags)
      modifies `events, `tags
      ensures Tabled(events, tags) && NoOrphans(events, tags) && events == old(events) - Elements(ids)
    {
      hide Tabled, NoOrphans;
      assert Elements(ids[..0]) == {} && events - {} == events;
      for i := 0 to |ids|
        invariant Tabled(events, tags) && NoOrphans(events, tags) && events == old(events) - Elements(ids[..i])
      {
        assert Elements(ids[..i + 1]) == Elements(ids[..i]) + {ids[i]} by {
          assert ids[..i + 1] == ids[..i] + [ids[i]];
        }
        var _ := DeleteRow(ids[i]);
      }
      assert ids[..|ids|] == ids;
    }

    method PutTombstone(id: string)
      modifies `tombstones
      ensures tombstones == old(tombstones)[IdKey(id) := NullRow]
    {
      tombstones := tombstones[IdKey(id) := NullRow];
    }

    method DeletePendingRow(id: string)
      modifies `tombstones
      ensures tombstones == old(tombstones) - {PendingKey(id)}
    {
      tombstones := tombstones - {PendingKey(id)};
    }

    /** Tombstones for the removed ids, whose pending rows go. */
    method BuryRows(ids: seq<string>)
      modifies `tombstones
      ensures forall id :: IdKey(id) in tombstones <==> IdKey(id) in old(tombstones) || id in ids
      ensures forall id :: PendingKey(id) in tombstones <==> PendingKey(id) in old(tombstones) && id !in ids
      ensures forall a :: CoordKey(a) in tombstones <==> CoordKey(a) in old(tombstones)
      ensures forall k: TombKey :: k in tombstones && !k.IdKey? ==> tombstones[k] == old(tombstones)[k]
    {
      for i := 0 to |ids|
        invariant forall id :: IdKey(id) in tombstones <==> IdKey(id) in old(tombstones) || id in ids[..i]
        invariant forall id :: PendingKey(id) in tombstones <==> PendingKey(id) in old(tombstones) && id !in ids[..i]
        invariant forall a :: CoordKey(a) in tombstones <==> CoordKey(a) in old(tombstones)
        invariant forall k: TombKey :: k in tombstones && !k.IdKey? ==> k in old(tombstones) && tombstones[k] == old(tombstones)[k]
      {
        assert forall id :: id in ids[..i + 1] <==> id in ids[..i] || id == ids[i];
        PutTombstone(ids[i]);
        DeletePendingRow(ids[i]);
      }
      assert ids[..|ids|] == ids;
    }

    /** Pending rows for the ids that have no tombstone. */
    method AwaitRows(ids: seq<string>, pubkey: string)
      modifies `tombstones
      ensures RowsAwait(old(tombstones), tombstones, ids, pubkey)
      ensures forall k: TombKey :: !k.PendingKey? ==> SameRow(old(tombstones), tombstones, k)
    {
      for i := 0 to |ids|
        invariant RowsAwait(old(tombstones), tombstones, ids[..i], pubkey)
        invariant forall k: TombKey :: !k.PendingKey? ==> SameRow(old(tombstones), tombstones, k)
      {
        assert forall id :: id in ids[..i + 1] <==> id in ids[..i] || id == ids[i];
        assert SameRow(old(tombstones), tombstones, IdKey(ids[i]));
        if IdKey(ids[i]) !in tombstones {
          tombstones := tombstones[PendingKey(ids[i]) := PubkeyRow(pubkey)];
        }
      }
      assert ids[..|ids|] == ids;
    }

    /** The latest time of each coordinate is kept. */
    method CloseRows(coordinates: seq<Address>, until: int, ghost t: Tombstones)
      requires RowsClosed(tombstones, t, [], until)
      modifies `tombstones
      ensures RowsClosed(tombstones, t, coordinates, until)
      ensures forall k: TombKey :: !k.CoordKey? ==> SameRow(old(tombstones), tombstones, k)
    {
      for i := 0 to |coordinates|
        invariant RowsClosed(tombstones, t, coordinates[..i], until)
        invariant forall k: TombKey :: !k.CoordKey? ==> SameRow(old(tombstones), tombstones, k)
      {
        assert forall a :: a in coordinates[..i + 1] <==> a in coordinates[..i] || a == coordinates[i];
        var key := CoordKey(coordinates[i]);
        if key !in tombstones || tombstones[key].until <= until {
          tombstones := tombstones[key := UntilRow(until)];
        }
      }
      assert coordinates[..|coordinates|] == coordinates;
    }

    // ---- operations ----

    /** persistPlan: the tombstones of a deletion. */
    method PersistPlan(deletionId: string, plan: DeletionPlan, coordIds: seq<string>, ghost s: Tombstones)
      requires SameTombs(tombstones, s) && FiledTombstones(s)
      modifies `tombstones
      ensures SameTombs(tombstones, AddAll(Absorb(s.(pending := Delete(s.pending, deletionId)), plan), coordIds))
    {
      ghost var t := s.(pending := Delete(s.pending, deletionId));
      DeletePendingRow(deletionId);
      BuryRows(plan.removeIds + coordIds);
      ghost var buried := tombstones;
      AwaitRows(plan.pendingIds, plan.pubkey);
      ghost var awaited := tombstones;
      forall a
        ensures SameRow(old(tombstones), awaited, CoordKey(a))
      {
        assert SameRow(old(tombstones), buried, CoordKey(a));
        assert SameRow(buried, awaited, CoordKey(a));
      }
      NoneClosed(old(tombstones), tombstones, s, plan.until);
      CloseRows(plan.coordinates, plan.until, s);
      PersistedIs(buried, awaited, tombstones, s, deletionId, plan, coordIds);
    }

    method ApplyErase(d: Event, plan: DeletionPlan, coordIds: seq<string>, ghost s: Store, ghost u: set<Event>)
      requires Simulates(s) && Plain(s) && Good(s, u) && OneEventPerId(u) && d in u && Fresh(s, d) && d.kind == EVENT_DELETION
      requires plan == Plan(d, s.events) && coordIds == CoordinateIds(d, LookupOf(s))
      modifies this
      ensures Simulates(Erasing(s, d))
    {
      hide Tabled, NoOrphans, SameTombs, Erasing, OneEventPerId, NoneCovered, Known, FiledEvents, FiledMarks, CoordinateIds, Deletion.Plan;
      ErasingParts(s, u, d);
      PersistPlan(d.id, plan, coordIds, s.deletion);
      DeleteRows(plan.removeIds + coordIds);
      assert events == s.events - Elements(plan.removeIds) - Elements(coordIds) by {
        assert Elements(plan.removeIds + coordIds) == Elements(plan.removeIds) + Elements(coordIds);
      }
      InsertRow(d);
    }

    method ApplyInsert(e: Event, replaceId: Option<string>, ghost s: Store)
      requires Simulates(s) && Plain(s) && Filed(s) && DecisionFor(s, e) == Insert(replaceId)
      modifies `events, `tags
      ensures Simulates(Storage.Put(s, e))
    {
      hide Tabled, NoOrphans, SameTombs, Storage.Put, Decide;
      PutInserts(s, e);
      InsertingReplaces(s, e);
      TakesOver(s, e);
      if replaceId.Some? {
        var _ := DeleteRow(replaceId.value);
      }
      InsertRow(e);
    }

    /** put: decides on a partial lookup, and writes what was decided. No constraint of the tables is ever violated. */
    method Put(e: Event, ghost s: Store, ghost u: set<Event>) returns (r: PutResult)
      requires Simulates(s) && Plain(s) && Good(s, u) && OneEventPerId(u) && e in u
      modifies this
      ensures Simulates(Storage.Put(s, e)) && Plain(Storage.Put(s, e)) && Good(Storage.Put(s, e), u)
      ensures r == ResultOf(Decide(e, LookupOf(s)))
    {
      hide Decide, Storage.Put, Tabled, NoOrphans, Filed, NoneCovered, Known, OneEventPerId;
      PutPlain(s, u, e);
      var l := BuildLookup(e, s, u);
      PartialDecides(e, l, LookupOf(s));
      var d := DecidePut(e, l);
      r := ResultOf(d);
      match d {
        case Leave(_) =>
          PutLeaves(s, e);
        case Entomb =>
          PutLeaves(s, e);
          PutTombstone(e.id);
          DeletePendingRow(e.id);
          EntombedTombs(s.deletion, e.id, old(tombstones), tombstones);
        case Erase(plan, coordIds) =>
          ErasesFresh(s, e);
          ErasesPlain(s, u, e);
          ApplyErase(e, plan, coordIds, s, u);
        case Insert(replaceId) =>
          InsertsFiled(s, u);
          ApplyInsert(e, replaceId, s);
      }
    }

    /** remove: deletes by id, leaves tombstones, and counts the rows that went. */
    method Remove(ids: seq<string>, ghost s: Store) returns (removed: nat)
      requires Simulates(s) && Plain(s) && Filed(s)
      modifies this
      ensures Simulates(Storage.Remove(s, ids))
      ensures removed == |Mem.Found(ids, old(events))|
    {
      hide Tabled, NoOrphans, SameTombs, Mem.Found, Storage.RemoveOne, Filed, Lower;
      removed := 0;
      ghost var t := s;
      Mem.NothingFound(events);
      for i := 0 to |ids|
        invariant t == RemoveEach(s, ids[..i]) && Filed(t) && Simulates(t)
        invariant removed == |Mem.Found(ids[..i], old(events))| && events == old(events) - Mem.Found(ids[..i], old(events))
      {
        assert ids[..i + 1][..i] == ids[..i];
        Mem.FoundNext(ids, i, old(events));
        var id := Lower(ids[i]);
        ghost var before := tombstones;
        RemovedOne(t, ids[i]);
        var changes := DeleteRow(id);
        removed := removed + changes;
        PutTombstone(id);
        DeletePendingRow(id);
        EntombedTombs(t.deletion, id, before, tombstones);
        t := Storage.RemoveOne(t, ids[i]);
      }
      assert ids[..|ids|] == ids;
      RemovedCaps(s, ids);
      TrimsNothing(RemoveEach(s, ids));
    }

    method Clear()
      modifies this
      ensures Simulates(NEW)
    {
      events, tags, tombstones := map[], {}, map[];
    }

    method Get(id: string) returns (r: Option<Event>)
      ensures r == if Lower(id) in events then Some(events[Lower(id)]) else None
    {
      r := if Lower(id) in events then Some(events[Lower(id)]) else None;
    }

    /** query: the rows of each filter, merged and sorted. */
    method Query(filters: seq<Filter>) returns (r: seq<Event>)
      requires Tabled(events, tags)
      ensures OneEventPerId(Stored(events)) && r == Listing.Query(Stored(events), filters)
    {
      hide SortEvents, Answer, Tabled;
      assert Keyed(events) by {
        TabledKeyed(events, tags);
      }
      KeyedOnce(events);
      ghost var stored := Stored(events);
      var seen: set<string> := {};
      var merged: seq<Event> := [];
      for i := 0 to |filters|
        invariant Members(merged) == Answered(stored, filters[..i]) <= stored && seen == set x | x in merged :: x.id
        invariant forall j, k :: 0 <= j < k < |merged| ==> merged[j].id != merged[k].id
      {
        assert filters[..i + 1][..i] == filters[..i];
        var rows := FilterRows(events, tags, filters[i]);
        AnswerIsStored(stored, filters[i]);
        seen, merged := AddUnseen(rows, seen, merged, stored);
      }
      assert filters[..|filters|] == filters;
      SortLists(merged);
      AnsweredAre(stored, filters);
      ListIs(SortEvents(merged), set e | e in stored && Answers(stored, filters, e));
      r := SortEvents(merged);
    }

    /** negentropyItems: the ids and times of the rows of one filter, oldest first. */
    method NegentropyItems(f: Filter) returns (items: seq<Item>)
      requires Tabled(events, tags)
      ensures OneEventPerId(Stored(events)) && items == Offered(Stored(events), f)
    {
      hide OldestFirst, Answer, Tabled;
      var rows := FilterRows(events, tags, f);
      items := ItemsOf(OldestFirst(rows));
    }

    method Count(filters: seq<Filter>) returns (n: nat)
      requires Tabled(events, tags)
      ensures OneEventPerId(Stored(events)) && n == |Listing.Query(Stored(events), filters)|
    {
      hide SortEvents, Answer, Tabled;
      assert Keyed(events) by {
        TabledKeyed(events, tags);
      }
      KeyedOnce(events);
      ghost var stored := Stored(events);
      var seen: set<string> := {};
      for i := 0 to |filters|
        invariant Answered(stored, filters[..i]) <= stored && seen == set x | x in Answered(stored, filters[..i]) :: x.id
      {
        assert filters[..i + 1][..i] == filters[..i];
        var rows := FilterRows(events, tags, filters[i]);
        AnswerIsStored(stored, filters[i]);
        seen := AddIds(rows, seen);
      }
      assert filters[..|filters|] == filters;
      AnsweredAre(stored, filters);
      ListCount(Answered(stored, filters));
      n := |seen|;
    }
  }

  lemma TabledKeyed(events: map<string, Event>, tags: set<TagRow>)
    requires Tabled(events, tags)
    ensures Keyed(events)
  {
  }

  /** The tag rows for some tags of an event. */
  function TagRowsOf(e: Event, some: seq<Tag>): set<TagRow> {
    set tag | tag in some && |tag| > 1 && |tag[0]| == 1 :: TagRow(e.id, tag[0], TagKey(tag[0], tag[1]))
  }

  lemma TagRowsNext(e: Event, i: nat)
    requires i < |e.tags|
    ensures var tag := e.tags[i];
            TagRowsOf(e, e.tags[..i + 1]) ==
            TagRowsOf(e, e.tags[..i]) + if |tag| > 1 && |tag[0]| == 1 then {TagRow(e.id, tag[0], TagKey(tag[0], tag[1]))} else {}
  {
    assert e.tags[..i + 1] == e.tags[..i] + [e.tags[i]];
  }

  lemma RowsInserted(events: map<string, Event>, tags: set<TagRow>, e: Event)
    requires Tabled(events, tags) && NoOrphans(events, tags) && e.id !in events
    ensures Tabled(events[e.id := e], tags + TagRows(e)) && NoOrphans(events[e.id := e], tags + TagRows(e))
    ensures TagRows(e) == TagRowsOf(e, e.tags)
  {
  }

  lemma EntombedTombs(t: Tombstones, id: string, before: map<TombKey, TombRow>, after: map<TombKey, TombRow>)
    requires SameTombs(before, t) && after == before[IdKey(id) := NullRow] - {PendingKey(id)}
    ensures SameTombs(after, Bury(t, id))
  {
  }

  lemma NoneClosed(before: map<TombKey, TombRow>, rows: map<TombKey, TombRow>, t: Tombstones, until: int)
    requires SameCoordinates(before, t) && forall a :: SameRow(before, rows, CoordKey(a))
    ensures RowsClosed(rows, t, [], until)
  {
    forall a
      ensures CoordKey(a) in rows <==> a in t.coordinates.values
      ensures CoordKey(a) in rows ==> rows[CoordKey(a)] == UntilRow(t.coordinates.values[a])
    {
      assert SameRow(before, rows, CoordKey(a));
    }
  }

  /** Loop by loop, the rows follow the tombstones of a plan. */
  lemma PersistedIs(buried: map<TombKey, TombRow>, awaited: map<TombKey, TombRow>, after: map<TombKey, TombRow>,
                    s: Tombstones, deletionId: string, plan: DeletionPlan, coordIds: seq<string>)
    requires FiledTombstones(s)
    requires forall id :: IdKey(id) in buried <==> id in s.ids.values || id in plan.removeIds + coordIds
    requires forall id :: id !in s.ids.values && id !in plan.removeIds + coordIds ==>
               && (PendingKey(id) in buried <==> id in s.pending.values && id != deletionId)
               && (PendingKey(id) in buried ==> buried[PendingKey(id)] == PubkeyRow(s.pending.values[id]))
    requires RowsAwait(buried, awaited, plan.pendingIds, plan.pubkey)
    requires forall k: TombKey :: !k.PendingKey? ==> SameRow(buried, awaited, k)
    requires RowsClosed(after, s, plan.coordinates, plan.until)
    requires forall k: TombKey :: !k.CoordKey? ==> SameRow(awaited, after, k)
    ensures var r := AddAll(Absorb(s.(pending := Delete(s.pending, deletionId)), plan), coordIds);
            SameIds(after, r) && SamePending(after, r) && SameCoordinates(after, r)
  {
    hide AddAll, Absorb;
    var t := s.(pending := Delete(s.pending, deletionId));
    DeleteWellFormed(s.pending, deletionId);
    AbsorbFiled(t, plan);
    AddAllIs(Absorb(t, plan), coordIds);
    forall id
      ensures id in AddAll(Absorb(t, plan), coordIds).ids.values <==> id in s.ids.values || id in plan.removeIds + coordIds
      ensures IdKey(id) in after <==> IdKey(id) in buried
    {
      AbsorbAt(t, plan, id);
      assert SameRow(buried, awaited, IdKey(id)) && SameRow(awaited, after, IdKey(id));
      assert id in Elements(coordIds) <==> id in coordIds;
    }
    forall id | id !in s.ids.values && id !in plan.removeIds + coordIds
      ensures PendingKey(id) in after <==> id in Absorb(t, plan).pending.values
      ensures PendingKey(id) in after ==> after[PendingKey(id)] == PubkeyRow(Absorb(t, plan).pending.values[id])
    {
      AbsorbAt(t, plan, id);
      assert SameRow(awaited, after, PendingKey(id));
    }
    forall a
      ensures CoordKey(a) in after <==> a in Absorb(t, plan).coordinates.values
      ensures CoordKey(a) in after ==> after[CoordKey(a)] == UntilRow(Absorb(t, plan).coordinates.values[a])
    {
      AbsorbCoordinates(t, plan, a);
    }
  }

  lemma AbsorbCoordinates(t: Tombstones, plan: DeletionPlan, a: Address)
    ensures var c' := Absorb(t, plan).coordinates.values;
            && (a in c' <==> a in t.coordinates.values || a in plan.coordinates)
            && (a in c' ==> c'[a] == if a in plan.coordinates then Later(t, a, plan.until) else t.coordinates.values[a])
  {
    var t1 := BuryAll(t, plan.removeIds);
    BuryAllAt(t, plan.removeIds, "");
    AwaitAllAt(t1, plan.pendingIds, plan.pubkey, "");
    CloseAllAt(AwaitAll(t1, plan.pendingIds, plan.pubkey), plan.coordinates, plan.until, a);
  }

  lemma ErasesFresh(s: Store, e: Event)
    requires DecisionFor(s, e).Erase?
    ensures Fresh(s, e) && e.kind == EVENT_DELETION
    ensures DecisionFor(s, e) == Erase(Plan(e, s.events), CoordinateIds(e, LookupOf(s)))
  {
  }

  lemma InsertsFiled(s: Store, u: set<Event>)
    requires Good(s, u)
    ensures Filed(s)
  {
  }

  /** Once the old holder is gone, neither the id nor the address of an accepted event is taken. */
  lemma TakesOver(s: Store, e: Event)
    requires Filed(s) && Plain(s) && DecisionFor(s, e).Insert?
    ensures var r := DecisionFor(s, e).replaceId;
            var left := if r.None? then s.events else s.events - {r.value};
            && e.id !in left
            && forall id :: id in left && EventAddress(left[id]).Some? ==> EventAddress(left[id]) != EventAddress(e)
  {
    InsertingReplaces(s, e);
  }

  lemma RemovedOne(s: Store, id: string)
    requires Filed(s)
    ensures var s' := Storage.RemoveOne(s, id);
            Filed(s') && s'.events == s.events - {Lower(id)} && s'.deletion == Bury(s.deletion, Lower(id))
  {
    IndexRemoveIs(s, Lower(id));
    IndexRemoveFiles(s, Lower(id));
    BuryFiled(s.deletion, Lower(id));
  }

  lemma {:induction false} RemovedCaps(s: Store, ids: seq<string>)
    ensures RemoveEach(s, ids).maxTombstones == s.maxTombstones
  {
    if ids != [] {
      RemovedCaps(s, ids[..|ids| - 1]);
    }
  }

  lemma OneRowPerAddress(s: Store)
    requires Filed(s)
    ensures forall x, y :: x in s.events && y in s.events && EventAddress(s.events[x]) == EventAddress(s.events[y]) != None ==> x == y
  {
  }

  /** Without watermarks the winner of an address is the row with that address. */
  lemma LiveRow(s: Store, a: Address)
    requires Filed(s) && Plain(s)
    ensures a in LookupOf(s).current <==> exists id :: id in s.events && EventAddress(s.events[id]) == Some(a)
    ensures forall id :: id in s.events && EventAddress(s.events[id]) == Some(a) ==>
              a in LookupOf(s).current && LookupOf(s).current[a] == Winner(MarkOf(s.events[id]), false)
  {
    if a in LookupOf(s).current {
      assert EventAddress(s.events[s.winners[a]]) == Some(a);
    }
  }
}
