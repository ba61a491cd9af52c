/** The in-memory event index with all its maps (src/storage/memory-index.ts). */
module MemoryIndex {
  import opened Results
  import opened Events
  import opened Ordered
  import opened Deletion
  import opened Storage
  import opened StorageInvariants
  import opened StorageSteps
  import opened Filters
  import opened Listing
  import opened Items
  import opened Tombs
  import I = Indexes

  /** Watermarks and their reverse map name each other. */
  ghost predicate Inverse(marks: OrderedMap<Address, Mark>, ids: map<string, Address>) {
    && (forall a :: a in marks.values ==> marks.values[a].id in ids && ids[marks.values[a].id] == a)
    && (forall id :: id in ids ==> ids[id] in marks.values && marks.values[ids[id]].id == id)
  }

  lemma NoMarkToDrop(s: Store, a: Address)
    requires Filed(s) && a !in s.watermarks.values
    ensures DropMark(s, a) == s
  {
    hide FiledEvents, FiledTombstones;
    DeleteWellFormed(s.watermarks, a);
  }

  lemma InverseLess(s: Store, ids: map<string, Address>, a: Address)
    requires Filed(s) && Inverse(s.watermarks, ids) && a in s.watermarks.values
    ensures Inverse(Delete(s.watermarks, a), ids - {s.watermarks.values[a].id})
  {
    hide FiledEvents, FiledTombstones, Without;
  }

  /** The reverse map leads to the mark that carries an id. */
  lemma MarkedAt(s: Store, ids: map<string, Address>, id: string)
    requires Filed(s) && Inverse(s.watermarks, ids)
    ensures id in ids ==> ids[id] in s.watermarks.values && s.watermarks.values[ids[id]].id == id
    ensures DropMarkOf(s, id) == if id in ids then DropMark(s, ids[id]) else s
  {
    hide FiledEvents, FiledTombstones, Delete;
    assert forall a :: a in s.watermarks.values ==> a in Elements(s.watermarks.keys);
  }

  /** The ids lead to the marks that are not gone, and to no other. */
  ghost predicate Unmarked(marks: map<Address, Mark>, ids: map<string, Address>, gone: seq<Address>) {
    && (forall a, b :: a in marks && b in marks && marks[a].id == marks[b].id ==> a == b)
    && (forall a :: a in marks && a !in gone ==> marks[a].id in ids && ids[marks[a].id] == a)
    && (forall id :: id in ids ==> ids[id] in marks && ids[id] !in gone && marks[ids[id]].id == id)
  }

  lemma NoneUnmarked(m: OrderedMap<Address, Mark>, ids: map<string, Address>)
    requires Inverse(m, ids)
    ensures Unmarked(m.values, ids, [])
  {
  }

  lemma UnmarkedNext(marks: map<Address, Mark>, ids: map<string, Address>, gone: seq<Address>, a: Address)
    requires a in marks && Unmarked(marks, ids, gone)
    ensures Unmarked(marks, ids - {marks[a].id}, gone + [a])
  {
  }

  lemma GoneMarks(m: OrderedMap<Address, Mark>, max: nat, gone: seq<Address>)
    requires WellFormed(m) && gone == m.keys[..Excess(m, max)]
    ensures forall a :: a in gone ==> a in m.values
  {
    DistinctSplit(m.keys, Excess(m, max));
    assert forall a :: a in gone ==> a in Elements(gone);
  }

  lemma AllUnmarked(m: OrderedMap<Address, Mark>, max: nat, ids: map<string, Address>, gone: seq<Address>)
    requires WellFormed(m) && gone == m.keys[..Excess(m, max)] && Unmarked(m.values, ids, gone)
    ensures Inverse(Trim(m, max), ids)
  {
    hide Excess, Distinct;
    assert forall a :: a in gone <==> a in Elements(gone);
  }

  class MemoryIndex {
    var byId: map<string, Event>
    var byPubkey: I.SetMap
    var byKind: I.SetMap
    var byKindPubkey: I.SetMap
    var byEpTag: I.SetMap
    var winners: map<Address, string>
    var watermarks: OrderedMap<Address, Mark>
    var watermarkIds: map<string, Address>
    const deletion: DeletionState
    const maxTombstones: Option<nat>
    const maxWatermarks: nat

    constructor (maxTombstones: Option<nat>, maxWatermarks: nat)
      ensures Valid() && fresh(deletion) && Contents() == NewStore(maxTombstones, maxWatermarks)
    {
      byId, winners, watermarks, watermarkIds := map[], map[], Empty(), map[];
      byPubkey, byKind, byKindPubkey, byEpTag := map[], map[], map[], map[];
      this.maxTombstones, this.maxWatermarks := maxTombstones, maxWatermarks;
      deletion := new DeletionState();
    }

    /** The state as a value: the secondary maps are left out, being determined by it. */
    function Contents(): Store
      reads this, deletion
    {
      Store(byId, winners, deletion.State(), watermarks, maxTombstones, maxWatermarks)
    }

    ghost predicate Mirrored()
      reads this
    {
      && I.Mirrors(byPubkey, byId, I.Pubkeys)
      && I.Mirrors(byKind, byId, I.Kinds)
      && I.Mirrors(byKindPubkey, byId, I.KindPubkeys)
      && I.Mirrors(byEpTag, byId, I.EpTags)
    }

    ghost predicate Valid()
      reads this, deletion
    {
      Filed(Contents()) && Mirrored() && Inverse(watermarks, watermarkIds)
    }

    // ---- watermarks ----

    method DropWatermark(a: Address)
      requires Valid()
      modifies `watermarks, `watermarkIds
      ensures Valid() && Contents() == DropMark(old(Contents()), a)
    {
      hide Filed, I.Mirrors, Inverse, Delete;
      DropMarkFiled(Contents(), a);
      if a !in watermarks.values {
        NoMarkToDrop(Contents(), a);
      } else {
        InverseLess(Contents(), watermarkIds, a);
        watermarkIds := watermarkIds - {watermarks.values[a].id};
        watermarks := Delete(watermarks, a);
      }
    }

    method DropWatermarkId(id: string)
      requires Valid()
      modifies `watermarks, `watermarkIds
      ensures Valid() && Contents() == DropMarkOf(old(Contents()), id)
    {
      hide Filed, I.Mirrors, Inverse, Delete, DropMarkOf;
      DropMarkOfIs(Contents(), id);
      MarkedAt(Contents(), watermarkIds, id);
      if id in watermarkIds {
        var a := watermarkIds[id];
        InverseLess(Contents(), watermarkIds, a);
        watermarkIds := watermarkIds - {id};
        watermarks := Delete(watermarks, a);
      }
    }

    // ---- the index ----

    /** Files an id under the e and p tags. */
    method FileTags(tags: seq<Tag>, id: string)
      modifies `byEpTag
      ensures byEpTag == I.AddAll(old(byEpTag), I.EpKeys(tags), id)
    {
      hide I.AddAll, I.AddToSetMap, I.RemoveAll, I.RemoveFromSetMap, Lower;
      NoKey(byEpTag, id);
      for i := 0 to |tags|
        invariant byEpTag == I.AddAll(old(byEpTag), I.EpKeys(tags[..i]), id)
      {
        var tag := tags[i];
        assert tags[..i + 1][..i] == tags[..i] && I.EpKeys(tags[..i]) + [] == I.EpKeys(tags[..i]);
        if |tag| > 1 && (tag[0] == "e" || tag[0] == "p") {
          NextKey(old(byEpTag), I.EpKeys(tags[..i]), I.TagKeyOf(tag[0], Lower(tag[1])), id);
          byEpTag := I.AddToSetMap(byEpTag, I.TagKeyOf(tag[0], Lower(tag[1])), id);
        }
      }
      assert tags[..|tags|] == tags;
    }

    method UnfileTags(tags: seq<Tag>, id: string)
      modifies `byEpTag
      ensures byEpTag == I.RemoveAll(old(byEpTag), I.EpKeys(tags), id)
    {
      hide I.AddAll, I.AddToSetMap, I.RemoveAll, I.RemoveFromSetMap, Lower;
      NoKey(byEpTag, id);
      for i := 0 to |tags|
        invariant byEpTag == I.RemoveAll(old(byEpTag), I.EpKeys(tags[..i]), id)
      {
        var tag := tags[i];
        assert tags[..i + 1][..i] == tags[..i] && I.EpKeys(tags[..i]) + [] == I.EpKeys(tags[..i]);
        if |tag| > 1 && (tag[0] == "e" || tag[0] == "p") {
          NextKey(old(byEpTag), I.EpKeys(tags[..i]), I.TagKeyOf(tag[0], Lower(tag[1])), id);
          byEpTag := I.RemoveFromSetMap(byEpTag, I.TagKeyOf(tag[0], Lower(tag[1])), id);
        }
      }
      assert tags[..|tags|] == tags;
    }

    /** Files an event under its keys. */
    method FileUnder(e: Event)
      requires Mirrored() && e.id !in byId
      modifies `byId, `byPubkey, `byKind, `byKindPubkey, `byEpTag
      ensures Mirrored() && byId == old(byId)[e.id := e]
    {
      hide I.Mirrors, I.AddAll, I.AddToSetMap;
      I.InsertMirrors(byPubkey, byId, I.Pubkeys, e);
      I.InsertMirrors(byKind, byId, I.Kinds, e);
      I.InsertMirrors(byKindPubkey, byId, I.KindPubkeys, e);
      I.InsertMirrors(byEpTag, byId, I.EpTags, e);
      OneKey(byPubkey, I.PubkeyKey(e.pubkey), e.id);
      OneKey(byKind, I.KindKey(e.kind), e.id);
      OneKey(byKindPubkey, I.KindPubkeyKey(e.kind, e.pubkey), e.id);
      byId := byId[e.id := e];
      byPubkey := I.AddToSetMap(byPubkey, I.PubkeyKey(e.pubkey), e.id);
      byKind := I.AddToSetMap(byKind, I.KindKey(e.kind), e.id);
      byKindPubkey := I.AddToSetMap(byKindPubkey, I.KindPubkeyKey(e.kind, e.pubkey), e.id);
      FileTags(e.tags, e.id);
    }

    /** Takes a stored event out of the maps it is filed in. */
    method Unfile(id: string)
      requires Mirrored() && id in byId
      modifies `byId, `byPubkey, `byKind, `byKindPubkey, `byEpTag
      ensures Mirrored() && byId == old(byId) - {id}
    {
      hide I.Mirrors, I.RemoveAll, I.RemoveFromSetMap;
      var e := byId[id];
      I.RemoveMirrors(byPubkey, byId, I.Pubkeys, id);
      I.RemoveMirrors(byKind, byId, I.Kinds, id);
      I.RemoveMirrors(byKindPubkey, byId, I.KindPubkeys, id);
      I.RemoveMirrors(byEpTag, byId, I.EpTags, id);
      OneKey(byPubkey, I.PubkeyKey(e.pubkey), id);
      OneKey(byKind, I.KindKey(e.kind), id);
      OneKey(byKindPubkey, I.KindPubkeyKey(e.kind, e.pubkey), id);
      byId := byId - {id};
      byPubkey := I.RemoveFromSetMap(byPubkey, I.PubkeyKey(e.pubkey), id);
      byKind := I.RemoveFromSetMap(byKind, I.KindKey(e.kind), id);
      byKindPubkey := I.RemoveFromSetMap(byKindPubkey, I.KindPubkeyKey(e.kind, e.pubkey), id);
      UnfileTags(e.tags, id);
    }

    method InsertEvent(e: Event)
      requires Valid() && Canonical(e) && !IsEphemeralKind(e.kind) && e.id !in byId
      requires EventAddress(e).Some? ==> EventAddress(e).value !in winners
      modifies this
      ensures Valid() && Contents() == IndexInsert(old(Contents()), e)
    {
      hide I.Mirrors, FiledEvents;
      IndexInsertIs(Contents(), e);
      FileUnder(e);
      var a := EventAddress(e);
      if a.Some? {
        winners := winners[a.value := e.id];
        DropMarkQuietly(a.value);
      }
    }

    /** dropWatermark in the middle of an insertion, when the address has just been taken. */
    method DropMarkQuietly(a: Address)
      requires Inverse(watermarks, watermarkIds) && WellFormed(watermarks)
      modifies `watermarks, `watermarkIds
      ensures Inverse(watermarks, watermarkIds) && watermarks == Delete(old(watermarks), a)
    {
      DeleteWellFormed(watermarks, a);
      if a in watermarks.values {
        watermarkIds := watermarkIds - {watermarks.values[a].id};
        watermarks := Delete(watermarks, a);
      }
    }

    method RemoveEvent(id: string) returns (removed: bool)
      requires Valid()
      modifies this
      ensures Valid() && Contents() == IndexRemove(old(Contents()), id)
      ensures removed == (id in old(byId))
    {
      hide I.Mirrors, Filed, FiledEvents, FiledMarks;
      IndexRemoveFiles(Contents(), id);
      DropWatermarkId(id);
      removed := id in byId;
      if removed {
        var a := EventAddress(byId[id]);
        Unfile(id);
        if a.Some? && a.value in winners && winners[a.value] == id {
          winners := winners - {a.value};
        }
      }
    }

    method EnterMark(a: Address, m: Mark)
      requires Inverse(watermarks, watermarkIds) && WellFormed(watermarks) && a !in watermarks.values
      requires forall b :: b in watermarks.values ==> watermarks.values[b].id != m.id
      modifies `watermarks, `watermarkIds
      ensures Inverse(watermarks, watermarkIds) && WellFormed(watermarks) && watermarks == Enter(old(watermarks), a, m)
    {
      EnterWellFormed(watermarks, a, m);
      watermarks := Enter(watermarks, a, m);
      watermarkIds := watermarkIds[m.id := a];
    }

    method SetWatermark(a: Address, m: Mark)
      requires Valid() && a !in winners && forall b :: b in watermarks.values ==> watermarks.values[b].id != m.id
      modifies `watermarks, `watermarkIds
      ensures Valid() && Contents() == SetMark(old(Contents()), a, m)
    {
      hide I.Mirrors, FiledEvents, FiledMarks, WellFormed, DropMark, Enter, Trim;
      if maxWatermarks == 0 {
        return;
      }
      SetMarkFiles(Contents(), a, m);
      DroppedMark(Contents(), a);
      DropWatermark(a);
      EnterMark(a, m);
      TrimMarks();
    }

    /** trimOldest over the watermarks, with dropWatermark as its callback. */
    method TrimMarks()
      requires Inverse(watermarks, watermarkIds) && WellFormed(watermarks)
      modifies `watermarks, `watermarkIds
      ensures Inverse(watermarks, watermarkIds) && watermarks == Trim(old(watermarks), maxWatermarks)
    {
      hide Unmarked, Distinct, Excess;
      var trimmed, gone := TrimOldest(watermarks, maxWatermarks);
      ghost var marks := watermarks.values;
      GoneMarks(watermarks, maxWatermarks, gone);
      NoneUnmarked(watermarks, watermarkIds);
      for i := 0 to |gone|
        invariant Unmarked(marks, watermarkIds, gone[..i]) && watermarks == old(watermarks)
      {
        assert gone[i] in gone;
        assert gone[..i + 1] == gone[..i] + [gone[i]];
        UnmarkedNext(marks, watermarkIds, gone[..i], gone[i]);
        watermarkIds := watermarkIds - {watermarks.values[gone[i]].id};
      }
      assert gone[..|gone|] == gone;
      AllUnmarked(watermarks, maxWatermarks, watermarkIds, gone);
      watermarks := trimmed;
    }

    // ---- put ----

    method ApplyErase(d: Event, plan: DeletionPlan, coordIds: seq<string>)
      requires Valid() && d.kind == EVENT_DELETION && Canonical(d) && d.id !in byId
      modifies this, deletion
      ensures Valid() && Contents() == Storage.ApplyErase(old(Contents()), d, plan, coordIds)
    {
      Absorb(d.id, plan);
      ghost var s1 := Contents();
      RemoveEvents(plan.removeIds);
      ghost var s2 := Contents();
      UprootEvents(coordIds);
      Gone(s1, plan.removeIds, d.id);
      GoneToo(s2, coordIds, d.id);
      InsertEvent(d);
    }

    method Absorb(id: string, plan: DeletionPlan)
      requires Valid()
      modifies deletion
      ensures Valid()
      ensures var s := old(Contents());
              Contents() == s.(deletion := Deletion.Absorb(s.deletion.(pending := Delete(s.deletion.pending, id)), plan))
    {
      DeleteWellFormed(deletion.pending, id);
      AbsorbFiled(deletion.State().(pending := Delete(deletion.pending, id)), plan);
      deletion.DropPending(id);
      deletion.AbsorbPlan(plan);
    }

    method RemoveEvents(ids: seq<string>)
      requires Valid()
      modifies this
      ensures Valid() && Contents() == Storage.RemoveAll(old(Contents()), ids)
    {
      hide I.Mirrors, Filed, IndexRemove;
      for i := 0 to |ids|
        invariant Valid() && Contents() == Storage.RemoveAll(old(Contents()), ids[..i])
      {
        assert ids[..i + 1][..i] == ids[..i];
        var _ := RemoveEvent(ids[i]);
      }
      assert ids[..|ids|] == ids;
    }

    method UprootEvents(ids: seq<string>)
      requires Valid()
      modifies this, deletion
      ensures Valid() && Contents() == UprootAll(old(Contents()), ids)
    {
      hide I.Mirrors, FiledEvents, FiledMarks, IndexRemove;
      for i := 0 to |ids|
        invariant Valid() && Contents() == UprootAll(old(Contents()), ids[..i])
      {
        assert ids[..i + 1][..i] == ids[..i];
        EnterWellFormed(deletion.ids, ids[i], ());
        deletion.AddId(ids[i]);
        var _ := RemoveEvent(ids[i]);
      }
      assert ids[..|ids|] == ids;
    }

    method DropMarksFor(plan: DeletionPlan)
      requires Valid()
      modifies `watermarks, `watermarkIds
      ensures Valid() && Contents() == DropMarks(DropMarksOf(old(Contents()), plan.pendingIds), plan.coordinates)
    {
      hide I.Mirrors, Filed, DropMark, DropMarkOf;
      for i := 0 to |plan.pendingIds|
        invariant Valid() && Contents() == DropMarksOf(old(Contents()), plan.pendingIds[..i])
      {
        assert plan.pendingIds[..i + 1][..i] == plan.pendingIds[..i];
        DropWatermarkId(plan.pendingIds[i]);
      }
      assert plan.pendingIds[..|plan.pendingIds|] == plan.pendingIds;
      ghost var s1 := Contents();
      for i := 0 to |plan.coordinates|
        invariant Valid() && Contents() == DropMarks(s1, plan.coordinates[..i])
      {
        assert plan.coordinates[..i + 1][..i] == plan.coordinates[..i];
        DropWatermark(plan.coordinates[i]);
      }
      assert plan.coordinates[..|plan.coordinates|] == plan.coordinates;
    }

    method TrimTombstones()
      requires Valid()
      modifies deletion
      ensures Valid() && Contents() == Trimmed(old(Contents()))
    {
      TrimmedKeeps(Contents());
      deletion.TrimTo(maxTombstones);
    }

    /** put: decides by the policy, and applies what it decided. */
    method Put(raw: Event) returns (r: PutResult)
      requires Valid()
      modifies this, deletion
      ensures Valid() && Contents() == Storage.Put(old(Contents()), raw)
      ensures r == ResultOf(Decide(raw, LookupOf(old(Contents()))))
    {
      hide I.Mirrors, Filed, Settle, Erasing, Decide, Storage.ApplyErase;
      ghost var s := Contents();
      var d := DecidePut(raw, LookupOf(Contents()));
      PutIs(s, raw, d);
      r := ResultOf(d);
      match d {
        case Leave(_) =>
        case Entomb =>
          Entombed(s, raw);
          deletion.AddId(raw.id);
          deletion.DropPending(raw.id);
        case Erase(plan, coordIds) =>
          DropMarksFor(plan);
          ApplyErase(raw, plan, coordIds);
        case Insert(replaceId) =>
          Freed(s, raw);
          if replaceId.Some? {
            var _ := RemoveEvent(replaceId.value);
          }
          InsertEvent(raw);
      }
      TrimTombstones();
    }

    // ---- remove, evict, clear ----

    method RemoveOne(raw: string) returns (removed: bool)
      requires Valid()
      modifies this, deletion
      ensures Valid() && Contents() == Storage.RemoveOne(old(Contents()), raw)
      ensures removed == (Lower(raw) in old(byId)) && byId == old(byId) - {Lower(raw)}
    {
      hide I.Mirrors, IndexRemove, FiledEvents, FiledMarks;
      var id := Lower(raw);
      RemovedFrom(Contents(), raw);
      removed := RemoveEvent(id);
      BuryFiled(deletion.State(), id);
      deletion.AddId(id);
      deletion.DropPending(id);
    }

    /** Removes by id, with tombstones, and counts what was there. */
    method Remove(ids: seq<string>) returns (n: nat)
      requires Valid()
      modifies this, deletion
      ensures Valid() && Contents() == Storage.Remove(old(Contents()), ids)
      ensures n == |Found(ids, old(byId))|
    {
      n := RemoveEvery(ids);
      TrimTombstones();
    }

    method RemoveEvery(ids: seq<string>) returns (n: nat)
      requires Valid()
      modifies this, deletion
      ensures Valid() && Contents() == RemoveEach(old(Contents()), ids)
      ensures n == |Found(ids, old(byId))|
    {
      hide Valid, Storage.RemoveOne, Found;
      n := 0;
      NothingFound(byId);
      for i := 0 to |ids|
        invariant Valid() && Contents() == RemoveEach(old(Contents()), ids[..i])
        invariant n == |Found(ids[..i], old(byId))| && byId == old(byId) - Found(ids[..i], old(byId))
      {
        assert ids[..i + 1][..i] == ids[..i];
        FoundNext(ids, i, old(byId));
        var removed := RemoveOne(ids[i]);
        if removed {
          n := n + 1;
        }
      }
      assert ids[..|ids|] == ids;
    }

    method EvictOne(raw: string) returns (removed: bool)
      requires Valid()
      modifies this
      ensures Valid() && Contents() == Storage.EvictOne(old(Contents()), raw)
      ensures removed == (Lower(raw) in old(byId)) && byId == old(byId) - {Lower(raw)}
    {
      hide I.Mirrors, IndexRemove, SetMark;
      EvictedFrom(Contents(), raw);
      var id := Lower(raw);
      removed := id in byId;
      if removed {
        var e := byId[id];
        var a := EventAddress(e);
        var winner := a.Some? && a.value in winners && winners[a.value] == id;
        IndexRemoveIs(Contents(), id);
        var _ := RemoveEvent(id);
        if winner {
          SetWatermark(a.value, Mark(id, e.createdAt));
        }
      }
    }

    /** Removes by id without tombstones; what was a winner leaves a watermark. */
    method Evict(ids: seq<string>) returns (n: nat)
      requires Valid()
      modifies this
      ensures Valid() && Contents() == Storage.Evict(old(Contents()), ids)
      ensures n == |Found(ids, old(byId))| && byId == old(byId) - Found(ids, old(byId))
    {
      hide Valid, Storage.EvictOne, Found;
      n := 0;
      NothingFound(byId);
      for i := 0 to |ids|
        invariant Valid() && Contents() == Storage.Evict(old(Contents()), ids[..i])
        invariant n == |Found(ids[..i], old(byId))| && byId == old(byId) - Found(ids[..i], old(byId))
      {
        assert ids[..i + 1][..i] == ids[..i];
        FoundNext(ids, i, old(byId));
        var removed := EvictOne(ids[i]);
        if removed {
          n := n + 1;
        }
      }
      assert ids[..|ids|] == ids;
    }

    method Clear()
      modifies this, deletion
      ensures Valid() && Contents() == NewStore(maxTombstones, maxWatermarks)
    {
      byId, winners, watermarks, watermarkIds := map[], map[], Empty(), map[];
      byPubkey, byKind, byKindPubkey, byEpTag := map[], map[], map[], map[];
      deletion.Clear();
    }

    // ---- reading ----

    method Get(raw: string) returns (r: Option<Event>)
      requires Valid()
      ensures r.Some? <==> Lower(raw) in byId && Lower(raw) !in deletion.ids.values
      ensures r.Some? ==> r.value == byId[Lower(raw)] && r.value.id == Lower(raw)
    {
      var id := Lower(raw);
      if id in deletion.ids.values || id !in byId {
        return None;
      }
      r := Some(byId[id]);
    }

    method GetByAddress(address: string) returns (r: Option<Event>)
      requires Valid()
      ensures r.Some? <==> ParseAddress(address).Some? && exists id ::
                id in byId && EventAddress(byId[id]) == ParseAddress(address) && id !in deletion.ids.values
      ensures r.Some? ==> r.value.id in byId && byId[r.value.id] == r.value && EventAddress(r.value) == ParseAddress(address)
    {
      var coord := ParseAddress(address);
      if coord.None? || coord.value !in winners {
        return None;
      }
      var id := winners[coord.value];
      if id in deletion.ids.values || id !in byId {
        return None;
      }
      assert EventAddress(byId[id]) == coord;
      r := Some(byId[id]);
    }

    /** Visits the stored events of a set of ids that have not been visited. */
    method VisitIds(ids: set<string>, before: seq<Event>, seen: set<string>) returns (list: seq<Event>,
                    seen': set<string>)
      requires Valid() && Picked(before, seen, byId)
      ensures Picked(list, seen', byId) && seen' == seen + ids
    {
      hide Picked, I.Mirrors, FiledMarks;
      list, seen' := before, seen;
      var left := ids;
      while left != {}
        invariant Picked(list, seen', byId) && left <= ids && seen' == seen + (ids - left)
        decreases |left|
      {
        var id :| id in left;
        left := left - {id};
        if id !in seen' {
          if id in byId {
            PickOne(list, seen', byId, id);
            list := list + [byId[id]];
          } else {
            PickNone(list, seen', byId, id);
          }
          seen' := seen' + {id};
        }
      }
    }

    method VisitKeys(m: I.SetMap, keys: seq<I.Key>, before: seq<Event>, seen: set<string>) returns (list: seq<Event>,
                     seen': set<string>)
      requires Valid() && Picked(before, seen, byId)
      ensures Picked(list, seen', byId) && seen <= seen'
      ensures forall key :: key in keys ==> I.At(m, key) <= seen'
    {
      hide Picked, I.Mirrors, Filed;
      list, seen' := before, seen;
      for i := 0 to |keys|
        invariant Picked(list, seen', byId) && seen <= seen'
        invariant forall key :: key in keys[..i] ==> I.At(m, key) <= seen'
      {
        if keys[i] in m {
          list, seen' := VisitIds(m[keys[i]], list, seen');
        }
      }
      assert keys[..|keys|] == keys;
    }

    method ByIds(ids: seq<string>) returns (list: seq<Event>, seen: set<string>)
      requires Valid()
      ensures Picked(list, seen, byId) && forall id :: id in byId && ListsLower(ids, byId[id].id) ==> id in seen
    {
      list, seen := [], {};
      for i := 0 to |ids|
        invariant Picked(list, seen, byId)
        invariant forall j :: 0 <= j < i && Lower(ids[j]) in byId ==> Lower(ids[j]) in seen
      {
        var id := Lower(ids[i]);
        if id in byId && id !in seen {
          PickOne(list, seen, byId, id);
          seen := seen + {id};
          list := list + [byId[id]];
        }
      }
    }

    method ByAuthorsAndKinds(authors: seq<string>, kinds: seq<int>) returns (list: seq<Event>, seen: set<string>)
      requires Valid()
      ensures Picked(list, seen, byId)
      ensures forall id :: id in byId && ListsLower(authors, byId[id].pubkey) && byId[id].kind in kinds ==> id in seen
    {
      hide Picked, Filed, I.Mirrors;
      NothingPicked(byId);
      list, seen := [], {};
      for i := 0 to |authors|
        invariant Picked(list, seen, byId)
        invariant forall j, kind :: 0 <= j < i && kind in kinds ==> I.At(byKindPubkey, I.KindPubkeyKey(kind, Lower(authors[j]))) <= seen
      {
        var pubkey := Lower(authors[i]);
        var keys := seq(|kinds|, k requires 0 <= k < |kinds| => I.KindPubkeyKey(kinds[k], pubkey));
        ghost var before := seen;
        list, seen := VisitKeys(byKindPubkey, keys, list, seen);
        forall kind | kind in kinds
          ensures I.At(byKindPubkey, I.KindPubkeyKey(kind, pubkey)) <= seen
        {
          var k :| 0 <= k < |kinds| && kinds[k] == kind;
          assert keys[k] in keys;
        }
      }
      forall id | id in byId && ListsLower(authors, byId[id].pubkey) && byId[id].kind in kinds
        ensures id in seen
      {
        var v :| v in authors && Lower(v) == byId[id].pubkey;
        var j :| 0 <= j < |authors| && authors[j] == v;
        Filing(byKindPubkey, byId, I.KindPubkeys, id, I.KindPubkeyKey(byId[id].kind, byId[id].pubkey));
        assert I.At(byKindPubkey, I.KindPubkeyKey(byId[id].kind, Lower(authors[j]))) <= seen;
      }
    }

    method ByAuthors(authors: seq<string>) returns (list: seq<Event>, seen: set<string>)
      requires Valid()
      ensures Picked(list, seen, byId) && forall id :: id in byId && ListsLower(authors, byId[id].pubkey) ==> id in seen
    {
      hide Picked, Filed, I.Mirrors;
      NothingPicked(byId);
      var keys := seq(|authors|, i requires 0 <= i < |authors| => I.PubkeyKey(Lower(authors[i])));
      list, seen := VisitKeys(byPubkey, keys, [], {});
      forall id | id in byId && ListsLower(authors, byId[id].pubkey)
        ensures id in seen
      {
        var v :| v in authors && Lower(v) == byId[id].pubkey;
        var j :| 0 <= j < |authors| && authors[j] == v;
        Filing(byPubkey, byId, I.Pubkeys, id, keys[j]);
        assert keys[j] in keys;
      }
    }

    method ByKinds(kinds: seq<int>) returns (list: seq<Event>, seen: set<string>)
      requires Valid()
      ensures Picked(list, seen, byId) && forall id :: id in byId && byId[id].kind in kinds ==> id in seen
    {
      hide Picked, Filed, I.Mirrors;
      NothingPicked(byId);
      var keys := seq(|kinds|, i requires 0 <= i < |kinds| => I.KindKey(kinds[i]));
      list, seen := VisitKeys(byKind, keys, [], {});
      forall id | id in byId && byId[id].kind in kinds
        ensures id in seen
      {
        var j :| 0 <= j < |kinds| && kinds[j] == byId[id].kind;
        Filing(byKind, byId, I.Kinds, id, keys[j]);
        assert keys[j] in keys;
      }
    }

    /** visitEpTagIds: nothing is visited when the filter has no such constraint. */
    method ByTag(f: Filter, name: string, before: seq<Event>, seen: set<string>) returns (list: seq<Event>,
                 seen': set<string>)
      requires Valid() && Picked(before, seen, byId) && (name == "e" || name == "p")
      ensures Picked(list, seen', byId) && seen <= seen'
      ensures name in f.tags ==> forall id :: id in byId && HasTag(byId[id], name, f.tags[name]) ==> id in seen'
    {
      hide Picked, Filed, I.Mirrors;
      list, seen' := before, seen;
      if name in f.tags {
        var values := f.tags[name];
        var keys := seq(|values|, i requires 0 <= i < |values| => I.TagKeyOf(name, Lower(values[i])));
        list, seen' := VisitKeys(byEpTag, keys, before, seen);
        forall id | id in byId && HasTag(byId[id], name, values)
          ensures id in seen'
        {
          var tag :| tag in byId[id].tags && TagHits(tag, name, values);
          var v :| v in values && TagKey(name, v) == TagKey(name, tag[1]);
          var j :| 0 <= j < |values| && values[j] == v;
          I.EpKeysAre(byId[id].tags, name, Lower(v));
          Filing(byEpTag, byId, I.EpTags, id, keys[j]);
          assert keys[j] in keys;
        }
      }
    }

    /** eachCandidate: the narrowest of the maps that the filter allows decides which events are looked at. */
    method EachCandidate(f: Filter) returns (list: seq<Event>, ghost seen: set<string>)
      requires Valid()
      ensures Picked(list, seen, byId)
      ensures forall id :: id in byId && Matches(f, byId[id]) ==> id in seen
    {
      hide Picked, Filed, I.Mirrors, ListsLower, HasTag;
      if f.ids.Some? {
        list, seen := ByIds(f.ids.value);
      } else if f.authors.Some? && f.kinds.Some? {
        list, seen := ByAuthorsAndKinds(f.authors.value, f.kinds.value);
      } else if f.authors.Some? {
        list, seen := ByAuthors(f.authors.value);
      } else if f.kinds.Some? {
        list, seen := ByKinds(f.kinds.value);
      } else if "e" in f.tags || "p" in f.tags {
        NothingPicked(byId);
        var someList, someSeen := ByTag(f, "e", [], {});
        list, seen := ByTag(f, "p", someList, someSeen);
      } else {
        NothingPicked(byId);
        list, seen := VisitIds(byId.Keys, [], {});
      }
    }

    /** The visible events that match, in the order in which they are visited. */
    method Collect(f: Filter) returns (matched: seq<Event>)
      requires Valid()
      ensures OneEventPerId(Visible(Contents()))
      ensures Members(matched) == set e | e in Visible(Contents()) && Matches(f, e)
      ensures forall j, k :: 0 <= j < k < |matched| ==> matched[j].id != matched[k].id
    {
      hide I.Mirrors;
      VisibleIds(Contents());
      var list, seen := EachCandidate(f);
      matched := [];
      for i := 0 to |list|
        invariant forall x :: x in matched <==> x in list[..i] && !Covers(deletion.State(), x) && Matches(f, x)
        invariant forall j, k :: 0 <= j < k < |matched| ==> matched[j].id != matched[k].id
      {
        var e := list[i];
        assert forall x :: x in list[..i + 1] <==> x in list[..i] || x == e;
        if !Covers(deletion.State(), e) {
          var hit := MatchFilter(f, e);
          if hit {
            NotYet(list, seen, byId, i);
            matched := matched + [e];
          }
        }
      }
      assert list[..|list|] == list;
      MatchedAre(Contents(), f, list, seen, matched);
    }

    /** The events that one filter selects, newest first, up to its limit. */
    method MatchedEvents(f: Filter) returns (r: seq<Event>)
      requires Valid()
      ensures OneEventPerId(Visible(Contents())) && r == Answer(Visible(Contents()), f)
    {
      hide I.Mirrors, SortEvents, Filed, Inverse;
      if f.limit == Some(0) {
        VisibleIds(Contents());
        return [];
      }
      var matched := Collect(f);
      SortLists(matched);
      ListIs(SortEvents(matched), set e | e in Visible(Contents()) && Matches(f, e));
      r := Limited(SortEvents(matched), f.limit);
    }

    /** negentropyItems: the items of the newest events that match, up to the limit of the filter, oldest first. */
    method NegentropyItems(f: Filter) returns (items: seq<Item>)
      requires Valid()
      ensures OneEventPerId(Visible(Contents())) && items == Offered(Visible(Contents()), f)
    {
      hide I.Mirrors, SortEvents, OldestFirst, Filed, Inverse, Matches;
      if f.limit == Some(0) {
        VisibleIds(Contents());
        NothingOffered(Visible(Contents()), f);
        return [];
      }
      var found := Collect(f);
      OfferedFrom(Visible(Contents()), f, found);
      if f.limit.Some? {
        found := SortEvents(found);
        if |found| > f.limit.value {
          found := found[..f.limit.value];
        }
      }
      items := ItemsOf(OldestFirst(found));
    }

    /** isDeleted: the id is buried, or the address is closed up to a time that its stored event is not past. */
    method IsDeleted(idOrAddress: string) returns (r: bool)
      requires Valid()
      ensures r <==> ShowsDeleted(Contents(), idOrAddress)
    {
      if Lower(idOrAddress) in deletion.ids.values {
        return true;
      }
      var coord := ParseAddress(idOrAddress);
      if coord.None? || coord.value !in deletion.coordinates.values {
        return false;
      }
      var until := deletion.coordinates.values[coord.value];
      if coord.value !in winners {
        return true;
      }
      var id := winners[coord.value];
      r := id !in byId || byId[id].createdAt <= until;
    }

    /** query: the answers to the filters together, each event once, newest first. */
    method Query(filters: seq<Filter>) returns (r: seq<Event>)
      requires Valid()
      ensures OneEventPerId(Visible(Contents())) && r == Listing.Query(Visible(Contents()), filters)
    {
      hide I.Mirrors, Filed, SortEvents, Covers, Answer;
      VisibleIds(Contents());
      ghost var visible := Visible(Contents());
      var seen: set<string> := {};
      var events: seq<Event> := [];
      for i := 0 to |filters|
        invariant Members(events) == Answered(visible, filters[..i]) <= visible && seen == set x | x in events :: x.id
        invariant forall j, k :: 0 <= j < k < |events| ==> events[j].id != events[k].id
      {
        assert filters[..i + 1][..i] == filters[..i];
        var matched := MatchedEvents(filters[i]);
        AnswerIsStored(visible, filters[i]);
        seen, events := AddUnseen(matched, seen, events, visible);
      }
      assert filters[..|filters|] == filters;
      SortLists(events);
      AnsweredAre(visible, filters);
      ListIs(SortEvents(events), set e | e in visible && Answers(visible, filters, e));
      r := SortEvents(events);
    }

    /** count: how many events the query would return. */
    method Count(filters: seq<Filter>) returns (n: nat)
      requires Valid()
      ensures OneEventPerId(Visible(Contents())) && n == |Listing.Query(Visible(Contents()), filters)|
    {
      hide I.Mirrors, Filed, SortEvents, Covers, Answer;
      VisibleIds(Contents());
      ghost var visible := Visible(Contents());
      var seen: set<string> := {};
      for i := 0 to |filters|
        invariant Answered(visible, filters[..i]) <= visible && seen == set x | x in Answered(visible, filters[..i]) :: x.id
      {
        assert filters[..i + 1][..i] == filters[..i];
        var matched := MatchedEvents(filters[i]);
        AnswerIsStored(visible, filters[i]);
        seen := AddIds(matched, seen);
      }
      assert filters[..|filters|] == filters;
      AnsweredAre(visible, filters);
      ListCount(Answered(visible, filters));
      n := |seen|;
    }
  }

  /** The stored events that no tombstone covers. */
  function Visible(s: Store): set<Event> {
    set id | id in s.events && !Covers(s.deletion, s.events[id]) :: s.events[id]
  }

  lemma VisibleIds(s: Store)
    requires Filed(s)
    ensures OneEventPerId(Visible(s))
    ensures forall e :: e in Visible(s) <==> e.id in s.events && s.events[e.id] == e && !Covers(s.deletion, e)
  {
  }

  /** Nothing with this id may be stored, or no event that is stored at this address is past its deletion. */
  ghost predicate ShowsDeleted(s: Store, idOrAddress: string) {
    || Lower(idOrAddress) in s.deletion.ids.values
    || (&& ParseAddress(idOrAddress).Some?
        && ParseAddress(idOrAddress).value in s.deletion.coordinates.values
        && forall id :: id in s.events && EventAddress(s.events[id]) == ParseAddress(idOrAddress) ==>
             s.events[id].createdAt <= s.deletion.coordinates.values[ParseAddress(idOrAddress).value])
  }

  /**
   * As no stored event is covered, what shows as deleted is not stored: no event has such an id, and a closed address
   * shows as deleted exactly as long as it is empty.
   */
  lemma DeletedIsGone(s: Store, x: string)
    requires Filed(s) && NoneCovered(s)
    ensures Lower(x) in s.deletion.ids.values ==> Lower(x) !in s.events
    ensures Lower(x) !in s.deletion.ids.values ==>
      (ShowsDeleted(s, x) <==>
       && ParseAddress(x).Some? && ParseAddress(x).value in s.deletion.coordinates.values
       && forall id :: id in s.events ==> EventAddress(s.events[id]) != ParseAddress(x))
  {
    forall id | id in s.events
      ensures !Covers(s.deletion, s.events[id])
    {
    }
  }

  /** As no stored event is covered, a query sees all of them. */
  lemma AllVisible(s: Store)
    requires Filed(s) && NoneCovered(s)
    ensures Visible(s) == set id | id in s.events :: s.events[id]
  {
  }

  /** In every run, what a query is answered from is all that is stored. */
  lemma EveryRunScans(ops: seq<Op>, u: set<Event>, maxTombstones: Option<nat>, maxWatermarks: nat)
    requires PutBy(ops) <= u && OneEventPerId(u)
    ensures var s := Run(NewStore(maxTombstones, maxWatermarks), ops); Visible(s) == set id | id in s.events :: s.events[id]
  {
    EveryRun(ops, u, maxTombstones, maxWatermarks);
    AllVisible(Run(NewStore(maxTombstones, maxWatermarks), ops));
  }

  /** The visited events: stored, distinct, and all those whose id was seen. */
  ghost predicate Picked(list: seq<Event>, seen: set<string>, byId: map<string, Event>) {
    && (forall i :: 0 <= i < |list| ==> list[i].id in seen && list[i].id in byId && byId[list[i].id] == list[i])
    && (forall i, j :: 0 <= i < j < |list| ==> list[i].id != list[j].id)
    && (forall id :: id in seen && id in byId ==> byId[id] in list)
  }

  lemma NothingPicked(byId: map<string, Event>)
    ensures Picked([], {}, byId)
  {
  }

  lemma PickOne(list: seq<Event>, seen: set<string>, byId: map<string, Event>, id: string)
    requires Picked(list, seen, byId) && id in byId && id !in seen && byId[id].id == id
    ensures Picked(list + [byId[id]], seen + {id}, byId)
  {
  }

  lemma PickNone(list: seq<Event>, seen: set<string>, byId: map<string, Event>, id: string)
    requires Picked(list, seen, byId) && id !in byId
    ensures Picked(list, seen + {id}, byId)
  {
  }

  lemma NotYet(list: seq<Event>, seen: set<string>, byId: map<string, Event>, i: nat)
    requires Picked(list, seen, byId) && i < |list|
    ensures forall x :: x in list[..i] ==> x.id != list[i].id
  {
  }

  /** A stored event is filed under each of its keys. */
  lemma Filing(m: I.SetMap, byId: map<string, Event>, side: I.Side, id: string, key: I.Key)
    requires I.Mirrors(m, byId, side) && id in byId && key in I.KeysOf(side, byId[id])
    ensures id in I.At(m, key)
  {
    assert I.At(m, key) == I.Having(byId, side, key);
  }

  lemma MatchedAre(s: Store, f: Filter, list: seq<Event>, seen: set<string>, matched: seq<Event>)
    requires Filed(s) && Picked(list, seen, s.events)
    requires forall id :: id in s.events && Matches(f, s.events[id]) ==> id in seen
    requires forall x :: x in matched <==> x in list && !Covers(s.deletion, x) && Matches(f, x)
    ensures Members(matched) == set e | e in Visible(s) && Matches(f, e)
  {
    hide Covers, Matches;
    VisibleIds(s);
  }

  lemma EvictedFrom(s: Store, id: string)
    requires Filed(s)
    ensures Storage.EvictOne(s, id).events == s.events - {Lower(id)}
  {
    IndexRemoveIs(s, Lower(id));
  }

  lemma RemovedFrom(s: Store, id: string)
    requires Filed(s)
    ensures Storage.RemoveOne(s, id).events == s.events - {Lower(id)}
  {
    IndexRemoveIs(s, Lower(id));
  }

  /** The stored ids among those given. */
  function Found(ids: seq<string>, byId: map<string, Event>): set<string> {
    set id | id in byId && ListsLower(ids, id)
  }

  lemma NothingFound(byId: map<string, Event>)
    ensures Found([], byId) == {} && byId - {} == byId
  {
  }

  lemma ListsNext(ids: seq<string>, i: nat)
    requires i < |ids|
    ensures forall x :: ListsLower(ids[..i + 1], x) <==> ListsLower(ids[..i], x) || Lower(ids[i]) == x
  {
    hide Lower;
    assert ids[..i + 1] == ids[..i] + [ids[i]];
    forall x
      ensures ListsLower(ids[..i + 1], x) <==> ListsLower(ids[..i], x) || Lower(ids[i]) == x
    {
      assert forall v :: v in ids[..i + 1] <==> v in ids[..i] || v == ids[i];
    }
  }

  lemma FoundNext(ids: seq<string>, i: nat, byId: map<string, Event>)
    requires i < |ids|
    ensures var before, id := Found(ids[..i], byId), Lower(ids[i]);
            && Found(ids[..i + 1], byId) == before + (if id in byId then {id} else {})
            && byId - before - {id} == byId - Found(ids[..i + 1], byId)
            && |Found(ids[..i + 1], byId)| == |before| + if id in byId - before then 1 else 0
  {
    hide ListsLower, Lower;
    ListsNext(ids, i);
    var before, id, after := Found(ids[..i], byId), Lower(ids[i]), Found(ids[..i + 1], byId);
    assert after == before + if id in byId then {id} else {};
    if id in byId - before {
      assert |after| == |before| + 1;
    } else {
      assert after == before;
    }
  }

  lemma DroppedMark(s: Store, a: Address)
    requires Filed(s)
    ensures var s' := DropMark(s, a);
            && s' == s.(watermarks := Delete(s.watermarks, a)) && WellFormed(s'.watermarks) && a !in s'.watermarks.values
            && forall b :: b in s'.watermarks.values ==> b in s.watermarks.values && s'.watermarks.values[b] == s.watermarks.values[b]
  {
    DeleteWellFormed(s.watermarks, a);
  }

  /** What a put settles on, by decision. */
  lemma PutIs(s: Store, e: Event, d: PutDecision)
    requires Filed(s) && d == Decide(e, LookupOf(s))
    ensures d.Leave? ==> Settle(s, e) == s
    ensures d.Entomb? ==> Settle(s, e) == s.(deletion := Bury(s.deletion, e.id))
    ensures d.Erase? ==> e.kind == EVENT_DELETION && Canonical(e) && e.id !in s.events
    ensures d.Erase? ==>
              Settle(s, e) == Storage.ApplyErase(DropMarks(DropMarksOf(s, d.plan.pendingIds), d.plan.coordinates), e, d.plan, d.coordIds)
    ensures d.Insert? ==> Settle(s, e) == IndexInsert(if d.replaceId.None? then s else IndexRemove(s, d.replaceId.value), e)
  {
    hide Storage.ApplyErase, IndexInsert, IndexRemove, DropMarks, DropMarksOf, Filed;
  }

  lemma Entombed(s: Store, e: Event)
    requires Filed(s)
    ensures Filed(s.(deletion := Bury(s.deletion, e.id)))
  {
    BuryFiled(s.deletion, e.id);
  }

  /** An accepted event finds its id and its address free. */
  lemma Freed(s: Store, e: Event)
    requires Filed(s) && Decide(e, LookupOf(s)).Insert?
    ensures var r := Decide(e, LookupOf(s)).replaceId;
            var s' := if r.None? then s else IndexRemove(s, r.value);
            && Canonical(e) && !IsEphemeralKind(e.kind) && e.id !in s'.events
            && (EventAddress(e).Some? ==> EventAddress(e).value !in s'.winners)
  {
    InsertingReplaces(s, e);
    hide Decide, IndexRemove, FiledMarks;
    var r := DecisionFor(s, e).replaceId;
    if r.Some? {
      IndexRemoveIs(s, r.value);
    }
  }

  lemma Gone(s: Store, ids: seq<string>, id: string)
    requires Filed(s) && id !in s.events
    ensures id !in Storage.RemoveAll(s, ids).events
  {
    RemoveAllIs(s, ids);
  }

  lemma GoneToo(s: Store, ids: seq<string>, id: string)
    requires Filed(s) && id !in s.events
    ensures id !in UprootAll(s, ids).events
  {
    UprootAllIs(s, ids);
    RemoveAllIs(s, ids);
  }

  lemma NoKey(m: I.SetMap, id: string)
    ensures I.AddAll(m, [], id) == m && I.RemoveAll(m, [], id) == m
  {
  }

  lemma OneKey(m: I.SetMap, key: I.Key, id: string)
    ensures I.AddAll(m, [key], id) == I.AddToSetMap(m, key, id)
    ensures I.RemoveAll(m, [key], id) == I.RemoveFromSetMap(m, key, id)
  {
    assert [key][..0] == [];
  }

  lemma NextKey(m: I.SetMap, keys: seq<I.Key>, key: I.Key, id: string)
    ensures I.AddAll(m, keys + [key], id) == I.AddToSetMap(I.AddAll(m, keys, id), key, id)
    ensures I.RemoveAll(m, keys + [key], id) == I.RemoveFromSetMap(I.RemoveAll(m, keys, id), key, id)
  {
    assert (keys + [key])[..|keys|] == keys;
  }
}
