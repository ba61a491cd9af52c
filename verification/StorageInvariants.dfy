/**
 * What every operation of the in-memory event index keeps: one stored event per address, no stored
 * event under a tombstone, and watermarks that never stand beside a live winner.
 */
module StorageInvariants {
  import opened Results
  import opened Events
  import opened Ordered
  import opened Deletion
  import opened Storage

  // ---- the invariants ----

  /** Stored events are filed under their id, and the winner of each address is filed there. */
  ghost predicate FiledEvents(events: map<string, Event>, winners: map<Address, string>) {
    && (forall id :: id in events ==> events[id].id == id && Canonical(events[id]) && !IsEphemeralKind(events[id].kind))
    && (forall a :: a in winners ==> winners[a] in events && EventAddress(events[winners[a]]) == Some(a))
    && (forall id :: id in events && EventAddress(events[id]).Some? ==>
          EventAddress(events[id]).value in winners && winners[EventAddress(events[id]).value] == id)
  }

  /** No two watermarks carry one id, none stands beside a live winner, and the cap holds. */
  ghost predicate FiledMarks(marks: OrderedMap<Address, Mark>, winners: map<Address, string>, max: nat) {
    && WellFormed(marks) && |marks.keys| <= max
    && (forall a :: a in marks.values ==> a !in winners)
    && (forall a, b :: a in marks.values && b in marks.values && marks.values[a].id == marks.values[b].id ==> a == b)
  }

  ghost predicate FiledTombstones(t: Tombstones) {
    WellFormed(t.ids) && WellFormed(t.pending) && WellFormed(t.coordinates)
  }

  ghost predicate Filed(s: Store) {
    && FiledEvents(s.events, s.winners)
    && FiledMarks(s.watermarks, s.winners, s.maxWatermarks)
    && FiledTombstones(s.deletion)
  }

  ghost predicate NoneCovered(s: Store) {
    forall id :: id in s.events ==> !Covers(s.deletion, s.events[id])
  }

  predicate WithinCap(t: Tombstones, cap: Option<nat>) {
    cap.Some? ==> |t.ids.keys| <= cap.value && |t.pending.keys| <= cap.value && |t.coordinates.keys| <= cap.value
  }

  ghost predicate MarkKnown(u: set<Event>, a: Address, m: Mark) {
    exists x :: x in u && MarkOf(x) == m && EventAddress(x) == Some(a)
  }

  /** Every event the store holds, or remembers the mark of, is one of `u`. */
  ghost predicate Known(s: Store, u: set<Event>) {
    && (forall id :: id in s.events ==> s.events[id] in u)
    && (forall a :: a in s.watermarks.values ==> MarkKnown(u, a, s.watermarks.values[a]))
  }

  // ---- marks ----

  lemma {:induction false} WithoutShrinks<K>(keys: seq<K>, key: K)
    ensures |Without(keys, key)| <= |keys|
  {
    if keys != [] {
      WithoutShrinks(keys[1..], key);
    }
  }

  lemma DropMarkFiled(s: Store, a: Address)
    requires Filed(s)
    ensures Filed(DropMark(s, a))
  {
    DeleteWellFormed(s.watermarks, a);
    WithoutShrinks(s.watermarks.keys, a);
  }

  /** Dropping the mark of an id drops the one mark that carries it. */
  lemma DropMarkOfIs(s: Store, id: string)
    requires Filed(s)
    ensures var s' := DropMarkOf(s, id);
            && Filed(s') && s' == s.(watermarks := s'.watermarks)
            && forall a :: a in s'.watermarks.values <==> a in s.watermarks.values && s.watermarks.values[a].id != id
    ensures forall a :: a in DropMarkOf(s, id).watermarks.values ==>
                          DropMarkOf(s, id).watermarks.values[a] == s.watermarks.values[a]
  {
    var a := MarkedBy(s.watermarks.keys, s.watermarks.values, id);
    assert forall b :: b in s.watermarks.values ==> b in Elements(s.watermarks.keys);
    if a.Some? {
      DropMarkFiled(s, a.value);
    }
  }

  // ---- the index ----

  /** Part of a store: some events and marks of `s` gone, nothing else different but the tombstones. */
  ghost predicate PartOf(s': Store, s: Store) {
    && (forall id :: id in s'.events ==> id in s.events && s'.events[id] == s.events[id])
    && (forall a :: a in s'.watermarks.values ==> a in s.watermarks.values && s'.watermarks.values[a] == s.watermarks.values[a])
    && (forall a :: a in s'.winners ==> a in s.winners && s'.winners[a] == s.winners[a])
    && s'.maxTombstones == s.maxTombstones && s'.maxWatermarks == s.maxWatermarks
  }

  lemma IndexRemoveFiles(s: Store, id: string)
    requires Filed(s)
    ensures Filed(IndexRemove(s, id))
  {
    DropMarkOfIs(s, id);
  }

  lemma IndexRemoveIs(s: Store, id: string)
    requires Filed(s)
    ensures var s' := IndexRemove(s, id);
            && PartOf(s', s) && s'.deletion == s.deletion && s'.events == s.events - {id}
    ensures forall a :: a in s.winners && s.winners[a] != id ==> a in IndexRemove(s, id).winners
    ensures forall a :: a in IndexRemove(s, id).winners ==> s.winners[a] != id
    ensures forall a :: a in s.watermarks.values && s.watermarks.values[a].id != id ==> a in IndexRemove(s, id).watermarks.values
    ensures forall a :: a in IndexRemove(s, id).watermarks.values ==> s.watermarks.values[a].id != id
  {
    DropMarkOfIs(s, id);
  }

  /** The watermark of an address goes, and the others stay. */
  lemma DropMarkIs(marks: OrderedMap<Address, Mark>, a: Address, winners: map<Address, string>, max: nat)
    requires FiledMarks(marks, winners - {a}, max)
    ensures FiledMarks(Delete(marks, a), winners, max)
    ensures Delete(marks, a).values == marks.values - {a}
  {
    DeleteWellFormed(marks, a);
    WithoutShrinks(marks.keys, a);
  }

  lemma InsertFiles(events: map<string, Event>, winners: map<Address, string>, e: Event)
    requires FiledEvents(events, winners) && Canonical(e) && !IsEphemeralKind(e.kind) && e.id !in events
    requires EventAddress(e).Some? ==> EventAddress(e).value !in winners
    ensures EventAddress(e).None? ==> FiledEvents(events[e.id := e], winners)
    ensures EventAddress(e).Some? ==> FiledEvents(events[e.id := e], winners[EventAddress(e).value := e.id])
  {
    hide Canonical, EventAddress;
  }

  lemma IndexInsertIs(s: Store, e: Event)
    requires Filed(s) && Canonical(e) && !IsEphemeralKind(e.kind) && e.id !in s.events
    requires EventAddress(e).Some? ==> EventAddress(e).value !in s.winners
    ensures Filed(IndexInsert(s, e))
    ensures var s' := IndexInsert(s, e);
            && s'.deletion == s.deletion && s'.events == s.events[e.id := e]
            && s'.maxTombstones == s.maxTombstones && s'.maxWatermarks == s.maxWatermarks
    ensures forall a :: a in IndexInsert(s, e).watermarks.values <==> a in s.watermarks.values && EventAddress(e) != Some(a)
    ensures forall a :: a in IndexInsert(s, e).watermarks.values ==>
                          IndexInsert(s, e).watermarks.values[a] == s.watermarks.values[a]
  {
    hide FiledEvents, FiledMarks, FiledTombstones, Canonical, EventAddress, Without;
    InsertFiles(s.events, s.winners, e);
    var a := EventAddress(e);
    if a.Some? {
      var winners := s.winners[a.value := e.id];
      assert winners - {a.value} == s.winners;
      DropMarkIs(s.watermarks, a.value, winners, s.maxWatermarks);
    }
  }

  lemma {:induction false} RemoveAllFiles(s: Store, ids: seq<string>)
    requires Filed(s)
    ensures Filed(RemoveAll(s, ids))
  {
    if ids != [] {
      RemoveAllFiles(s, ids[..|ids| - 1]);
      IndexRemoveFiles(RemoveAll(s, ids[..|ids| - 1]), ids[|ids| - 1]);
    }
  }

  lemma {:induction false} RemoveAllIs(s: Store, ids: seq<string>)
    requires Filed(s)
    ensures var s' := RemoveAll(s, ids);
            && PartOf(s', s) && s'.deletion == s.deletion && s'.events == s.events - Elements(ids)
  {
    hide Filed, IndexRemove;
    if ids != [] {
      RemoveAllIs(s, ids[..|ids| - 1]);
      RemoveAllFiles(s, ids[..|ids| - 1]);
      IndexRemoveIs(RemoveAll(s, ids[..|ids| - 1]), ids[|ids| - 1]);
      assert Elements(ids) == Elements(ids[..|ids| - 1]) + {ids[|ids| - 1]};
    } else {
      assert s.events - Elements(ids) == s.events;
    }
  }

  function AddAll(t: Tombstones, ids: seq<string>): Tombstones {
    if ids == [] then t
    else
      var t' := AddAll(t, ids[..|ids| - 1]);
      t'.(ids := Add(t'.ids, ids[|ids| - 1]))
  }

  /** Uprooting is removing, with tombstones for the ids. */
  lemma {:induction false} UprootAllIs(s: Store, ids: seq<string>)
    ensures UprootAll(s, ids) == RemoveAll(s, ids).(deletion := AddAll(s.deletion, ids))
  {
    if ids != [] {
      UprootAllIs(s, ids[..|ids| - 1]);
    }
  }

  lemma {:induction false} AddAllIs(t: Tombstones, ids: seq<string>)
    requires FiledTombstones(t)
    ensures var t' := AddAll(t, ids);
            && FiledTombstones(t') && t' == t.(ids := t'.ids)
            && t'.ids.values.Keys == t.ids.values.Keys + Elements(ids)
  {
    if ids != [] {
      AddAllIs(t, ids[..|ids| - 1]);
      EnterWellFormed(AddAll(t, ids[..|ids| - 1]).ids, ids[|ids| - 1], ());
      assert Elements(ids) == Elements(ids[..|ids| - 1]) + {ids[|ids| - 1]};
    }
  }

  lemma {:induction false} DropMarksOfIs(s: Store, ids: seq<string>)
    requires Filed(s)
    ensures var s' := DropMarksOf(s, ids); Filed(s') && PartOf(s', s) && s' == s.(watermarks := s'.watermarks)
  {
    if ids != [] {
      DropMarksOfIs(s, ids[..|ids| - 1]);
      DropMarkOfIs(DropMarksOf(s, ids[..|ids| - 1]), ids[|ids| - 1]);
    }
  }

  lemma {:induction false} DropMarksIs(s: Store, addresses: seq<Address>)
    requires Filed(s)
    ensures var s' := DropMarks(s, addresses); Filed(s') && PartOf(s', s) && s' == s.(watermarks := s'.watermarks)
  {
    if addresses != [] {
      DropMarksIs(s, addresses[..|addresses| - 1]);
      DropMarkFiled(DropMarks(s, addresses[..|addresses| - 1]), addresses[|addresses| - 1]);
    }
  }

  // ---- tombstones ----

  lemma {:induction false} AbsorbFiled(t: Tombstones, plan: DeletionPlan)
    requires FiledTombstones(t)
    ensures FiledTombstones(Absorb(t, plan))
  {
    var t1 := BuryAll(t, plan.removeIds);
    BuryAllFiled(t, plan.removeIds);
    var t2 := AwaitAll(t1, plan.pendingIds, plan.pubkey);
    AwaitAllFiled(t1, plan.pendingIds, plan.pubkey);
    CloseAllFiled(t2, plan.coordinates, plan.until);
  }

  lemma BuryFiled(t: Tombstones, id: string)
    requires FiledTombstones(t)
    ensures FiledTombstones(Bury(t, id))
  {
    EnterWellFormed(t.ids, id, ());
    DeleteWellFormed(t.pending, id);
  }

  lemma {:induction false} BuryAllFiled(t: Tombstones, ids: seq<string>)
    requires FiledTombstones(t)
    ensures FiledTombstones(BuryAll(t, ids))
  {
    if ids != [] {
      BuryAllFiled(t, ids[..|ids| - 1]);
      BuryFiled(BuryAll(t, ids[..|ids| - 1]), ids[|ids| - 1]);
    }
  }

  lemma {:induction false} AwaitAllFiled(t: Tombstones, ids: seq<string>, pubkey: string)
    requires FiledTombstones(t)
    ensures FiledTombstones(AwaitAll(t, ids, pubkey))
  {
    if ids != [] {
      AwaitAllFiled(t, ids[..|ids| - 1], pubkey);
      EnterWellFormed(AwaitAll(t, ids[..|ids| - 1], pubkey).pending, ids[|ids| - 1], pubkey);
    }
  }

  lemma {:induction false} CloseAllFiled(t: Tombstones, coordinates: seq<Address>, until: int)
    requires FiledTombstones(t)
    ensures FiledTombstones(CloseAll(t, coordinates, until))
  {
    if coordinates != [] {
      var before, a := CloseAll(t, coordinates[..|coordinates| - 1], until), coordinates[|coordinates| - 1];
      CloseAllFiled(t, coordinates[..|coordinates| - 1], until);
      DeleteWellFormed(before.coordinates, a);
      EnterWellFormed(Delete(before.coordinates, a), a, Later(before, a, until));
    }
  }

  lemma {:induction false} DeletePendingFiled(t: Tombstones, ids: seq<string>)
    requires FiledTombstones(t)
    ensures var t' := DeletePending(t, ids);
            && FiledTombstones(t') && t' == t.(pending := t'.pending)
            && forall id :: id in t'.pending.values ==> id in t.pending.values && t'.pending.values[id] == t.pending.values[id]
  {
    if ids != [] {
      DeletePendingFiled(t, ids[..|ids| - 1]);
      DeleteWellFormed(DeletePending(t, ids[..|ids| - 1]).pending, ids[|ids| - 1]);
    }
  }

  lemma TrimFiled(t: Tombstones, cap: Option<nat>)
    requires FiledTombstones(t)
    ensures FiledTombstones(TrimTombstones(t, cap)) && WithinCap(TrimTombstones(t, cap), cap)
  {
    if cap.Some? {
      var gone := t.ids.keys[..Excess(t.ids, cap.value)];
      DeletePendingFiled(t, gone);
      TrimWellFormed(t.ids, cap.value);
      TrimWellFormed(DeletePending(t, gone).pending, cap.value);
      TrimWellFormed(t.coordinates, cap.value);
    }
  }

  /** Forgetting tombstones never covers an event that was not covered. */
  lemma TrimCoversLess(t: Tombstones, cap: Option<nat>, e: Event)
    requires FiledTombstones(t) && Covers(TrimTombstones(t, cap), e)
    ensures Covers(t, e)
  {
    if cap.Some? {
      DeletePendingFiled(t, t.ids.keys[..Excess(t.ids, cap.value)]);
    }
  }

  lemma TrimmedKeeps(s: Store)
    requires Filed(s)
    ensures Filed(Trimmed(s)) && WithinCap(Trimmed(s).deletion, s.maxTombstones)
    ensures NoneCovered(s) ==> NoneCovered(Trimmed(s))
  {
    TrimFiled(s.deletion, s.maxTombstones);
    forall id | id in s.events && Covers(Trimmed(s).deletion, s.events[id])
      ensures Covers(s.deletion, s.events[id])
    {
      TrimCoversLess(s.deletion, s.maxTombstones, s.events[id]);
    }
  }
}
