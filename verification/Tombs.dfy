/** The deletion state as the source keeps it, and the loops of a deletion plan (src/storage/deletion.ts, put.ts). */
module Tombs {
  import opened Results
  import opened Events
  import opened Ordered
  import opened Deletion
  import opened Storage

  lemma NamedNext(tags: seq<Tag>, i: nat, pubkey: string)
    requires i < |tags|
    ensures NamedIds(tags[..i + 1]) == Append(NamedIds(tags[..i]), NamedId(tags[i]))
    ensures NamedAddresses(tags[..i + 1], pubkey) == Append(NamedAddresses(tags[..i], pubkey), NamedAddress(tags[i], pubkey))
  {
    assert tags[..i + 1][..i] == tags[..i];
  }

  lemma PlannedNext(ids: seq<string>, id: string, byId: map<string, Event>, pubkey: string)
    ensures Removals(ids + [id], byId, pubkey) ==
              Removals(ids, byId, pubkey) + if Removable(byId, id, pubkey) then [id] else []
    ensures Missing(ids + [id], byId) == Missing(ids, byId) + if id in byId then [] else [id]
    ensures Elements(ids + [id]) == Elements(ids) + {id}
  {
    assert (ids + [id])[..|ids|] == ids;
  }

  method PlanDeletion(d: Event, byId: map<string, Event>) returns (plan: DeletionPlan)
    ensures plan == Plan(d, byId)
  {
    hide IsHex32, ParseAddress, Lower, NamedIds, NamedAddresses, Removals, Missing;
    var removeIds: seq<string>, pendingIds: seq<string>, coordinates: seq<Address> := [], [], [];
    var seenIds: set<string>, seenCoords: set<Address> := {}, {};
    NothingPlanned(byId, d.pubkey);
    for i := 0 to |d.tags|
      invariant seenIds == Elements(NamedIds(d.tags[..i])) && seenCoords == Elements(coordinates)
      invariant removeIds == Removals(NamedIds(d.tags[..i]), byId, d.pubkey)
      invariant pendingIds == Missing(NamedIds(d.tags[..i]), byId)
      invariant coordinates == NamedAddresses(d.tags[..i], d.pubkey)
    {
      var tag := d.tags[i];
      NamedNext(d.tags, i, d.pubkey);
      if |tag| > 1 && tag[0] == "e" && IsHex32(Lower(tag[1])) {
        var id := Lower(tag[1]);
        PlannedNext(NamedIds(d.tags[..i]), id, byId, d.pubkey);
        if id !in seenIds {
          seenIds := seenIds + {id};
          if id !in byId {
            pendingIds := pendingIds + [id];
          } else if byId[id].kind != EVENT_DELETION && byId[id].pubkey == d.pubkey {
            removeIds := removeIds + [id];
          }
        }
      } else if |tag| > 1 && tag[0] == "a" {
        var coord := ParseAddress(tag[1]);
        if coord.Some? && coord.value.pubkey == d.pubkey && coord.value !in seenCoords {
          seenCoords := seenCoords + {coord.value};
          coordinates := coordinates + [coord.value];
        }
      }
    }
    assert d.tags[..|d.tags|] == d.tags;
    plan := DeletionPlan(d.pubkey, removeIds, pendingIds, coordinates, d.createdAt);
  }

  lemma NothingPlanned(byId: map<string, Event>, pubkey: string)
    ensures NamedIds([]) == [] && NamedAddresses([], pubkey) == [] && Removals([], byId, pubkey) == [] && Missing([], byId) == []
  {
  }

  method CoordinateRemovalsLoop(coordinates: seq<Address>, current: map<Address, Winner>, until: int)
    returns (ids: seq<string>)
    ensures ids == CoordinateRemovals(coordinates, current, until)
  {
    ids := [];
    for i := 0 to |coordinates|
      invariant ids == CoordinateRemovals(coordinates[..i], current, until)
    {
      var a := coordinates[i];
      assert coordinates[..i + 1][..i] == coordinates[..i];
      if a in current && current[a].mark.createdAt <= until {
        ids := ids + [current[a].mark.id];
      }
    }
    assert coordinates[..|coordinates|] == coordinates;
  }

  method DecidePut(e: Event, l: Lookup) returns (d: PutDecision)
    ensures d == Decide(e, l)
  {
    if !Canonical(e) {
      return Leave(Invalid);
    }
    if e.id in l.deletion.ids.values || e.id in l.byId {
      return Leave(Duplicate);
    }
    if e.kind == EVENT_DELETION {
      var plan := PlanDeletion(e, l.byId);
      var coordIds := CoordinateRemovalsLoop(plan.coordinates, l.current, plan.until);
      return Erase(plan, coordIds);
    }
    if Covers(l.deletion, e) {
      return Entomb;
    }
    if IsEphemeralKind(e.kind) {
      return Leave(Ephemeral);
    }
    var address := EventAddress(e);
    if address.Some? {
      if address.value in l.current {
        var prev := l.current[address.value];
        if prev.mark.id != e.id && !Wins(MarkOf(e), prev.mark) {
          return Leave(Rejected);
        }
        if !prev.evicted {
          return Insert(Some(prev.mark.id));
        }
      }
    }
    d := Insert(None);
  }

  /** trimOldest: drops the oldest key until few enough are left, and says which ones went. */
  method TrimOldest<K(==), V>(m: OrderedMap<K, V>, max: nat) returns (r: OrderedMap<K, V>, gone: seq<K>)
    requires WellFormed(m)
    ensures r == Trim(m, max) && gone == m.keys[..Excess(m, max)]
  {
    r, gone := m, [];
    assert m.values - Elements(m.keys[..0]) == m.values;
    for i := 0 to Excess(m, max)
      invariant gone == m.keys[..i] && r.keys == m.keys[i..] && r.values == m.values - Elements(m.keys[..i])
      invariant Distinct(r.keys)
    {
      var key := r.keys[0];
      gone := gone + [key];
      WithoutDistinct(r.keys[1..], key);
      assert r.keys[1..] == m.keys[i + 1..];
      assert m.keys[..i + 1] == m.keys[..i] + [key];
      assert Elements(m.keys[..i + 1]) == Elements(m.keys[..i]) + {key};
      r := Delete(r, key);
    }
  }

  class DeletionState {
    var ids: OrderedSet<string>
    var pending: OrderedMap<string, string>
    var coordinates: OrderedMap<Address, int>

    constructor ()
      ensures State() == NO_TOMBSTONES
    {
      ids, pending, coordinates := Empty(), Empty(), Empty();
    }

    function State(): Tombstones
      reads this
    {
      Tombstones(ids, pending, coordinates)
    }

    method Clear()
      modifies this
      ensures State() == NO_TOMBSTONES
    {
      ids, pending, coordinates := Empty(), Empty(), Empty();
    }

    method AddId(id: string)
      modifies `ids
      ensures State() == old(State()).(ids := Add(old(ids), id))
    {
      ids := Add(ids, id);
    }

    method DropPending(id: string)
      modifies `pending
      ensures State() == old(State()).(pending := Delete(old(pending), id))
    {
      pending := Delete(pending, id);
    }

    method AbsorbPlan(plan: DeletionPlan)
      modifies this
      ensures State() == Absorb(old(State()), plan)
    {
      hide Delete, Enter, Add;
      for i := 0 to |plan.removeIds|
        invariant State() == BuryAll(old(State()), plan.removeIds[..i])
      {
        assert plan.removeIds[..i + 1][..i] == plan.removeIds[..i];
        ids := Add(ids, plan.removeIds[i]);
        pending := Delete(pending, plan.removeIds[i]);
      }
      assert plan.removeIds[..|plan.removeIds|] == plan.removeIds;
      ghost var buried := State();
      for i := 0 to |plan.pendingIds|
        invariant State() == AwaitAll(buried, plan.pendingIds[..i], plan.pubkey)
      {
        assert plan.pendingIds[..i + 1][..i] == plan.pendingIds[..i];
        if plan.pendingIds[i] !in ids.values {
          pending := Enter(pending, plan.pendingIds[i], plan.pubkey);
        }
      }
      assert plan.pendingIds[..|plan.pendingIds|] == plan.pendingIds;
      ghost var awaited := State();
      for i := 0 to |plan.coordinates|
        invariant State() == CloseAll(awaited, plan.coordinates[..i], plan.until)
      {
        assert plan.coordinates[..i + 1][..i] == plan.coordinates[..i];
        var a := plan.coordinates[i];
        var until := if a in coordinates.values && coordinates.values[a] > plan.until then coordinates.values[a] else plan.until;
        coordinates := Enter(Delete(coordinates, a), a, until);
      }
      assert plan.coordinates[..|plan.coordinates|] == plan.coordinates;
    }

    /** No longer awaits the ids whose tombstones are forgotten. */
    method DropAllPending(gone: seq<string>)
      requires WellFormed(pending)
      modifies `pending
      ensures State() == DeletePending(old(State()), gone) && WellFormed(pending)
    {
      for i := 0 to |gone|
        invariant State() == DeletePending(old(State()), gone[..i]) && WellFormed(pending)
      {
        assert gone[..i + 1][..i] == gone[..i];
        DeleteWellFormed(pending, gone[i]);
        pending := Delete(pending, gone[i]);
      }
      assert gone[..|gone|] == gone;
    }

    /** The tombstone part of a capped index: forgets the oldest of each collection. */
    method TrimTo(cap: Option<nat>)
      requires WellFormed(ids) && WellFormed(pending) && WellFormed(coordinates)
      modifies this
      ensures State() == TrimTombstones(old(State()), cap)
    {
      if cap.None? {
        return;
      }
      var trimmed, gone := TrimOldest(ids, cap.value);
      DropAllPending(gone);
      ids := trimmed;
      var left, _ := TrimOldest(pending, cap.value);
      pending := left;
      var open, _ := TrimOldest(coordinates, cap.value);
      coordinates := open;
    }
  }
}
