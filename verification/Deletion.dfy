/** NIP-09 deletions: the plan of a kind 5 event and the tombstones it leaves (src/storage/deletion.ts). */
module Deletion {
  import opened Results
  import opened Events
  import opened Ordered

  datatype Tombstones = Tombstones(
    ids: OrderedSet<string>,
    pending: OrderedMap<string, string>,
    coordinates: OrderedMap<Address, int>
  )

  const NO_TOMBSTONES: Tombstones := Tombstones(Empty(), Empty(), Empty())

  /** What a deletion does to a store: `until` of every coordinate is the deletion's own time. */
  datatype DeletionPlan = DeletionPlan(
    pubkey: string,
    removeIds: seq<string>,
    pendingIds: seq<string>,
    coordinates: seq<Address>,
    until: int
  )

  // ---- what a deletion refers to ----

  function NamedId(tag: Tag): Option<string> {
    if |tag| > 1 && tag[0] == "e" && IsHex32(Lower(tag[1])) then Some(Lower(tag[1])) else None
  }

  function NamedAddress(tag: Tag, pubkey: string): Option<Address> {
    if |tag| > 1 && tag[0] == "a" && ParseAddress(tag[1]).Some? && ParseAddress(tag[1]).value.pubkey == pubkey then
      ParseAddress(tag[1])
    else None
  }

  function Append<T(==)>(known: seq<T>, found: Option<T>): seq<T> {
    if found.None? || found.value in known then known else known + [found.value]
  }

  /** The ids in the e tags, each once, in order of first appearance. */
  function NamedIds(tags: seq<Tag>): seq<string> {
    if tags == [] then [] else Append(NamedIds(tags[..|tags| - 1]), NamedId(tags[|tags| - 1]))
  }

  /** The coordinates of the author's own in the a tags. */
  function NamedAddresses(tags: seq<Tag>, pubkey: string): seq<Address> {
    if tags == [] then []
    else Append(NamedAddresses(tags[..|tags| - 1], pubkey), NamedAddress(tags[|tags| - 1], pubkey))
  }

  /** The deletion `d` asks for the event behind id to be deleted. */
  predicate NamesId(d: Event, id: string) {
    id in NamedIds(d.tags)
  }

  /** The deletion `d` asks for everything at the address up to its own time to be deleted. */
  predicate NamesAddress(d: Event, a: Address) {
    a in NamedAddresses(d.tags, d.pubkey)
  }

  lemma {:induction false} NamedIdsAre(tags: seq<Tag>, id: string)
    ensures id in NamedIds(tags) <==> exists i :: 0 <= i < |tags| && NamedId(tags[i]) == Some(id)
  {
    if tags != [] {
      var n := |tags| - 1;
      NamedIdsAre(tags[..n], id);
      assert forall i :: 0 <= i < n ==> tags[..n][i] == tags[i];
    }
  }

  lemma {:induction false} NamedAddressesAre(tags: seq<Tag>, pubkey: string, a: Address)
    ensures a in NamedAddresses(tags, pubkey) <==> exists i :: 0 <= i < |tags| && NamedAddress(tags[i], pubkey) == Some(a)
    ensures a in NamedAddresses(tags, pubkey) ==> a.pubkey == pubkey
  {
    if tags != [] {
      var n := |tags| - 1;
      NamedAddressesAre(tags[..n], pubkey, a);
      assert forall i :: 0 <= i < n ==> tags[..n][i] == tags[i];
    }
  }

  // ---- the plan ----

  predicate Removable(byId: map<string, Event>, id: string, pubkey: string) {
    id in byId && byId[id].kind != EVENT_DELETION && byId[id].pubkey == pubkey
  }

  function Removals(ids: seq<string>, byId: map<string, Event>, pubkey: string): seq<string> {
    if ids == [] then []
    else
      var before, id := Removals(ids[..|ids| - 1], byId, pubkey), ids[|ids| - 1];
      if Removable(byId, id, pubkey) then before + [id] else before
  }

  function Missing(ids: seq<string>, byId: map<string, Event>): seq<string> {
    if ids == [] then []
    else
      var before, id := Missing(ids[..|ids| - 1], byId), ids[|ids| - 1];
      if id in byId then before else before + [id]
  }

  function Plan(d: Event, byId: map<string, Event>): DeletionPlan {
    var ids := NamedIds(d.tags);
    DeletionPlan(d.pubkey, Removals(ids, byId, d.pubkey), Missing(ids, byId), NamedAddresses(d.tags, d.pubkey), d.createdAt)
  }

  lemma {:induction false} RemovalsAre(ids: seq<string>, byId: map<string, Event>, pubkey: string, id: string)
    ensures id in Removals(ids, byId, pubkey) <==> id in ids && Removable(byId, id, pubkey)
  {
    if ids != [] {
      RemovalsAre(ids[..|ids| - 1], byId, pubkey, id);
      assert ids == ids[..|ids| - 1] + [ids[|ids| - 1]];
    }
  }

  lemma {:induction false} MissingAre(ids: seq<string>, byId: map<string, Event>, id: string)
    ensures id in Missing(ids, byId) <==> id in ids && id !in byId
  {
    if ids != [] {
      MissingAre(ids[..|ids| - 1], byId, id);
      assert ids == ids[..|ids| - 1] + [ids[|ids| - 1]];
    }
  }

  // ---- tombstones ----

  predicate Covers(t: Tombstones, e: Event) {
    e.id in t.ids.values ||
    (e.kind != EVENT_DELETION &&
     ((e.id in t.pending.values && t.pending.values[e.id] == e.pubkey) ||
      (EventAddress(e).Some? && EventAddress(e).value in t.coordinates.values &&
       e.createdAt <= t.coordinates.values[EventAddress(e).value])))
  }

  function Bury(t: Tombstones, id: string): Tombstones {
    t.(ids := Add(t.ids, id), pending := Delete(t.pending, id))
  }

  function BuryAll(t: Tombstones, ids: seq<string>): Tombstones {
    if ids == [] then t else Bury(BuryAll(t, ids[..|ids| - 1]), ids[|ids| - 1])
  }

  function Await(t: Tombstones, id: string, pubkey: string): Tombstones {
    if id in t.ids.values then t else t.(pending := Enter(t.pending, id, pubkey))
  }

  function AwaitAll(t: Tombstones, ids: seq<string>, pubkey: string): Tombstones {
    if ids == [] then t else Await(AwaitAll(t, ids[..|ids| - 1], pubkey), ids[|ids| - 1], pubkey)
  }

  function Later(t: Tombstones, a: Address, until: int): int {
    if a in t.coordinates.values && t.coordinates.values[a] > until then t.coordinates.values[a] else until
  }

  /** A coordinate moves to the newest end and keeps its latest time. */
  function Close(t: Tombstones, a: Address, until: int): Tombstones {
    t.(coordinates := Enter(Delete(t.coordinates, a), a, Later(t, a, until)))
  }

  function CloseAll(t: Tombstones, coordinates: seq<Address>, until: int): Tombstones {
    if coordinates == [] then t
    else Close(CloseAll(t, coordinates[..|coordinates| - 1], until), coordinates[|coordinates| - 1], until)
  }

  function Absorb(t: Tombstones, plan: DeletionPlan): Tombstones {
    CloseAll(AwaitAll(BuryAll(t, plan.removeIds), plan.pendingIds, plan.pubkey), plan.coordinates, plan.until)
  }

  // ---- what absorbing a plan changes ----

  lemma {:induction false} BuryAllAt(t: Tombstones, ids: seq<string>, id: string)
    ensures var r := BuryAll(t, ids);
            && (id in r.ids.values <==> id in t.ids.values || id in ids)
            && (id in r.pending.values <==> id in t.pending.values && id !in ids)
            && (id in r.pending.values ==> r.pending.values[id] == t.pending.values[id])
            && r.coordinates == t.coordinates
  {
    if ids != [] {
      BuryAllAt(t, ids[..|ids| - 1], id);
      assert ids == ids[..|ids| - 1] + [ids[|ids| - 1]];
    }
  }

  lemma {:induction false} AwaitAllAt(t: Tombstones, ids: seq<string>, pubkey: string, id: string)
    ensures var r := AwaitAll(t, ids, pubkey);
            && r.ids == t.ids && r.coordinates == t.coordinates
            && (id in r.pending.values <==> id in t.pending.values || (id in ids && id !in t.ids.values))
            && (id in r.pending.values ==>
                  r.pending.values[id] == if id in ids && id !in t.ids.values then pubkey else t.pending.values[id])
  {
    if ids != [] {
      AwaitAllAt(t, ids[..|ids| - 1], pubkey, id);
      assert ids == ids[..|ids| - 1] + [ids[|ids| - 1]];
    }
  }

  lemma {:induction false} CloseAllAt(t: Tombstones, coordinates: seq<Address>, until: int, a: Address)
    ensures var r := CloseAll(t, coordinates, until);
            && r.ids == t.ids && r.pending == t.pending
            && (a in r.coordinates.values <==> a in t.coordinates.values || a in coordinates)
            && (a in r.coordinates.values ==>
                  r.coordinates.values[a] == if a in coordinates then Later(t, a, until) else t.coordinates.values[a])
  {
    if coordinates != [] {
      CloseAllAt(t, coordinates[..|coordinates| - 1], until, a);
      assert coordinates == coordinates[..|coordinates| - 1] + [coordinates[|coordinates| - 1]];
    }
  }
}
