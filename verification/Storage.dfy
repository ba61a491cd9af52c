/**
 * The insertion policy (src/storage/put.ts) and the state of the in-memory event index
 * (src/storage/memory-index.ts) as values: put, remove and evict, and the invariants they keep.
 */
module Storage {
  import opened Results
  import opened Events
  import opened Ordered
  import opened Deletion

  datatype PutResult = Accepted | Replaced | Deleted | Duplicate | Ephemeral | Rejected | Invalid

  /** The winner of an address: a stored event, or the mark of an evicted one. */
  datatype Winner = Winner(mark: Mark, evicted: bool)

  /** What the policy may ask a store for. */
  datatype Lookup = Lookup(deletion: Tombstones, byId: map<string, Event>, current: map<Address, Winner>)

  datatype PutDecision =
    | Leave(result: PutResult)
    | Entomb
    | Erase(plan: DeletionPlan, coordIds: seq<string>)
    | Insert(replaceId: Option<string>)

  // ---- the policy ----

  /** The winners at the coordinates that are no newer than the deletion. */
  function CoordinateRemovals(coordinates: seq<Address>, current: map<Address, Winner>, until: int): seq<string> {
    if coordinates == [] then []
    else
      var before, a := CoordinateRemovals(coordinates[..|coordinates| - 1], current, until), coordinates[|coordinates| - 1];
      if a in current && current[a].mark.createdAt <= until then before + [current[a].mark.id] else before
  }

  function CoordinateIds(d: Event, l: Lookup): seq<string> {
    CoordinateRemovals(NamedAddresses(d.tags, d.pubkey), l.current, d.createdAt)
  }

  function Decide(e: Event, l: Lookup): PutDecision {
    if !Canonical(e) then Leave(Invalid)
    else if e.id in l.deletion.ids.values || e.id in l.byId then Leave(Duplicate)
    else if e.kind == EVENT_DELETION then Erase(Plan(e, l.byId), CoordinateIds(e, l))
    else if Covers(l.deletion, e) then Entomb
    else if IsEphemeralKind(e.kind) then Leave(Ephemeral)
    else
      var address := EventAddress(e);
      if address.None? || address.value !in l.current then Insert(None)
      else
        var prev := l.current[address.value];
        if prev.mark.id != e.id && !Wins(MarkOf(e), prev.mark) then Leave(Rejected)
        else if !prev.evicted then Insert(Some(prev.mark.id))
        else Insert(None)
  }

  // ---- the state ----

  datatype Store = Store(
    events: map<string, Event>,
    winners: map<Address, string>,
    deletion: Tombstones,
    watermarks: OrderedMap<Address, Mark>,
    maxTombstones: Option<nat>,
    maxWatermarks: nat
  )

  function NewStore(maxTombstones: Option<nat>, maxWatermarks: nat): Store {
    Store(map[], map[], NO_TOMBSTONES, Empty(), maxTombstones, maxWatermarks)
  }

  predicate HasLive(s: Store, a: Address) {
    a in s.winners && s.winners[a] in s.events
  }

  function CurrentAt(s: Store, a: Address): Option<Winner> {
    if HasLive(s, a) then Some(Winner(MarkOf(s.events[s.winners[a]]), false))
    else if a in s.watermarks.values then Some(Winner(s.watermarks.values[a], true))
    else None
  }

  function LookupOf(s: Store): Lookup {
    Lookup(s.deletion, s.events,
           map a | a in s.winners.Keys + s.watermarks.values.Keys && CurrentAt(s, a).Some? :: CurrentAt(s, a).value)
  }

  /** The address whose watermark carries the id. */
  function MarkedBy(keys: seq<Address>, marks: map<Address, Mark>, id: string): (r: Option<Address>)
    ensures r.Some? ==> r.value in keys && r.value in marks && marks[r.value].id == id
    ensures r.None? ==> forall a :: a in keys && a in marks ==> marks[a].id != id
  {
    if keys == [] then None
    else if keys[0] in marks && marks[keys[0]].id == id then Some(keys[0])
    else MarkedBy(keys[1..], marks, id)
  }

  function DropMark(s: Store, a: Address): Store {
    s.(watermarks := Delete(s.watermarks, a))
  }

  function DropMarkOf(s: Store, id: string): Store {
    var a := MarkedBy(s.watermarks.keys, s.watermarks.values, id);
    if a.None? then s else DropMark(s, a.value)
  }

  function IndexInsert(s: Store, e: Event): Store {
    var s' := s.(events := s.events[e.id := e]);
    var a := EventAddress(e);
    if a.None? then s' else DropMark(s'.(winners := s.winners[a.value := e.id]), a.value)
  }

  function IndexRemove(s: Store, id: string): Store {
    var s' := DropMarkOf(s, id);
    if id !in s.events then s'
    else
      var a := EventAddress(s.events[id]);
      s'.(events := s.events - {id},
          winners := if a.Some? && a.value in s.winners && s.winners[a.value] == id then s.winners - {a.value}
                         else s.winners)
  }

  function RemoveAll(s: Store, ids: seq<string>): Store {
    if ids == [] then s else IndexRemove(RemoveAll(s, ids[..|ids| - 1]), ids[|ids| - 1])
  }

  /** Removes a winner that a coordinate deletion reaches. */
  function Uproot(s: Store, id: string): Store {
    IndexRemove(s.(deletion := s.deletion.(ids := Add(s.deletion.ids, id))), id)
  }

  function UprootAll(s: Store, ids: seq<string>): Store {
    if ids == [] then s else Uproot(UprootAll(s, ids[..|ids| - 1]), ids[|ids| - 1])
  }

  function DropMarksOf(s: Store, ids: seq<string>): Store {
    if ids == [] then s else DropMarkOf(DropMarksOf(s, ids[..|ids| - 1]), ids[|ids| - 1])
  }

  function DropMarks(s: Store, addresses: seq<Address>): Store {
    if addresses == [] then s else DropMark(DropMarks(s, addresses[..|addresses| - 1]), addresses[|addresses| - 1])
  }

  function DeletePending(t: Tombstones, ids: seq<string>): Tombstones {
    if ids == [] then t else
      var t' := DeletePending(t, ids[..|ids| - 1]);
      t'.(pending := Delete(t'.pending, ids[|ids| - 1]))
  }

  /** The oldest tombstones go; the id of a forgotten one is no longer awaited either. */
  function TrimTombstones(t: Tombstones, cap: Option<nat>): Tombstones {
    if cap.None? then t
    else
      var t' := DeletePending(t, t.ids.keys[..Excess(t.ids, cap.value)]);
      Tombstones(Trim(t.ids, cap.value), Trim(t'.pending, cap.value), Trim(t.coordinates, cap.value))
  }

  function Trimmed(s: Store): Store {
    s.(deletion := TrimTombstones(s.deletion, s.maxTombstones))
  }

  // ---- operations ----

  /** A deletion applied: its plan absorbed, the events it reaches removed, itself stored. */
  function ApplyErase(s: Store, d: Event, plan: DeletionPlan, coordIds: seq<string>): Store {
    var t := s.deletion.(pending := Delete(s.deletion.pending, d.id));
    var s' := s.(deletion := Absorb(t, plan));
    IndexInsert(UprootAll(RemoveAll(s', plan.removeIds), coordIds), d)
  }

  function ApplyInsert(s: Store, e: Event, replaceId: Option<string>): Store {
    IndexInsert(if replaceId.None? then s else IndexRemove(s, replaceId.value), e)
  }

  function Apply(s: Store, e: Event, d: PutDecision): Store {
    match d
    case Leave(_) => s
    case Entomb => s.(deletion := Bury(s.deletion, e.id))
    case Erase(plan, coordIds) => ApplyErase(s, e, plan, coordIds)
    case Insert(replaceId) => ApplyInsert(s, e, replaceId)
  }

  function ResultOf(d: PutDecision): PutResult {
    match d
    case Leave(result) => result
    case Entomb => Duplicate
    case Erase(_, _) => Deleted
    case Insert(replaceId) => if replaceId.None? then Accepted else Replaced
  }

  /** A new deletion put: the watermarks of what it names go first. */
  function Erasing(s: Store, d: Event): Store {
    var plan := Plan(d, s.events);
    ApplyErase(DropMarks(DropMarksOf(s, plan.pendingIds), plan.coordinates), d, plan, CoordinateIds(d, LookupOf(s)))
  }

  /** What a put does before the oldest tombstones are forgotten. */
  function Settle(s: Store, e: Event): Store {
    var d := Decide(e, LookupOf(s));
    if d.Erase? then Erasing(s, e) else Apply(s, e, d)
  }

  function Put(s: Store, e: Event): Store {
    Trimmed(Settle(s, e))
  }

  function RemoveOne(s: Store, id: string): Store {
    var s' := IndexRemove(s, Lower(id));
    s'.(deletion := Bury(s'.deletion, Lower(id)))
  }

  function RemoveEach(s: Store, ids: seq<string>): Store {
    if ids == [] then s else RemoveOne(RemoveEach(s, ids[..|ids| - 1]), ids[|ids| - 1])
  }

  function Remove(s: Store, ids: seq<string>): Store {
    Trimmed(RemoveEach(s, ids))
  }

  function SetMark(s: Store, a: Address, m: Mark): Store {
    if s.maxWatermarks == 0 then s
    else s.(watermarks := Trim(Enter(Delete(s.watermarks, a), a, m), s.maxWatermarks))
  }

  function EvictOne(s: Store, id: string): Store {
    var key := Lower(id);
    if key !in s.events then s
    else
      var e := s.events[key];
      var a := EventAddress(e);
      var s' := IndexRemove(s, key);
      if a.Some? && a.value in s.winners && s.winners[a.value] == key then SetMark(s', a.value, MarkOf(e)) else s'
  }

  function Evict(s: Store, ids: seq<string>): Store {
    if ids == [] then s else EvictOne(Evict(s, ids[..|ids| - 1]), ids[|ids| - 1])
  }
}
