/**
 * What a put answers and what it stores (src/storage/put.ts), by the stored events and their tags alone.
 */
module PutResults {
  import opened Results
  import opened Events
  import opened Ordered
  import opened Deletion
  import opened Storage
  import opened StorageInvariants
  import opened StorageSteps

  predicate Stored(s: Store, x: Event) {
    x.id in s.events && s.events[x.id] == x
  }

  /** The id is that of a stored event, or of one that is buried. */
  predicate Had(s: Store, e: Event) {
    e.id in s.events || e.id in s.deletion.ids.values
  }

  /** The event may be stored, unless it is too old for its place. */
  predicate Lands(s: Store, e: Event) {
    && Canonical(e) && !Had(s, e) && e.kind != EVENT_DELETION && !Covers(s.deletion, e)
    && !(20000 <= e.kind < 30000)
  }

  /** No stored event is in the place of `e`. */
  ghost predicate Vacant(s: Store, e: Event) {
    forall x :: Stored(s, x) ==> !SamePlace(x, e)
  }

  /** A stored event in the place of `e` comes before it or after it. */
  ghost predicate Newer(s: Store, e: Event) {
    exists x :: Stored(s, x) && SamePlace(x, e) && Before(x, e)
  }

  ghost predicate Older(s: Store, e: Event) {
    exists x :: Stored(s, x) && SamePlace(x, e) && Before(e, x)
  }

  /** The mark of another event that was evicted from the place of `e` is no older. */
  predicate Barred(s: Store, e: Event) {
    && EventAddress(e).Some? && EventAddress(e).value in s.watermarks.values
    && var mark := s.watermarks.values[EventAddress(e).value];
    && mark.id != e.id && !Wins(MarkOf(e), mark)
  }

  /** The one event that a store may hold in the place of another. */
  lemma Incumbent(s: Store, e: Event)
    requires Filed(s)
    ensures
      && var a := EventAddress(e);
      && (Vacant(s, e) <==> a.None? || !HasLive(s, a.value))
      && forall x :: Stored(s, x) ==>
           (SamePlace(x, e) <==> a.Some? && HasLive(s, a.value) && x == s.events[s.winners[a.value]])
  {
    hide EventAddress, SamePlace;
    var a := EventAddress(e);
    forall x
      ensures SamePlace(x, e) <==> EventAddress(x).Some? && EventAddress(x) == a
    {
      SamePlaceIs(x, e);
    }
    if a.Some? && HasLive(s, a.value) {
      assert Stored(s, s.events[s.winners[a.value]]);
    }
  }

  /** When a put gives which answer: the cases exclude each other and leave none out. */
  lemma PutMeans(s: Store, e: Event)
    requires Filed(s)
    ensures
      && var r := ResultOf(DecisionFor(s, e));
      && (r == Invalid <==> !Canonical(e))
      && (r == Duplicate <==> Canonical(e) && (Had(s, e) || (e.kind != EVENT_DELETION && Covers(s.deletion, e))))
      && (r == Deleted <==> Canonical(e) && !Had(s, e) && e.kind == EVENT_DELETION)
      && (r == Ephemeral <==> Canonical(e) && !Had(s, e) && !Covers(s.deletion, e) && 20000 <= e.kind < 30000)
      && (r == Replaced <==> Lands(s, e) && Older(s, e))
      && (r == Rejected <==> Lands(s, e) && (Newer(s, e) || (Vacant(s, e) && Barred(s, e))))
      && (r == Accepted <==> Lands(s, e) && Vacant(s, e) && !Barred(s, e))
  {
    hide Canonical, Covers, EventAddress, SamePlace;
    Incumbent(s, e);
    var a := EventAddress(e);
    if a.Some? && HasLive(s, a.value) {
      var x := s.events[s.winners[a.value]];
      BeforeTotal(e, x);
      assert Stored(s, x);
    }
  }

  // ---- what is stored afterwards ----

  lemma LeavesStored(s: Store, e: Event)
    requires DecisionFor(s, e).Leave? || DecisionFor(s, e).Entomb?
    ensures Put(s, e).events == s.events
  {
  }

  lemma ErasesStored(s: Store, u: set<Event>, e: Event)
    requires Good(s, u) && OneEventPerId(u) && e in u && DecisionFor(s, e).Erase?
    ensures forall x :: Stored(Put(s, e), x) <==> x == e || (Stored(s, x) && !Erases(e, x))
  {
    hide Decide, Put, Erasing, Erases, FiledMarks, FiledTombstones, OneEventPerId, NoneCovered, Known;
    ErasingDecided(s, e);
    ErasingEvents(s, u, e);
  }

  lemma ErasingDecided(s: Store, e: Event)
    requires DecisionFor(s, e).Erase?
    ensures Put(s, e).events == Erasing(s, e).events && Fresh(s, e) && e.kind == EVENT_DELETION
  {
    hide Canonical, Covers, Plan, CoordinateIds, Erasing, EventAddress;
  }

  lemma InsertsStored(s: Store, e: Event)
    requires Filed(s) && DecisionFor(s, e).Insert?
    ensures forall x :: Stored(Put(s, e), x) <==> x == e || (Stored(s, x) && !SamePlace(x, e))
  {
    hide Decide, Settle, SamePlace, EventAddress, FiledMarks, FiledTombstones;
    Inserting(s, e);
    InsertingReplaces(s, e);
    Incumbent(s, e);
    assert Put(s, e).events == Settle(s, e).events;
  }

  /**
   * What is stored after a put, by its answer: an accepted event joins, one that replaces takes the place over, and a
   * deletion joins and takes away what it erases. All other answers leave everything as it was.
   */
  lemma PutStores(s: Store, u: set<Event>, e: Event, x: Event)
    requires Good(s, u) && OneEventPerId(u) && e in u
    ensures
      && var r := ResultOf(DecisionFor(s, e));
      && Stored(Put(s, e), x) <==>
           if r == Accepted || r == Replaced then x == e || (Stored(s, x) && !SamePlace(x, e))
           else if r == Deleted then x == e || (Stored(s, x) && !Erases(e, x))
           else Stored(s, x)
  {
    hide Decide, Put, Erases, SamePlace, Filed, NoneCovered, Known, Stored;
    var d := DecisionFor(s, e);
    LeaveResults(s, e);
    match d
    case Leave(_) => LeavesSame(s, e, x);
    case Entomb => LeavesSame(s, e, x);
    case Erase(_, _) => ErasesStored(s, u, e);
    case Insert(_) => InsertsStored(s, e);
  }

  lemma LeavesSame(s: Store, e: Event, x: Event)
    requires DecisionFor(s, e).Leave? || DecisionFor(s, e).Entomb?
    ensures Stored(Put(s, e), x) <==> Stored(s, x)
  {
    hide Put, Decide;
    LeavesStored(s, e);
  }

  lemma LeaveResults(s: Store, e: Event)
    ensures
      && var d := DecisionFor(s, e);
      && (d.Leave? ==> d.result == Invalid || d.result == Duplicate || d.result == Ephemeral || d.result == Rejected)
  {
    hide Canonical, Covers, Plan, CoordinateIds, EventAddress;
  }

  // ---- what was removed ----

  lemma {:induction false} RemovedBuried(s: Store, ids: seq<string>, i: nat)
    requires i < |ids|
    ensures Lower(ids[i]) in RemoveEach(s, ids).deletion.ids.values
  {
    hide Lower, IndexRemove;
    var n := |ids| - 1;
    RemovalsKeep(RemoveEach(s, ids[..n]), ids[n]);
    if i < n {
      RemovedBuried(s, ids[..n], i);
    }
  }

  lemma RemovalsKeep(s: Store, id: string)
    ensures RemoveOne(s, id).deletion.ids.values == s.deletion.ids.values[Lower(id) := ()]
  {
    hide Lower, MarkedBy, EventAddress, Without;
  }

  lemma {:induction false} CapStays(s: Store, ids: seq<string>)
    ensures RemoveEach(s, ids).maxTombstones == s.maxTombstones
  {
    hide Lower, MarkedBy, EventAddress, Without;
    if ids != [] {
      CapStays(s, ids[..|ids| - 1]);
    }
  }

  /** A put of an event that was removed is answered as one of a duplicate, while no tombstone is forgotten. */
  lemma RemovedForGood(s: Store, ids: seq<string>, i: nat, e: Event)
    requires s.maxTombstones.None? && i < |ids| && Lower(ids[i]) == e.id && Canonical(e)
    ensures ResultOf(DecisionFor(Remove(s, ids), e)) == Duplicate
    ensures Put(Remove(s, ids), e).events == Remove(s, ids).events
  {
    hide Lower, Canonical, RemoveEach;
    RemovedBuried(s, ids, i);
    CapStays(s, ids);
    LeavesStored(Remove(s, ids), e);
  }

  // ---- what a deletion erases ----

  /** An e tag of the deletion names the id. */
  predicate TagsId(d: Event, id: string) {
    exists i :: 0 <= i < |d.tags| && |d.tags[i]| > 1 && d.tags[i][0] == "e" && Lower(d.tags[i][1]) == id
  }

  /** An a tag of the deletion spells an address of its author's own, and that of `x` is the one. */
  ghost predicate TagsPlace(d: Event, x: Event) {
    exists i, a, kind, pubkey ::
      && 0 <= i < |d.tags| && |d.tags[i]| > 1 && d.tags[i][0] == "a" && Spells(d.tags[i][1], a, kind, pubkey)
      && a.pubkey == d.pubkey && EventAddress(x) == Some(a)
  }

  /** A deletion erases what its e tags name, if it is by the same author, and what was in the place of its a tags. */
  lemma ErasesMeans(d: Event, x: Event)
    requires IsHex32(x.id)
    ensures Erases(d, x) <==>
      && x.kind != EVENT_DELETION
      && ((x.pubkey == d.pubkey && TagsId(d, x.id)) || (x.createdAt <= d.createdAt && TagsPlace(d, x)))
  {
    NamesMeans(d, x.id);
    PlaceMeans(d, x);
    hide NamesId, NamesAddress, TagsId, TagsPlace, EventAddress;
  }

  lemma NamesMeans(d: Event, id: string)
    requires IsHex32(id)
    ensures NamesId(d, id) <==> TagsId(d, id)
  {
    hide IsHex32, Lower;
    NamedIdsAre(d.tags, id);
    if i :| 0 <= i < |d.tags| && NamedId(d.tags[i]) == Some(id) {
      assert Lower(d.tags[i][1]) == id;
    }
    if i :| 0 <= i < |d.tags| && |d.tags[i]| > 1 && d.tags[i][0] == "e" && Lower(d.tags[i][1]) == id {
      assert NamedId(d.tags[i]) == Some(id);
    }
  }

  lemma PlaceMeans(d: Event, x: Event)
    ensures EventAddress(x).Some? && NamesAddress(d, EventAddress(x).value) <==> TagsPlace(d, x)
  {
    hide ParseAddress, EventAddress, Spells, NamedAddresses;
    if EventAddress(x).Some? {
      var a := EventAddress(x).value;
      NamedAddressesAre(d.tags, d.pubkey, a);
      if i :| 0 <= i < |d.tags| && NamedAddress(d.tags[i], d.pubkey) == Some(a) {
        ParseExactly(d.tags[i][1], a);
        var kind, pubkey :| Spells(d.tags[i][1], a, kind, pubkey);
      }
      if i, b, kind, pubkey :|
        && 0 <= i < |d.tags| && |d.tags[i]| > 1 && d.tags[i][0] == "a" && Spells(d.tags[i][1], b, kind, pubkey)
        && b.pubkey == d.pubkey && EventAddress(x) == Some(b)
      {
        ParseExactly(d.tags[i][1], a);
        assert NamedAddress(d.tags[i], d.pubkey) == Some(a);
      }
    }
  }
}
