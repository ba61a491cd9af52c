/**
 * Order independence: a finite set of events, put in any order and with repeats, leaves the same
 * stored events exactly when no place in the store is contested.
 */
module Convergence {
  import opened Results
  import opened Events
  import opened Deletion
  import opened Storage
  import opened StorageInvariants
  import opened StorageSteps
  import opened ConvergenceFacts

  // ---- what the store should hold ----

  /** The place an event takes up: its address, or one of its own. */
  datatype Slot = AtAddress(a: Address) | AtId(id: string)

  function SlotOf(e: Event): Slot {
    var a := EventAddress(e);
    if a.Some? then AtAddress(a.value) else AtId(e.id)
  }

  /** A storable event that no deletion of its address buries. */
  ghost predicate Contender(all: set<Event>, z: Event) {
    z in all && Storable(z) && !BuriedIn(all, z)
  }

  ghost predicate Rivals(all: set<Event>, y: Event, z: Event) {
    Contender(all, y) && SlotOf(y) == SlotOf(z) && y != z
  }

  /** The newest contender for its place. */
  ghost predicate Top(all: set<Event>, z: Event) {
    Contender(all, z) && forall y :: Rivals(all, y, z) ==> Before(z, y)
  }

  /** Deletions, and for each place the newest contender unless its author deleted it by id. */
  ghost predicate Belongs(all: set<Event>, z: Event) {
    z in all && (IsDeletion(z) || (Top(all, z) && !DeletedIn(all, z)))
  }

  /** All contenders for the place of `z` were deleted by their author, and by nobody else. */
  ghost predicate Cleared(all: set<Event>, z: Event) {
    forall y :: Contender(all, y) && SlotOf(y) == SlotOf(z) ==> DeletedIn(all, y) && !ConflictedIn(all, y)
  }

  /** No place is contested: the newest contender stays, or all of them go for good. */
  ghost predicate Uncontested(all: set<Event>) {
    forall z :: Top(all, z) ==> !DeletedIn(all, z) || Cleared(all, z)
  }

  /** Every order of putting `all`, with repeats, leaves the same events. */
  ghost predicate OrderFree(all: set<Event>) {
    forall h, h' :: Seen(h) == all && Seen(h') == all ==> Held(After(h)) == Held(After(h'))
  }

  // ---- the newest contender ----

  lemma {:induction false} TopAmong(all: set<Event>, some: set<Event>, k: Slot, z: Event) returns (w: Event)
    requires OneEventPerId(all) && some <= all && z in some
    requires forall y :: y in some ==> Contender(all, y) && SlotOf(y) == k
    ensures w in some && forall y :: y in some && y != w ==> Before(w, y)
  {
    if some == {z} {
      w := z;
    } else {
      var rest := some - {z};
      assert some == rest + {z};
      var x :| x in rest;
      var v := TopAmong(all, rest, k, x);
      BeforeTotal(v, z);
      w := if Before(v, z) then v else z;
      forall y | y in some && y != w
        ensures Before(w, y)
      {
        if w == z && y != v {
          BeforeTransitive(z, v, y);
        }
      }
    }
  }

  /** Every place with a contender has a newest one. */
  lemma TopExists(all: set<Event>, z: Event) returns (w: Event)
    requires OneEventPerId(all) && Contender(all, z)
    ensures Top(all, w) && SlotOf(w) == SlotOf(z)
  {
    var contenders := set y | y in all && Contender(all, y) && SlotOf(y) == SlotOf(z);
    w := TopAmong(all, contenders, SlotOf(z), z);
  }

  /** The newest contender beats the buried ones as well. */
  lemma TopBeatsAll(all: set<Event>, w: Event, y: Event)
    requires Top(all, w) && y in all && Storable(y) && SlotOf(y) == SlotOf(w) && y != w
    ensures Before(w, y)
  {
    if BuriedIn(all, y) {
      var d :| d in all && IsDeletion(d) && Buries(d, y);
      assert !Buries(d, w);
    } else {
      assert Rivals(all, y, w);
    }
  }

  // ---- what is stored, place by place ----

  ghost predicate Stores(s: Store, z: Event) {
    z.id in s.events && s.events[z.id] == z
  }

  ghost predicate Occupied(s: Store, k: Slot) {
    exists z :: Stores(s, z) && Storable(z) && SlotOf(z) == k
  }

  lemma OnePerSlot(s: Store, y: Event, z: Event)
    requires Filed(s) && Stores(s, y) && Stores(s, z) && SlotOf(y) == SlotOf(z)
    ensures y == z
  {
    if EventAddress(y).Some? {
      assert s.winners[EventAddress(y).value] == y.id == z.id;
    }
  }

  lemma TopEnters(s: Store, seen: set<Event>, all: set<Event>, w: Event, s': Store)
    requires Reached(s, seen, all) && Top(all, w) && !DeletedIn(all, w) && Outcome(s, w, s')
    ensures Stores(s', w)
  {
    if !Stores(s, w) {
      TopFresh(s, seen, all, w);
      var a := EventAddress(w);
      if a.Some? && HasLive(s, a.value) {
        TopBeatsAll(all, w, s.events[s.winners[a.value]]);
      }
    }
  }

  lemma TopSurvives(s: Store, all: set<Event>, w: Event, e: Event, s': Store)
    requires Filed(s) && OneEventPerId(all) && e in all && e != w
    requires Top(all, w) && Outcome(s, e, s') && Stores(s, w)
    ensures Stores(s', w)
  {
    if Storable(e) && SlotOf(e) == SlotOf(w) {
      TopBeatsAll(all, w, e);
      BeforeTotal(w, e);
    }
  }

  /** The newest contender, not deleted by its author, is taken in when it comes and stays. */
  lemma TopOutcome(s: Store, seen: set<Event>, all: set<Event>, w: Event, e: Event, s': Store)
    requires Reached(s, seen, all) && e in all && Top(all, w) && !DeletedIn(all, w) && Outcome(s, e, s')
    requires w in seen ==> Stores(s, w)
    ensures w in seen + {e} ==> Stores(s', w)
  {
    if e == w {
      TopEnters(s, seen, all, w, s');
    } else if w in seen {
      TopSurvives(s, all, w, e, s');
    }
  }

  lemma TopFresh(s: Store, seen: set<Event>, all: set<Event>, w: Event)
    requires Reached(s, seen, all) && Top(all, w) && !DeletedIn(all, w) && !Stores(s, w)
    ensures Fresh(s, w) && !Covers(s.deletion, w)
  {
    if w.id in s.deletion.ids.values {
      var z :| z in seen && z.id == w.id && z.kind != EVENT_DELETION && (DeletedIn(seen, z) || BuriedIn(seen, z));
      assert z == w;
      NotSeenEither(seen, all, w);
      assert false;
    }
    CoveredMeans(s, seen, w);
    NotSeenEither(seen, all, w);
  }

  lemma NotSeenEither(seen: set<Event>, all: set<Event>, z: Event)
    requires seen <= all
    ensures !DeletedIn(all, z) ==> !DeletedIn(seen, z)
    ensures !BuriedIn(all, z) ==> !BuriedIn(seen, z)
  {
  }

  lemma TopNotErased(s: Store, seen: set<Event>, all: set<Event>, w: Event, d: Event)
    requires Reached(s, seen, all) && d in all && IsDeletion(d) && Fresh(s, d)
    requires Top(all, w) && !DeletedIn(all, w) && Stores(s, w)
    ensures Stores(Erasing(s, d), w)
  {
    ErasingEvents(s, all, d);
    assert !Asks(d, w) || d.pubkey != w.pubkey;
    assert !Buries(d, w);
  }

  lemma {:induction false} TopStays(h: seq<Event>, all: set<Event>, w: Event)
    requires Seen(h) <= all && OneEventPerId(all) && Top(all, w) && !DeletedIn(all, w)
    ensures w in Seen(h) ==> Stores(After(h), w)
    decreases |h|
  {
    hide After, Erasing, Outcome;
    if h != [] {
      var before, e := LastPut(h, all);
      TopStays(before, all, w);
      if !IsDeletion(e) {
        TopOutcome(After(before), Seen(before), all, w, e, After(h));
      } else if e !in Seen(before) && w in Seen(before) {
        TopNotErased(After(before), Seen(before), all, w, e);
      }
    }
  }

  /** Its author's deletion of `z` is remembered until `z` comes, and for good once it came. */
  predicate Doomed(s: Store, z: Event) {
    && z.id !in s.events
    && (z.id in s.deletion.ids.values || (z.id in s.deletion.pending.values && s.deletion.pending.values[z.id] == z.pubkey))
  }

  lemma DoomedOutcome(s: Store, z: Event, e: Event, s': Store, all: set<Event>)
    requires OneEventPerId(all) && z in all && e in all && z.kind != EVENT_DELETION
    requires Outcome(s, e, s') && Doomed(s, z)
    ensures Doomed(s', z)
  {
  }

  lemma DoomedErase(s: Store, seen: set<Event>, z: Event, d: Event, all: set<Event>)
    requires Reached(s, seen, all) && z in all && d in all && z.kind != EVENT_DELETION
    requires Fresh(s, d) && d.kind == EVENT_DELETION && !(Asks(d, z) && d.pubkey != z.pubkey)
    ensures Doomed(s, z) || (Asks(d, z) && d.pubkey == z.pubkey) ==> Doomed(Erasing(s, d), z)
  {
    ErasingEvents(s, all, d);
    ErasingIds(s, all, d, z.id);
    ErasingPending(s, all, d, z.id);
  }

  lemma {:induction false} DeletedStaysAway(h: seq<Event>, all: set<Event>, z: Event)
    requires Seen(h) <= all && OneEventPerId(all) && z in all && z.kind != EVENT_DELETION && !ConflictedIn(all, z)
    ensures DeletedIn(Seen(h), z) ==> Doomed(After(h), z)
    decreases |h|
  {
    hide After, Erasing, Outcome, Doomed;
    if h != [] {
      var before, e := LastPut(h, all);
      DeletedStaysAway(before, all, z);
      if IsDeletion(e) && e !in Seen(before) {
        DoomedErase(After(before), Seen(before), z, e, all);
      } else if DeletedIn(Seen(h), z) {
        assert DeletedIn(Seen(before), z);
        if !IsDeletion(e) {
          DoomedOutcome(After(before), z, e, After(h), all);
        }
      }
    }
  }

  // ---- uncontested places: one outcome ----

  lemma HeldBelongs(h: seq<Event>, z: Event)
    requires OneEventPerId(Seen(h)) && Uncontested(Seen(h)) && Stores(After(h), z)
    ensures Belongs(Seen(h), z)
  {
    var all, s := Seen(h), After(h);
    AfterReaches(h, all);
    if !IsDeletion(z) {
      NotBuried(s, all, z);
      var w := TopExists(all, z);
      if DeletedIn(all, w) {
        assert Cleared(all, w);
        DeletedStaysAway(h, all, z);
        assert false;
      } else {
        TopStays(h, all, w);
        OnePerSlot(s, w, z);
      }
    }
  }

  lemma NotBuried(s: Store, seen: set<Event>, z: Event)
    requires Filed(s) && NoneCovered(s) && Facts(s, seen) && Stores(s, z) && !IsDeletion(z)
    ensures Contender(seen, z)
  {
  }

  /** Of an uncontested set the store holds exactly what belongs there, in whatever order it came. */
  lemma HoldsWhatBelongs(h: seq<Event>, z: Event)
    requires OneEventPerId(Seen(h)) && Uncontested(Seen(h))
    ensures z in Held(After(h)) <==> Belongs(Seen(h), z)
  {
    var all, s := Seen(h), After(h);
    AfterReaches(h, all);
    if z in Held(s) {
      HeldBelongs(h, z);
    }
    if Belongs(all, z) && !IsDeletion(z) {
      TopStays(h, all, z);
    }
    if Belongs(all, z) {
      assert Stores(s, z);
    }
  }

  // ---- contested places: two outcomes ----

  lemma SeenAppend(h: seq<Event>, h': seq<Event>)
    ensures Seen(h + h') == Seen(h) + Seen(h')
  {
  }

  ghost function Listed(some: set<Event>): (h: seq<Event>)
    ensures Seen(h) == some
  {
    if some == {} then []
    else
      var x :| x in some;
      var rest := Listed(some - {x});
      assert Seen(rest + [x]) == Seen(rest) + {x};
      rest + [x]
  }

  ghost function AuthorDeletions(all: set<Event>, pubkey: string): set<Event> {
    set d | d in all && IsDeletion(d) && d.pubkey == pubkey
  }

  /** No storable event but `w` is at the place of `w`. */
  ghost predicate OnlyAt(s: Store, w: Event) {
    forall z :: Stores(s, z) && Storable(z) && SlotOf(z) == SlotOf(w) ==> z == w
  }

  lemma OnlyStored(s: Store, w: Event)
    requires Filed(s) && Stores(s, w)
    ensures OnlyAt(s, w)
  {
    forall z | Stores(s, z) && Storable(z) && SlotOf(z) == SlotOf(w)
      ensures z == w
    {
      OnePerSlot(s, z, w);
    }
  }

  lemma DeletionAdds(s: Store, seen: set<Event>, all: set<Event>, w: Event, d: Event)
    requires Reached(s, seen, all) && d in all && w in all && Storable(w) && IsDeletion(d) && Fresh(s, d) && OnlyAt(s, w)
    ensures OnlyAt(Erasing(s, d), w)
    ensures !Stores(s, w) || (Asks(d, w) && d.pubkey == w.pubkey) ==> !Stores(Erasing(s, d), w)
  {
    ErasingEvents(s, all, d);
    forall z | Stores(Erasing(s, d), z) && Storable(z)
      ensures Stores(s, z)
    {
    }
  }

  lemma AfterAppend(h: seq<Event>, h': seq<Event>, all: set<Event>) returns (before: seq<Event>, e: Event)
    requires Seen(h) + Seen(h') <= all && OneEventPerId(all) && h' != []
    ensures h' == before + [e] && |before| == |h'| - 1 && Seen(h') == Seen(before) + {e} && e in all
    ensures Reached(After(h + before), Seen(h) + Seen(before), all)
    ensures IsDeletion(e) && e !in Seen(h) + Seen(before) ==>
              After(h + h') == Erasing(After(h + before), e) && Fresh(After(h + before), e)
    ensures IsDeletion(e) && e in Seen(h) + Seen(before) ==> After(h + h') == After(h + before)
    ensures !IsDeletion(e) ==> Outcome(After(h + before), e, After(h + h'))
  {
    hide After, Erasing, Outcome;
    SeenAppend(h, h');
    var front, last := LastPut(h + h', all);
    before, e := h'[..|h'| - 1], last;
    assert front == (h + h')[..|h + h'| - 1] == h + before;
    assert last == (h + h')[|h + h'| - 1] == h'[|h'| - 1];
    SeenAppend(h, before);
    assert h' == before + [e];
    SeenAppend(before, [e]);
  }

  /** While deletions come in, nothing new takes the place of `w`, and `w` goes when its author asks. */
  lemma {:induction false} DeletionsEmpty(h: seq<Event>, h': seq<Event>, all: set<Event>, w: Event)
    requires OneEventPerId(all) && Seen(h) + Seen(h') <= all && w in all && Storable(w) && Stores(After(h), w)
    requires forall d :: d in Seen(h') ==> IsDeletion(d) && d !in Seen(h)
    ensures OnlyAt(After(h + h'), w)
    ensures DeletedIn(Seen(h'), w) ==> !Stores(After(h + h'), w)
    decreases |h'|
  {
    hide After, Erasing, Outcome, OnlyAt, OneEventPerId;
    if h' == [] {
      assert h + h' == h;
      AfterReaches(h, all);
      OnlyStored(After(h), w);
    } else {
      var before, d := AfterAppend(h, h', all);
      DeletionsEmpty(h, before, all, w);
      if d !in Seen(before) {
        DeletionAdds(After(h + before), Seen(h) + Seen(before), all, w, d);
      } else {
        assert Seen(h') == Seen(before);
      }
    }
  }

  lemma TopOfRest(all: set<Event>, w: Event)
    requires OneEventPerId(all) && Top(all, w)
    ensures var rest := all - AuthorDeletions(all, w.pubkey); OneEventPerId(rest) && Top(rest, w) && !DeletedIn(rest, w)
  {
    var rest := all - AuthorDeletions(all, w.pubkey);
    forall y | Rivals(rest, y, w)
      ensures Before(w, y)
    {
      TopBeatsAll(all, w, y);
    }
  }

  /** Deletions by the author last: the place ends up empty. */
  lemma AuthorLast(all: set<Event>, w: Event) returns (h: seq<Event>)
    requires OneEventPerId(all) && Top(all, w) && DeletedIn(all, w)
    ensures Seen(h) == all && !Occupied(After(h), SlotOf(w))
  {
    hide After, OneEventPerId;
    var mine := AuthorDeletions(all, w.pubkey);
    var rest := all - mine;
    TopOfRest(all, w);
    TopStays(Listed(rest), rest, w);
    DeletionsEmpty(Listed(rest), Listed(mine), all, w);
    assert DeletedIn(mine, w);
    h := Listed(rest) + Listed(mine);
    SeenAppend(Listed(rest), Listed(mine));
  }

  /** No deletion by its author is awaited for `y`. */
  predicate Overlooked(s: Store, y: Event) {
    y.id in s.deletion.pending.values ==> s.deletion.pending.values[y.id] != y.pubkey
  }

  lemma OtherHides(s: Store, seen: set<Event>, all: set<Event>, y: Event, d: Event)
    requires Reached(s, seen, all) && d in all && y in all && Storable(y)
    requires IsDeletion(d) && Fresh(s, d) && d.pubkey != y.pubkey && forall x :: x in seen ==> IsDeletion(x)
    ensures Overlooked(s, y) || Asks(d, y) ==> Overlooked(Erasing(s, d), y)
  {
    ErasingPending(s, all, d, y.id);
    OnlyDeletions(s, seen, all, y);
  }

  /** A deletion `x` by somebody else hides that of the author. */
  lemma {:induction false} OthersHide(h: seq<Event>, h': seq<Event>, all: set<Event>, y: Event, x: Event)
    requires OneEventPerId(all) && Seen(h) + Seen(h') <= all && y in all && Storable(y) && Asks(x, y)
    requires forall d :: d in Seen(h) + Seen(h') ==> IsDeletion(d)
    requires forall d :: d in Seen(h') ==> d.pubkey != y.pubkey && d !in Seen(h)
    ensures x in Seen(h') ==> Overlooked(After(h + h'), y)
    decreases |h'|
  {
    hide After, Erasing, Outcome, Overlooked, OneEventPerId;
    if h' != [] {
      var before, d := AfterAppend(h, h', all);
      OthersHide(h, before, all, y, x);
      if d !in Seen(before) {
        OtherHides(After(h + before), Seen(h) + Seen(before), all, y, d);
      }
    }
  }

  /** As long as only deletions were seen, no storable event is stored or buried by id. */
  lemma OnlyDeletions(s: Store, seen: set<Event>, all: set<Event>, y: Event)
    requires Reached(s, seen, all) && y in all && y.kind != EVENT_DELETION && forall d :: d in seen ==> IsDeletion(d)
    ensures y.id !in s.events && y.id !in s.deletion.ids.values
  {
    if y.id in s.deletion.ids.values {
      var z :| z in seen && z.id == y.id && z.kind != EVENT_DELETION && (DeletedIn(seen, z) || BuriedIn(seen, z));
      assert false;
    }
  }

  /** Once all deletions are in, a place that is taken stays taken. */
  lemma OccupiedOutcome(s: Store, e: Event, s': Store, k: Slot)
    requires Filed(s) && Outcome(s, e, s') && !IsDeletion(e) && Occupied(s, k)
    ensures Occupied(s', k)
  {
    var z :| Stores(s, z) && Storable(z) && SlotOf(z) == k;
    if !Stores(s', z) {
      assert Stores(s', e) && SlotOf(e) == k;
    }
  }

  lemma {:induction false} OccupiedStays(h: seq<Event>, h': seq<Event>, all: set<Event>, k: Slot)
    requires OneEventPerId(all) && Seen(h) + Seen(h') <= all && Occupied(After(h), k)
    requires forall e :: e in Seen(h') ==> !IsDeletion(e)
    ensures Occupied(After(h + h'), k)
    decreases |h'|
  {
    hide After, Erasing, Outcome, Occupied, OneEventPerId;
    if h' == [] {
      assert h + h' == h;
    } else {
      var before, e := AfterAppend(h, h', all);
      OccupiedStays(h, before, all, k);
      OccupiedOutcome(After(h + before), e, After(h + h'), k);
    }
  }

  lemma OverlookedEnters(s: Store, seen: set<Event>, all: set<Event>, y: Event, s': Store)
    requires Reached(s, seen, all) && Contender(all, y) && Overlooked(s, y) && Outcome(s, y, s')
    requires forall d :: d in seen ==> IsDeletion(d)
    ensures Occupied(s', SlotOf(y))
  {
    OnlyDeletions(s, seen, all, y);
    assert !BuriedIn(seen, y);
    assert EventAddress(y).Some? ==> !Closed(s, EventAddress(y).value, y.createdAt);
    assert Stores(s', y);
  }

  ghost function OtherDeletions(all: set<Event>, pubkey: string): set<Event> {
    set d | d in all && IsDeletion(d) && d.pubkey != pubkey
  }

  /** The deletions of the set, those of `pubkey` first. */
  ghost function DeletionsFirst(all: set<Event>, pubkey: string): (h: seq<Event>)
    ensures Seen(h) == AuthorDeletions(all, pubkey) + OtherDeletions(all, pubkey)
  {
    SeenAppend(Listed(AuthorDeletions(all, pubkey)), Listed(OtherDeletions(all, pubkey)));
    Listed(AuthorDeletions(all, pubkey)) + Listed(OtherDeletions(all, pubkey))
  }

  lemma Escapes(all: set<Event>, y: Event)
    requires OneEventPerId(all) && Contender(all, y) && (!DeletedIn(all, y) || ConflictedIn(all, y))
    ensures Overlooked(After(DeletionsFirst(all, y.pubkey)), y)
  {
    hide After, Overlooked, OneEventPerId;
    var first := DeletionsFirst(all, y.pubkey);
    if DeletedIn(all, y) {
      var x :| x in all && Asks(x, y) && x.pubkey != y.pubkey;
      OthersHide(Listed(AuthorDeletions(all, y.pubkey)), Listed(OtherDeletions(all, y.pubkey)), all, y, x);
    } else {
      AfterReaches(first, all);
      PendingIsAsked(After(first), Seen(first), y);
    }
  }

  /** Deletions first, the author's before the others': a contender that escapes them takes the place. */
  lemma AuthorFirst(all: set<Event>, y: Event) returns (h: seq<Event>)
    requires OneEventPerId(all) && Contender(all, y) && (!DeletedIn(all, y) || ConflictedIn(all, y))
    ensures Seen(h) == all && Occupied(After(h), SlotOf(y))
  {
    hide After, Erasing, Outcome, Occupied, Overlooked, OneEventPerId;
    var first := DeletionsFirst(all, y.pubkey);
    var rest := set e | e in all && !IsDeletion(e);
    SeenAppend(first, [y]);
    var before, last := LastPut(first + [y], all);
    assert before == (first + [y])[..|first|] == first && last == (first + [y])[|first|] == y;
    Escapes(all, y);
    OverlookedEnters(After(first), Seen(first), all, y, After(first + [y]));
    OccupiedStays(first + [y], Listed(rest), all, SlotOf(y));
    h := first + [y] + Listed(rest);
    SeenAppend(first + [y], Listed(rest));
  }

  lemma PendingIsAsked(s: Store, seen: set<Event>, y: Event)
    requires KnowsPending(s, seen)
    ensures Overlooked(s, y) || DeletedIn(seen, y)
  {
    if !Overlooked(s, y) {
      var d :| d in seen && IsDeletion(d) && NamesId(d, y.id) && d.pubkey == s.deletion.pending.values[y.id];
      assert Asks(d, y);
    }
  }

  lemma OccupiedDiffers(s: Store, s': Store, all: set<Event>, k: Slot)
    requires Reached(s', all, all) && Occupied(s, k) && !Occupied(s', k)
    ensures Held(s) != Held(s')
  {
    var z :| Stores(s, z) && Storable(z) && SlotOf(z) == k;
    assert z in Held(s) && !Stores(s', z);
  }

  /** A contested place ends up empty in one order, and taken in another. */
  lemma ContestedDiverges(all: set<Event>, w: Event)
    requires OneEventPerId(all) && Top(all, w) && DeletedIn(all, w) && !Cleared(all, w)
    ensures !OrderFree(all)
  {
    hide After, Held, Occupied, OneEventPerId, Reached;
    var y :| Contender(all, y) && SlotOf(y) == SlotOf(w) && (!DeletedIn(all, y) || ConflictedIn(all, y));
    var last := AuthorLast(all, w);
    var first := AuthorFirst(all, y);
    AfterReaches(last, all);
    OccupiedDiffers(After(first), After(last), all, SlotOf(y));
  }

  /** The order of arrival does not matter if and only if no place is contested. */
  lemma ConvergesExactly(all: set<Event>)
    requires OneEventPerId(all)
    ensures OrderFree(all) <==> Uncontested(all)
  {
    if Uncontested(all) {
      forall h, h' | Seen(h) == all && Seen(h') == all
        ensures Held(After(h)) == Held(After(h'))
      {
        forall z
          ensures z in Held(After(h)) <==> z in Held(After(h'))
        {
          HoldsWhatBelongs(h, z);
          HoldsWhatBelongs(h', z);
        }
      }
    } else {
      var w :| Top(all, w) && DeletedIn(all, w) && !Cleared(all, w);
      ContestedDiverges(all, w);
    }
  }

  /** Enough for convergence: nobody deletes the versions of an address by id, and every id is named by one author's deletions only. */
  lemma PlainSetsConverge(all: set<Event>)
    requires OneEventPerId(all)
    requires forall z :: z in all && EventAddress(z).Some? ==> !DeletedIn(all, z)
    requires forall z :: z in all && DeletedIn(all, z) ==> !ConflictedIn(all, z)
    ensures Uncontested(all)
  {
    forall z, y | Top(all, z) && DeletedIn(all, z) && Contender(all, y) && SlotOf(y) == SlotOf(z)
      ensures y == z && !ConflictedIn(all, z)
    {
    }
  }

  // ---- without deletions ----

  ghost predicate NoDeletions(all: set<Event>) {
    forall d :: d in all ==> d.kind != EVENT_DELETION
  }

  /** Without deletions a store holds, in whatever order they came, the newest events of each place. */
  lemma NewestHeld(h: seq<Event>, z: Event)
    requires OneEventPerId(Seen(h)) && NoDeletions(Seen(h))
    ensures z in Held(After(h)) <==>
      && z in Seen(h) && Canonical(z) && !(20000 <= z.kind < 30000)
      && forall y :: y in Seen(h) && Canonical(y) && SamePlace(y, z) && y != z ==> Before(z, y)
  {
    hide Canonical, SamePlace, Held, After, Seen, Rivals, IsEphemeralKind;
    var all := Seen(h);
    assert Uncontested(all) by {
      hide Top;
    }
    HoldsWhatBelongs(h, z);
    if z in all {
      forall y
        ensures Rivals(all, y, z) <==> y in all && Canonical(y) && SamePlace(y, z) && y != z
      {
        RivalIs(all, y, z);
      }
      assert IsEphemeralKind(z.kind) <==> 20000 <= z.kind < 30000 by {
        AddressKinds(z);
      }
    }
  }

  /** Without deletions the rivals of an event are those in its place. */
  lemma RivalIs(all: set<Event>, y: Event, z: Event)
    requires OneEventPerId(all) && NoDeletions(all) && z in all
    ensures Rivals(all, y, z) <==> y in all && Canonical(y) && SamePlace(y, z) && y != z
  {
    hide Canonical, SamePlace, EventAddress;
    SamePlaceIs(y, z);
    AddressKinds(y);
  }

  lemma AddressKinds(e: Event)
    ensures EventAddress(e).Some? ==> !IsEphemeralKind(e.kind)
    ensures IsEphemeralKind(e.kind) <==> 20000 <= e.kind < 30000
  {
  }

  /** Two addressable events of one author and kind with different first `d` values are both held, in either order. */
  lemma DifferentHeld(h: seq<Event>, x: Event, y: Event, a: string, b: string)
    requires Seen(h) == {x, y} && x.id != y.id && Canonical(x) && Canonical(y)
    requires 30000 <= x.kind == y.kind < 40000 && x.pubkey == y.pubkey
    requires HasD(x.tags, a) && HasD(y.tags, b) && a != b
    ensures Held(After(h)) == {x, y}
  {
    hide Canonical, HasD, Held, After, Seen;
    DOnce(x.tags, a);
    DOnce(y.tags, b);
    SamePlaceIs(x, y);
    SamePlaceIs(y, x);
    forall z
      ensures z in Held(After(h)) <==> z in {x, y}
    {
      NewestHeld(h, z);
    }
  }

  // ---- a contested place ----

  function Repeat(c: char, n: nat): string {
    seq(n, _ => c)
  }

  /** A relay list of kind 10002, under an id of 64 times one letter. */
  function RelayListAt(idLetter: char, time: int): Event {
    Event(Repeat(idLetter, 64), Repeat('d', 64), 10002, time, [], "", Repeat('0', 128))
  }

  /** The author asks for the deletion of the newer list by its id. */
  function DeletionOfNewer(): Event {
    Event(Repeat('c', 64), Repeat('d', 64), EVENT_DELETION, 3, [["e", Repeat('b', 64)]], "", Repeat('0', 128))
  }

  /** Three canonical events, two of which share an address, that the third does not close. */
  lemma ExampleEvents()
    ensures
      && var older, newer, d := RelayListAt('a', 1), RelayListAt('b', 2), DeletionOfNewer();
      && OneEventPerId({older, newer, d}) && older.id != newer.id
      && Storable(older) && Storable(newer) && IsDeletion(d) && d.pubkey == older.pubkey == newer.pubkey
      && SlotOf(older) == SlotOf(newer) && Before(newer, older)
  {
    var older, newer, d := RelayListAt('a', 1), RelayListAt('b', 2), DeletionOfNewer();
    assert older.id[0] == 'a' && newer.id[0] == 'b' && d.id[0] == 'c';
    assert EventAddress(older) == EventAddress(newer);
  }

  lemma ExampleNames(e: Event)
    ensures
      && var newer, d := RelayListAt('b', 2), DeletionOfNewer();
      && (NamesId(d, e.id) <==> e.id == newer.id) && !Buries(d, e)
  {
    var newer, d := RelayListAt('b', 2), DeletionOfNewer();
    LowerHex(newer.id);
    assert NamedId(d.tags[0]) == Some(newer.id);
    NamedIdsAre(d.tags, e.id);
    forall a
      ensures a !in NamedAddresses(d.tags, d.pubkey)
    {
      NamedAddressesAre(d.tags, d.pubkey, a);
    }
  }

  /** Two versions of a relay list, of which the author deletes the newer by id: the order of arrival matters. */
  lemma OrderMatters()
    ensures var all := {RelayListAt('a', 1), RelayListAt('b', 2), DeletionOfNewer()};
      OneEventPerId(all) && !Uncontested(all) && !OrderFree(all)
  {
    hide RelayListAt, DeletionOfNewer, Canonical, SlotOf, NamesId, Buries, Before, OneEventPerId, OrderFree;
    var older, newer, d := RelayListAt('a', 1), RelayListAt('b', 2), DeletionOfNewer();
    var all := {older, newer, d};
    ExampleEvents();
    ExampleNames(older);
    ExampleNames(newer);
    assert Contender(all, older) && Contender(all, newer);
    assert Top(all, newer);
    assert Asks(d, newer);
    assert !DeletedIn(all, older);
    ContestedDiverges(all, newer);
  }
}
