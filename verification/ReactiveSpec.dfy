/**
 * What a watch shows, which writes can change it, and what a write physically inserts and removes
 * (src/store/reactive.ts).
 */
module ReactiveSpec {
  import opened Results
  import opened Events
  import opened Ordered
  import opened Deletion
  import opened Storage
  import opened StorageInvariants
  import opened StorageSteps
  import opened Filters
  import opened Listing
  import opened Items
  import P = Fingerprints

  datatype WatchKind = EventWatch(key: string) | AddressWatch(key: string) | QueryWatch(filters: seq<Filter>)

  datatype Snapshot = One(event: Option<Event>) | Many(events: seq<Event>)

  function Stock(s: Store): set<Event> {
    set id | id in s.events :: s.events[id]
  }

  lemma StockOnce(s: Store)
    requires Filed(s)
    ensures OneEventPerId(Stock(s))
    ensures forall e :: e in Stock(s) <==> e.id in s.events && s.events[e.id] == e
  {
  }

  /** What a watch would show if it were computed afresh. */
  ghost function Compute(kind: WatchKind, s: Store): Snapshot
    requires Filed(s)
  {
    match kind
    case EventWatch(key) => One(if key in s.events then Some(s.events[key]) else None)
    case AddressWatch(key) =>
      var a := ParseAddress(key);
      One(if a.Some? && a.value in s.winners then Some(s.events[s.winners[a.value]]) else None)
    case QueryWatch(filters) =>
      StockOnce(s);
      Many(Listing.Query(Stock(s), filters))
  }

  /** What a watch is cached under; `json` writes filters down. */
  datatype CacheKey = EventKey(key: string) | AddressKey(key: string) | QueryKey(fingerprint: string)

  function KeyOf(json: Filter -> string, kind: WatchKind): CacheKey {
    match kind
    case EventWatch(key) => EventKey(key)
    case AddressWatch(key) => AddressKey(key)
    case QueryWatch(filters) => QueryKey(P.Fingerprint(json, filters))
  }

  /** A filter in canonical form has the same answer. */
  lemma CanonicalAnswer(stored: set<Event>, f: Filter)
    requires OneEventPerId(stored)
    ensures Listing.Answer(stored, P.Canonical(f)) == Listing.Answer(stored, f)
  {
    hide Matches, OneEventPerId;
    forall e
      ensures Matches(P.Canonical(f), e) <==> Matches(f, e)
    {
      P.CanonicalMatches(f, e);
    }
    assert (set e | e in stored && Matches(P.Canonical(f), e)) == set e | e in stored && Matches(f, e);
  }

  lemma AnsweredToo(stored: set<Event>, a: seq<Filter>, b: seq<Filter>, e: Event)
    requires OneEventPerId(stored) && multiset(P.CanonicalAll(a)) == multiset(P.CanonicalAll(b))
    requires Listing.Answers(stored, a, e)
    ensures Listing.Answers(stored, b, e)
  {
    hide Listing.Answer, OneEventPerId, P.Canonical;
    var f :| f in a && e in Listing.Answer(stored, f);
    var g := P.Partner(a, b, f);
    CanonicalAnswer(stored, f);
    CanonicalAnswer(stored, g);
  }

  /** Lists of the same canonical filters are answered alike. */
  lemma CanonicalQuery(stored: set<Event>, a: seq<Filter>, b: seq<Filter>)
    requires OneEventPerId(stored) && multiset(P.CanonicalAll(a)) == multiset(P.CanonicalAll(b))
    ensures Listing.Query(stored, a) == Listing.Query(stored, b)
  {
    hide Listing.Answers, OneEventPerId, P.CanonicalAll;
    forall e
      ensures Listing.Answers(stored, a, e) <==> Listing.Answers(stored, b, e)
    {
      if Listing.Answers(stored, a, e) {
        AnsweredToo(stored, a, b, e);
      }
      if Listing.Answers(stored, b, e) {
        AnsweredToo(stored, b, a, e);
      }
    }
    assert (set e | e in stored && Listing.Answers(stored, a, e)) ==
      set e | e in stored && Listing.Answers(stored, b, e);
  }

  /** Watches that share a cache key show the same in every state. */
  lemma SameKeyShows(json: Filter -> string, a: WatchKind, b: WatchKind, s: Store)
    requires P.PrefixFree(json) && Filed(s) && KeyOf(json, a) == KeyOf(json, b)
    ensures Compute(a, s) == Compute(b, s)
  {
    hide Filed, P.PrefixFree, P.Fingerprint, P.CanonicalAll, Listing.Query;
    if a.QueryWatch? {
      StockOnce(s);
      P.FingerprintExactly(json, a.filters, b.filters);
      CanonicalQuery(Stock(s), a.filters, b.filters);
    }
  }

  function SnapshotIds(x: Snapshot): seq<string> {
    match x
    case One(event) => if event.Some? then [event.value.id] else []
    case Many(events) => seq(|events|, i requires 0 <= i < |events| => events[i].id)
  }

  /** A key spelled as the index spells addresses, if it is an address at all. */
  predicate Canonicalized(key: string) {
    ParseAddress(key).Some? ==> ParseAddress(key).value.kind >= 0 && FormatAddress(ParseAddress(key).value) == key
  }

  predicate WellKeyed(kind: WatchKind) {
    (kind.EventWatch? ==> Lower(kind.key) == kind.key) && (kind.AddressWatch? ==> Canonicalized(kind.key))
  }

  /** The coming or going of the event may change what the watch shows. */
  predicate Touches(kind: WatchKind, e: Event) {
    match kind
    case EventWatch(key) => e.id == key
    case AddressWatch(key) => EventAddress(e).Some? && e.kind >= 0 && FormatAddress(EventAddress(e).value) == key
    case QueryWatch(filters) => MatchesAny(filters, e)
  }

  /** A deletion names what the watch is on, stored or not. */
  predicate NamesTarget(e: Event, kind: WatchKind) {
    match kind
    case EventWatch(key) =>
      exists i :: 0 <= i < |e.tags| && |e.tags[i]| > 1 && e.tags[i][0] == "e" && Lower(e.tags[i][1]) == key
    case AddressWatch(key) =>
      exists i :: 0 <= i < |e.tags| && |e.tags[i]| > 1 && e.tags[i][0] == "a" && ParsesTo(e.tags[i][1], key)
    case QueryWatch(_) => false
  }

  predicate ParsesTo(value: string, key: string) {
    ParseAddress(value).Some? && FormatAddress(ParseAddress(value).value) == key
  }

  /** The subscribers of the watch are to hear of the coming or going of the event. */
  predicate Concerns(kind: WatchKind, e: Event) {
    Touches(kind, e) || (e.kind == EVENT_DELETION && NamesTarget(e, kind))
  }

  ghost predicate Concerned(kind: WatchKind, events: set<Event>) {
    exists e :: e in events && Concerns(kind, e)
  }

  /** The event is stored in one of the two states only. */
  predicate Differs(s: Store, s': Store, e: Event) {
    (e in Stock(s)) != (e in Stock(s'))
  }

  lemma {:induction false} SameAnswers(some: set<Event>, more: set<Event>, filters: seq<Filter>)
    requires OneEventPerId(some) && OneEventPerId(more)
    requires forall e :: (e in some) != (e in more) ==> !MatchesAny(filters, e)
    ensures Listing.Query(some, filters) == Listing.Query(more, filters)
  {
    hide Matches, List;
    forall f | f in filters
      ensures Answer(some, f) == Answer(more, f)
    {
      var a, b := set e | e in some && Matches(f, e), set e | e in more && Matches(f, e);
      forall e
        ensures e in a <==> e in b
      {
        assert Matches(f, e) ==> MatchesAny(filters, e);
      }
      assert a == b;
    }
    forall e
      ensures e in some && Answers(some, filters, e) <==> e in more && Answers(more, filters, e)
    {
      if f :| f in filters && e in Answer(some, f) {
        AnswerIsStored(more, f);
        assert e in Members(Answer(more, f));
      }
      if f :| f in filters && e in Answer(more, f) {
        AnswerIsStored(some, f);
        assert e in Members(Answer(some, f));
      }
    }
    assert (set e | e in some && Answers(some, filters, e)) == (set e | e in more && Answers(more, filters, e));
  }

  /** A watch shows the same as long as no event that touches it comes or goes. */
  lemma Untouched(kind: WatchKind, s: Store, s': Store)
    requires Filed(s) && Filed(s') && WellKeyed(kind)
    requires forall e :: Differs(s, s', e) ==> !Touches(kind, e)
    ensures Compute(kind, s) == Compute(kind, s')
  {
    StockOnce(s);
    StockOnce(s');
    match kind
    case EventWatch(key) =>
      if key in s.events {
        assert s.events[key] in Stock(s) && Touches(kind, s.events[key]);
      }
      if key in s'.events {
        assert s'.events[key] in Stock(s') && Touches(kind, s'.events[key]);
      }
    case AddressWatch(key) =>
      var a := ParseAddress(key);
      if a.Some? {
        forall e | Touches(kind, e)
          ensures e in Stock(s) <==> e in Stock(s')
        {
          assert !Differs(s, s', e);
        }
        SameWinner(key, a.value, s, s');
        SameWinner(key, a.value, s', s);
      }
    case QueryWatch(filters) =>
      forall e | (e in Stock(s)) != (e in Stock(s'))
        ensures !MatchesAny(filters, e)
      {
        assert Differs(s, s', e);
      }
      SameAnswers(Stock(s), Stock(s'), filters);
  }

  lemma SameWinner(key: string, a: Address, s: Store, s': Store)
    requires Filed(s) && Filed(s') && Canonicalized(key) && ParseAddress(key) == Some(a)
    requires forall e :: Touches(AddressWatch(key), e) ==> (e in Stock(s) <==> e in Stock(s'))
    ensures a in s.winners ==> a in s'.winners && s'.events[s'.winners[a]] == s.events[s.winners[a]]
  {
    if a in s.winners {
      var e := s.events[s.winners[a]];
      StockOnce(s);
      StockOnce(s');
      assert e in Stock(s) && Touches(AddressWatch(key), e);
      assert e in Stock(s');
    }
  }

  // ---- keys of address watches ----

  lemma {:induction false} DigitsHaveNoColon(n: nat)
    ensures forall i :: 0 <= i < |Digits(n)| ==> Digits(n)[i] != ':'
  {
    DigitsNumber(n);
  }

  lemma LowerPart(s: string, n: nat, m: nat)
    requires n <= m <= |s|
    ensures Lower(Lower(s)[n..m]) == Lower(s)[n..m]
  {
    LowerTwice(s);
    var part := Lower(s)[n..m];
    forall i | 0 <= i < |part|
      ensures Lower(part)[i] == part[i]
    {
      assert part[i] == Lower(s)[n + i] && Lower(Lower(s))[n + i] == Lower(s)[n + i];
    }
  }

  /** What a formatted key is parsed to, if to anything. */
  lemma ParsedKey(a: Address, second: nat)
    requires a.kind >= 0 && IndexOf(FormatAddress(a), ':', |Digits(a.kind)| + 1) == Some(second)
    requires ParseAddress(FormatAddress(a)).Some?
    ensures var key, n := FormatAddress(a), |Digits(a.kind)|;
      && n < second < |key|
      && ParseAddress(key).value == Address(a.kind, Lower(key[n + 1..second]), key[second + 1..])
      && IsHex32(Lower(key[n + 1..second]))
  {
    hide Digits, Lower, IsHex32;
    var key, n := FormatAddress(a), |Digits(a.kind)|;
    DigitsNumber(a.kind);
    DigitsHaveNoColon(a.kind);
    assert key == Digits(a.kind) + [':'] + (Lower(a.pubkey) + ":" + a.identifier);
    assert key[..n] == Digits(a.kind);
    IndexOfIs(key, ':', 0, n);
  }

  /** The key of watchReplaceable is spelled as the index spells it. */
  lemma FormattedKey(a: Address)
    requires a.kind >= 0
    ensures Canonicalized(FormatAddress(a))
  {
    hide Digits, IndexOf, Lower, IsHex32;
    var key, n := FormatAddress(a), |Digits(a.kind)|;
    if ParseAddress(key).Some? {
      SecondColon(a);
      var second := IndexOf(key, ':', n + 1).value;
      ParsedKey(a, second);
      var segment := key[n + 1..second];
      SegmentIsLower(a, n, second, segment);
      assert key[..n] == Digits(a.kind) && key[n] == ':' && key[second] == ':';
      assert key == key[..n] + [':'] + segment + [':'] + key[second + 1..];
      LowerHex(segment);
    }
  }

  lemma SecondColon(a: Address)
    requires a.kind >= 0
    ensures var key, n := FormatAddress(a), |Digits(a.kind)|;
      && n + 1 <= |key|
      && (ParseAddress(key).Some? ==> IndexOf(key, ':', n + 1).Some?)
  {
    hide Digits, Lower, IsHex32;
    var key, n := FormatAddress(a), |Digits(a.kind)|;
    DigitsHaveNoColon(a.kind);
    assert key == Digits(a.kind) + [':'] + (Lower(a.pubkey) + ":" + a.identifier);
    IndexOfIs(key, ':', 0, n);
  }

  /** Up to its second colon a key holds nothing but the lower-case pubkey, or a part of it. */
  lemma SegmentIsLower(a: Address, n: nat, second: nat, segment: string)
    requires a.kind >= 0 && n == |Digits(a.kind)|
    requires IndexOf(FormatAddress(a), ':', n + 1) == Some(second) && segment == FormatAddress(a)[n + 1..second]
    ensures Lower(segment) == segment
  {
    var key := FormatAddress(a);
    var m := n + 1 + |a.pubkey|;
    assert key[m] == ':';
    if second > m {
      FirstIndex(key, ':', n + 1, m);
      assert false;
    }
    assert segment == Lower(a.pubkey)[..second - n - 1];
    LowerPart(a.pubkey, 0, second - n - 1);
    assert Lower(a.pubkey)[0..second - n - 1] == segment;
  }

  lemma {:induction false} FirstIndex(s: string, c: char, from: nat, at: nat)
    requires from <= at < |s| && s[at] == c
    ensures IndexOf(s, c, from).Some? && IndexOf(s, c, from).value <= at
    decreases at - from
  {
    if s[from] != c {
      FirstIndex(s, c, from + 1, at);
    }
  }

  // ---- what a write physically changes ----

  datatype Change = Inserted(event: Event) | Removed(event: Event)

  function RemovalOf(s: Store, id: string): seq<Change> {
    if id in s.events then [Removed(s.events[id])] else []
  }

  function RemovalsOf(s: Store, ids: seq<string>): seq<Change> {
    if ids == [] then [] else RemovalsOf(s, ids[..|ids| - 1]) + RemovalOf(RemoveAll(s, ids[..|ids| - 1]), ids[|ids| - 1])
  }

  /** The callbacks of a put, in order. */
  function PutChanges(s: Store, e: Event): seq<Change> {
    match DecisionFor(s, e)
    case Leave(_) => []
    case Entomb => []
    case Erase(plan, coordIds) => RemovalsOf(s, plan.removeIds + coordIds) + [Inserted(e)]
    case Insert(replaceId) => (if replaceId.Some? then RemovalOf(s, replaceId.value) else []) + [Inserted(e)]
  }

  function LowerIds(ids: seq<string>): seq<string> {
    seq(|ids|, i requires 0 <= i < |ids| => Lower(ids[i]))
  }

  function ChangedEvents(changes: seq<Change>): set<Event> {
    set c | c in changes :: c.event
  }

  lemma {:induction false} RemovalsAre(s: Store, ids: seq<string>, id: string)
    requires Filed(s) && id in s.events && id in ids
    ensures Removed(s.events[id]) in RemovalsOf(s, ids)
  {
    var front, last := ids[..|ids| - 1], ids[|ids| - 1];
    assert ids == front + [last];
    if id in front {
      RemovalsAre(s, front, id);
    } else {
      RemoveAllIs(s, front);
      assert id !in Elements(front);
      assert id in RemoveAll(s, front).events;
    }
  }

  /** Every event that a put adds or takes away has a callback. */
  lemma PutChangesAll(s: Store, u: set<Event>, e: Event, x: Event)
    requires Good(s, u) && OneEventPerId(u) && e in u && Differs(s, Put(s, e), x)
    ensures x in ChangedEvents(PutChanges(s, e))
  {
    hide Decide, Filed;
    var d := DecisionFor(s, e);
    assert Stock(Put(s, e)) == Stock(Settle(s, e));
    if d.Erase? {
      EraseChanges(s, u, e, x);
    } else if d.Insert? {
      InsertChanges(s, e, x);
    } else {
      NothingChanges(s, e);
    }
  }

  lemma NothingChanges(s: Store, e: Event)
    requires DecisionFor(s, e).Leave? || DecisionFor(s, e).Entomb?
    ensures Stock(Settle(s, e)) == Stock(s)
  {
  }

  lemma EraseDecides(s: Store, d: Event)
    requires DecisionFor(s, d).Erase?
    ensures Fresh(s, d) && d.kind == EVENT_DELETION && Settle(s, d) == Erasing(s, d)
    ensures DecisionFor(s, d) == Erase(Plan(d, s.events), CoordinateIds(d, LookupOf(s)))
  {
  }

  lemma EraseChanges(s: Store, u: set<Event>, d: Event, x: Event)
    requires Good(s, u) && OneEventPerId(u) && d in u && DecisionFor(s, d).Erase? && (x in Stock(s)) != (x in Stock(Settle(s, d)))
    ensures x in ChangedEvents(PutChanges(s, d))
  {
    hide Decide, Erasing;
    EraseDecides(s, d);
    var ids := Plan(d, s.events).removeIds + CoordinateIds(d, LookupOf(s));
    var changes := PutChanges(s, d);
    assert changes == RemovalsOf(s, ids) + [Inserted(d)];
    ErasingEvents(s, u, d);
    StockOnce(s);
    if x == d {
      assert Inserted(d) in changes;
    } else {
      assert x in Stock(s);
      RemovedAreErased(s, u, d, x.id);
      assert x.id in ids;
      RemovalsAre(s, ids, x.id);
      assert Removed(x) in changes;
    }
  }

  lemma ReplacedStock(s: Store, s': Store, e: Event, r: Option<string>, x: Event)
    requires Filed(s) && Filed(s') && s'.events == (if r.None? then s.events else s.events - {r.value})[e.id := e]
    requires x != e && (x in Stock(s)) != (x in Stock(s')) && e.id !in s.events
    ensures r.Some? && r.value in s.events && x == s.events[r.value]
  {
    StockOnce(s);
    StockOnce(s');
  }

  lemma InsertChanges(s: Store, e: Event, x: Event)
    requires Filed(s) && DecisionFor(s, e).Insert? && (x in Stock(s)) != (x in Stock(Settle(s, e)))
    ensures x in ChangedEvents(PutChanges(s, e))
  {
    hide Decide, Settle, Filed, Stock;
    Inserting(s, e);
    InsertingReplaces(s, e);
    var r := DecisionFor(s, e).replaceId;
    var changes := PutChanges(s, e);
    assert Inserted(e) in changes;
    if x != e {
      ReplacedStock(s, Settle(s, e), e, r, x);
      assert Removed(s.events[r.value]) in changes;
    }
  }

  lemma RemovedOnce(s: Store, id: string)
    requires Filed(s)
    ensures RemoveOne(s, id).events == s.events - {Lower(id)}
  {
    IndexRemoveIs(s, Lower(id));
  }

  lemma {:induction false} RemovedEach(s: Store, u: set<Event>, ids: seq<string>)
    requires Good(s, u)
    ensures RemoveEach(s, ids).events == s.events - Elements(LowerIds(ids))
  {
    hide RemoveOne, FiledEvents, FiledMarks, NoneCovered, Known;
    if ids != [] {
      var front, last := ids[..|ids| - 1], ids[|ids| - 1];
      RemovedEach(s, u, front);
      RemoveEachKeeps(s, u, front);
      assert LowerIds(ids) == LowerIds(front) + [Lower(last)];
      assert Elements(LowerIds(ids)) == Elements(LowerIds(front)) + {Lower(last)};
      RemovedOnce(RemoveEach(s, front), last);
    } else {
      assert s.events - Elements(LowerIds(ids)) == s.events;
    }
  }

  lemma {:induction false} EvictedAre(s: Store, u: set<Event>, ids: seq<string>)
    requires Good(s, u)
    ensures Evict(s, ids).events == s.events - Elements(LowerIds(ids))
  {
    hide EvictOne, FiledEvents, FiledMarks, NoneCovered, Known;
    if ids != [] {
      var front, last := ids[..|ids| - 1], ids[|ids| - 1];
      EvictedAre(s, u, front);
      EvictKeeps(s, u, front);
      assert LowerIds(ids) == LowerIds(front) + [Lower(last)];
      assert Elements(LowerIds(ids)) == Elements(LowerIds(front)) + {Lower(last)};
      EvictedOne(Evict(s, front), last);
    } else {
      assert s.events - Elements(LowerIds(ids)) == s.events;
    }
  }

  lemma EvictedOne(s: Store, id: string)
    requires Filed(s)
    ensures EvictOne(s, id).events == s.events - {Lower(id)}
  {
    IndexRemoveIs(s, Lower(id));
  }

  lemma StockLeft(s: Store, s': Store, ids: seq<string>, x: Event)
    requires Filed(s) && s'.events == s.events - Elements(ids)
    ensures x in Stock(s') <==> x in Stock(s) && x.id !in ids
  {
    StockOnce(s);
    if x in Stock(s) && x.id !in ids {
      assert s'.events[x.id] == x;
    }
  }

  /** Removing or evicting by id: the callbacks name every event that goes. */
  lemma RemovalChangesAll(s: Store, s': Store, ids: seq<string>, x: Event)
    requires Filed(s) && s'.events == s.events - Elements(ids) && Differs(s, s', x)
    ensures x in ChangedEvents(RemovalsOf(s, ids))
  {
    StockOnce(s);
    StockLeft(s, s', ids, x);
    RemovalsAre(s, ids, x.id);
    assert Removed(x) in RemovalsOf(s, ids);
  }

  // ---- the ids that are left ----

  function IdsAfter(ids: set<string>, changes: seq<Change>): set<string> {
    if changes == [] then ids
    else
      var before, c := IdsAfter(ids, changes[..|changes| - 1]), changes[|changes| - 1];
      if c.Inserted? then before + {c.event.id} else before - {c.event.id}
  }

  // ---- the order of use ----

  type Recency = OrderedSet<string>

  /** #touch: the id moves to the newest end. */
  function Touched(m: Recency, id: string): Recency {
    Ordered.Add(Delete(m, id), id)
  }

  /** The order after these ids were used one after the other. */
  function TouchedAll(m: Recency, uses: seq<string>): Recency {
    if uses == [] then m else Touched(TouchedAll(m, uses[..|uses| - 1]), uses[|uses| - 1])
  }

  /** `y` was used after the last use of `x`. */
  predicate UsedLater(uses: seq<string>, x: string, y: string) {
    exists q :: 0 <= q < |uses| && uses[q] == y && forall p :: q <= p < |uses| ==> uses[p] != x
  }

  lemma {:induction false} WithoutOrder(keys: seq<string>, key: string, i: nat, j: nat)
    requires i < j < |Without(keys, key)|
    ensures exists a, b :: 0 <= a < b < |keys| && keys[a] == Without(keys, key)[i] && keys[b] == Without(keys, key)[j]
  {
    var rest := Without(keys[1..], key);
    if keys[0] == key {
      WithoutOrder(keys[1..], key, i, j);
      var a, b :| 0 <= a < b < |keys| - 1 && keys[1..][a] == rest[i] && keys[1..][b] == rest[j];
      assert keys[a + 1] == rest[i] && keys[b + 1] == rest[j];
    } else if i > 0 {
      WithoutOrder(keys[1..], key, i - 1, j - 1);
      var a, b :| 0 <= a < b < |keys| - 1 && keys[1..][a] == rest[i - 1] && keys[1..][b] == rest[j - 1];
      assert keys[a + 1] == Without(keys, key)[i] && keys[b + 1] == Without(keys, key)[j];
    } else {
      WithoutDistinct(keys[1..], key);
      assert rest[j - 1] in Elements(rest);
      var b :| 0 <= b < |keys| - 1 && keys[1..][b] == rest[j - 1];
      assert keys[0] == Without(keys, key)[0] && keys[b + 1] == Without(keys, key)[j];
    }
  }

  /**
   * The order of use: an id that was used stands before another only if that one was used later. So what eviction
   * takes first was used least recently.
   */
  lemma {:induction false} UsedInOrder(m: Recency, uses: seq<string>, i: nat, j: nat)
    requires WellFormed(m) && i < j < |TouchedAll(m, uses).keys|
    ensures WellFormed(TouchedAll(m, uses))
    ensures var keys := TouchedAll(m, uses).keys; keys[i] in uses ==> UsedLater(uses, keys[i], keys[j])
  {
    hide WellFormed, Touched, Without;
    TouchedFormed(m, uses);
    if uses != [] {
      var n := |uses| - 1;
      var init, id := uses[..n], uses[n];
      var was, keys := TouchedAll(m, init).keys, TouchedAll(m, uses).keys;
      TouchedFormed(m, init);
      TouchedLast(TouchedAll(m, init), id);
      assert keys == Without(was, id) + [id];
      if j < |keys| - 1 {
        WithoutOrder(was, id, i, j);
        var a, b :| 0 <= a < b < |was| && was[a] == keys[i] && was[b] == keys[j];
        UsedInOrder(m, init, a, b);
        NotLast(was, id, i);
        UsedOnce(uses, keys[i], keys[j]);
      } else {
        NotLast(was, id, i);
        assert uses[n] == keys[j] && keys[i] != id;
      }
    }
  }

  lemma NotLast(was: seq<string>, id: string, i: nat)
    requires i < |Without(was, id)|
    ensures Without(was, id)[i] != id
  {
    WithoutDistinct(was, id);
    assert Without(was, id)[i] in Elements(Without(was, id));
  }

  /** One more use, of another id than `x`. */
  lemma UsedOnce(uses: seq<string>, x: string, y: string)
    requires uses != [] && uses[|uses| - 1] != x && (x in uses[..|uses| - 1] ==> UsedLater(uses[..|uses| - 1], x, y))
    ensures x in uses ==> UsedLater(uses, x, y)
  {
    var n := |uses| - 1;
    var init := uses[..n];
    assert uses == init + [uses[n]];
    if x in uses {
      var q :| 0 <= q < n && init[q] == y && forall p :: q <= p < n ==> init[p] != x;
      assert uses[q] == y && forall p :: q <= p < n ==> uses[p] == init[p];
    }
  }

  lemma {:induction false} TouchedFormed(m: Recency, uses: seq<string>)
    requires WellFormed(m)
    ensures WellFormed(TouchedAll(m, uses))
  {
    if uses != [] {
      var n := |uses| - 1;
      TouchedFormed(m, uses[..n]);
      DeleteWellFormed(TouchedAll(m, uses[..n]), uses[n]);
      EnterWellFormed(Delete(TouchedAll(m, uses[..n]), uses[n]), uses[n], ());
    }
  }

  lemma TouchedLast(m: Recency, id: string)
    requires WellFormed(m)
    ensures Touched(m, id).keys == Without(m.keys, id) + [id] && id !in Without(m.keys, id)
  {
    WithoutDistinct(m.keys, id);
    assert id !in Elements(Without(m.keys, id));
  }

  /** What the callback of one change does to the order of use. */
  function Reordered(m: Recency, c: Change): Recency {
    if c.Inserted? then Touched(m, c.event.id) else Delete(m, c.event.id)
  }

  function ReorderedAll(m: Recency, changes: seq<Change>): Recency {
    if changes == [] then m else Reordered(ReorderedAll(m, changes[..|changes| - 1]), changes[|changes| - 1])
  }

  function PutEach(s: Store, events: seq<Event>): Store {
    if events == [] then s else Storage.Put(PutEach(s, events[..|events| - 1]), events[|events| - 1])
  }

  /** The order of use after the events were put one after the other. */
  function PutEachOrder(m: Recency, s: Store, events: seq<Event>): Recency {
    if events == [] then m
    else
      var init, e := events[..|events| - 1], events[|events| - 1];
      ReorderedAll(PutEachOrder(m, s, init), PutChanges(PutEach(s, init), e))
  }

  /** The events of a query are touched from the last to the first. */
  function TouchedBack(m: Recency, events: seq<Event>): Recency {
    if events == [] then m else Touched(TouchedBack(m, events[1..]), events[0].id)
  }

  predicate Spared(id: string, pinned: map<string, nat>, protectedId: Option<string>) {
    id in pinned || protectedId == Some(id)
  }

  /** The ids that go, of `size` stored ones in the order of their use, until `max` are left. */
  function Chosen(order: seq<string>, size: nat, max: nat, pinned: map<string, nat>, protectedId: Option<string>)
    : (evicting: seq<string>)
  {
    if order == [] then []
    else
      var rest := Chosen(order[..|order| - 1], size, max, pinned, protectedId);
      var id := order[|order| - 1];
      if size - |rest| <= max || Spared(id, pinned, protectedId) then rest else rest + [id]
  }

  /**
   * What goes is the least recently used of what may go, no more than is too much, and as much unless all that
   * is left is pinned or protected.
   */
  lemma {:induction false} ChosenAre(order: seq<string>, size: nat, max: nat, pinned: map<string, nat>,
                                     protectedId: Option<string>)
    requires Distinct(order)
    ensures var evicting := Chosen(order, size, max, pinned, protectedId);
      && Distinct(evicting) && Elements(evicting) <= Elements(order)
      && (forall id :: id in evicting ==> !Spared(id, pinned, protectedId))
      && (size <= max ==> evicting == []) && (size > max ==> size - |evicting| >= max)
      && (size - |evicting| <= max || forall id :: id in order && id !in evicting ==> Spared(id, pinned, protectedId))
      && forall i, j :: 0 <= i < j < |order| && order[j] in evicting && order[i] !in evicting ==>
           Spared(order[i], pinned, protectedId)
  {
    hide Spared;
    if order != [] {
      var n := |order| - 1;
      var init, id := order[..n], order[n];
      DistinctInit(order);
      ChosenAre(init, size, max, pinned, protectedId);
      var rest := Chosen(init, size, max, pinned, protectedId);
      assert order == init + [id];
      assert id !in Elements(rest);
      DistinctSnoc(rest, id);
      hide Distinct, Chosen;
      assert Elements(order) == Elements(init) + {id} && Elements(rest + [id]) == Elements(rest) + {id};
    }
  }

  /** Once few enough are left, nothing more is chosen. */
  lemma {:induction false} ChosenEnough(order: seq<string>, i: nat, size: nat, max: nat, pinned: map<string, nat>,
                                        protectedId: Option<string>)
    requires i <= |order| && size - |Chosen(order[..i], size, max, pinned, protectedId)| <= max
    ensures Chosen(order, size, max, pinned, protectedId) == Chosen(order[..i], size, max, pinned, protectedId)
    decreases |order|
  {
    if i == |order| {
      assert order[..i] == order;
    } else {
      var n := |order| - 1;
      assert order[..n][..i] == order[..i];
      ChosenEnough(order[..n], i, size, max, pinned, protectedId);
    }
  }

  lemma {:induction false} IdsAfterAppend(ids: set<string>, a: seq<Change>, b: seq<Change>)
    ensures IdsAfter(ids, a + b) == IdsAfter(IdsAfter(ids, a), b)
  {
    if b == [] {
      assert a + b == a;
    } else {
      IdsAfterAppend(ids, a, b[..|b| - 1]);
      assert (a + b)[..|a + b| - 1] == a + b[..|b| - 1];
    }
  }

  lemma {:induction false} RemovalsIds(s: Store, ids: seq<string>)
    requires Filed(s)
    ensures IdsAfter(s.events.Keys, RemovalsOf(s, ids)) == s.events.Keys - Elements(ids)
  {
    if ids != [] {
      var front, last := ids[..|ids| - 1], ids[|ids| - 1];
      RemovalsIds(s, front);
      RemoveAllIs(s, front);
      RemoveAllFiles(s, front);
      assert Elements(ids) == Elements(front) + {last};
      IdsAfterAppend(s.events.Keys, RemovalsOf(s, front), RemovalOf(RemoveAll(s, front), last));
      OneRemoval(RemoveAll(s, front), last);
    } else {
      assert s.events.Keys - Elements(ids) == s.events.Keys;
    }
  }

  lemma OneRemoval(s: Store, id: string)
    requires FiledEvents(s.events, s.winners)
    ensures IdsAfter(s.events.Keys, RemovalOf(s, id)) == s.events.Keys - {id}
  {
    var changes := RemovalOf(s, id);
    if id in s.events {
      assert changes[..0] == [];
    }
  }

  lemma OneInsertion(ids: set<string>, e: Event)
    ensures IdsAfter(ids, [Inserted(e)]) == ids + {e.id}
  {
    assert [Inserted(e)][..0] == [];
  }

  lemma EraseIdsLeft(s: Store, u: set<Event>, e: Event)
    requires Good(s, u) && OneEventPerId(u) && e in u && DecisionFor(s, e).Erase?
    ensures IdsAfter(s.events.Keys, PutChanges(s, e)) == Settle(s, e).events.Keys
  {
    hide Decide, Erasing, FiledEvents, FiledMarks, NoneCovered, Known, OneEventPerId, IdsAfter, RemovalsOf;
    EraseDecides(s, e);
    var plan, coordIds := Plan(e, s.events), CoordinateIds(e, LookupOf(s));
    ErasingParts(s, u, e);
    RemovalsIds(s, plan.removeIds + coordIds);
    IdsAfterAppend(s.events.Keys, RemovalsOf(s, plan.removeIds + coordIds), [Inserted(e)]);
    OneInsertion(s.events.Keys - Elements(plan.removeIds + coordIds), e);
    assert Elements(plan.removeIds + coordIds) == Elements(plan.removeIds) + Elements(coordIds);
  }

  lemma InsertIdsLeft(s: Store, e: Event)
    requires Filed(s) && DecisionFor(s, e).Insert?
    ensures IdsAfter(s.events.Keys, PutChanges(s, e)) == Settle(s, e).events.Keys
  {
    hide Decide, Settle, FiledEvents, FiledMarks, IdsAfter, RemovalOf;
    var r := DecisionFor(s, e).replaceId;
    Inserting(s, e);
    var before := if r.Some? then RemovalOf(s, r.value) else [];
    IdsAfterAppend(s.events.Keys, before, [Inserted(e)]);
    if r.Some? {
      FiledIs(s);
      OneRemoval(s, r.value);
      OneInsertion(s.events.Keys - {r.value}, e);
    } else {
      NoChange(s.events.Keys);
      OneInsertion(s.events.Keys, e);
    }
  }

  lemma NoChange(ids: set<string>)
    ensures IdsAfter(ids, []) == ids
  {
  }

  /** The callbacks of a put account for the ids stored after it. */
  lemma PutIds(s: Store, u: set<Event>, e: Event)
    requires Good(s, u) && OneEventPerId(u) && e in u
    ensures IdsAfter(s.events.Keys, PutChanges(s, e)) == Put(s, e).events.Keys
  {
    hide Decide, Settle, FiledEvents, FiledMarks, NoneCovered, Known, OneEventPerId, IdsAfter, PutChanges;
    var d := DecisionFor(s, e);
    if d.Erase? {
      EraseIdsLeft(s, u, e);
    } else if d.Insert? {
      InsertIdsLeft(s, e);
    } else {
      LeavesKeys(s, e);
      NoChange(s.events.Keys);
    }
  }

  lemma FiledIs(s: Store)
    requires Filed(s)
    ensures FiledEvents(s.events, s.winners)
  {
  }

  lemma LeavesKeys(s: Store, e: Event)
    requires DecisionFor(s, e).Leave? || DecisionFor(s, e).Entomb?
    ensures Put(s, e).events == s.events && PutChanges(s, e) == []
  {
  }
}
