/** How IndexedDB answers a filter: which cursors it opens, and what comes out (src/storage/idb-query.ts). */
module IdbQuery {
  import opened Results
  import opened Events
  import opened Filters
  import opened Listing
  import M = Merge

  const MAX_MERGE_CURSORS := 64
  const MAX_SAFE_INTEGER := 0x1F_FFFF_FFFF_FFFF

  datatype ScanError = BadRange | CursorFailed

  /** A cursor over one of the indexes; the range of times comes from the filter. */
  datatype Opener =
    | FullScan
    | KindCursor(kind: int)
    | PubkeyCursor(pubkey: string)
    | KindPubkeyCursor(kind: int, pubkey: string)
    | TagCursor(name: string, value: string)

  function From(f: Filter): int {
    if f.since.Some? then f.since.value else 0
  }

  function To(f: Filter): int {
    if f.until.Some? then f.until.value else MAX_SAFE_INTEGER
  }

  /** The times a cursor reaches: an open end stops at 0 or at the largest safe integer. */
  predicate InReach(f: Filter, e: Event) {
    From(f) <= e.createdAt <= To(f)
  }

  predicate Selects(o: Opener, e: Event) {
    match o
    case FullScan => true
    case KindCursor(kind) => e.kind == kind
    case PubkeyCursor(pubkey) => e.pubkey == pubkey
    case KindPubkeyCursor(kind, pubkey) => e.kind == kind && e.pubkey == pubkey
    case TagCursor(name, value) => exists tag :: tag in e.tags && |tag| > 1 && tag[0] == name && Lower(tag[1]) == value
  }

  /** The rows of a cursor: what it selects within reach, newest first, ties in any order. */
  ghost predicate CursorOver(rows: seq<M.Row>, stored: set<Event>, f: Filter, o: Opener) {
    M.Descending(rows) && M.Contents(rows) == set e | e in stored && InReach(f, e) && Selects(o, e)
  }

  // ---- the plan ----

  /** The e and p constraints of a filter, value by value. */
  method EpTagPrefixes(f: Filter) returns (r: seq<Opener>)
    ensures forall o :: o in r <==> o.TagCursor? && (o.name == "e" || o.name == "p") && o.name in f.tags &&
                                    exists v :: v in f.tags[o.name] && Lower(v) == o.value
  {
    var e := TagPrefixes(f, "e");
    var p := TagPrefixes(f, "p");
    r := e + p;
  }

  method TagPrefixes(f: Filter, name: string) returns (r: seq<Opener>)
    ensures forall o :: o in r <==> o.TagCursor? && o.name == name && name in f.tags &&
                                    exists v :: v in f.tags[name] && Lower(v) == o.value
  {
    r := [];
    if name in f.tags {
      var values := f.tags[name];
      for i := 0 to |values|
        invariant forall o :: o in r <==> o.TagCursor? && o.name == name && exists v :: v in values[..i] && Lower(v) == o.value
      {
        assert forall v :: v in values[..i + 1] <==> v in values[..i] || v == values[i];
        r := r + [TagCursor(name, Lower(values[i]))];
      }
      assert values[..|values|] == values;
    }
  }

  method KindCursors(kinds: seq<int>) returns (r: seq<Opener>)
    ensures |r| == |kinds| && forall kind :: kind in kinds ==> KindCursor(kind) in r
  {
    r := [];
    for i := 0 to |kinds|
      invariant |r| == i && forall j :: 0 <= j < i ==> KindCursor(kinds[j]) in r
    {
      r := r + [KindCursor(kinds[i])];
    }
  }

  method PubkeyCursors(authors: seq<string>) returns (r: seq<Opener>)
    ensures |r| == |authors| && forall pk :: pk in authors ==> PubkeyCursor(Lower(pk)) in r
  {
    r := [];
    for i := 0 to |authors|
      invariant |r| == i && forall j :: 0 <= j < i ==> PubkeyCursor(Lower(authors[j])) in r
    {
      r := r + [PubkeyCursor(Lower(authors[i]))];
    }
  }

  method KindPubkeyCursors(kinds: seq<int>, authors: seq<string>) returns (r: seq<Opener>)
    ensures |r| == |authors| * |kinds|
    ensures forall kind, pk :: kind in kinds && pk in authors ==> KindPubkeyCursor(kind, Lower(pk)) in r
  {
    r := [];
    for i := 0 to |kinds|
      invariant |r| == |authors| * i
      invariant forall j, k :: 0 <= j < i && 0 <= k < |authors| ==> KindPubkeyCursor(kinds[j], Lower(authors[k])) in r
    {
      ghost var before := r;
      for k := 0 to |authors|
        invariant |r| == |authors| * i + k && before <= r
        invariant forall l :: 0 <= l < k ==> KindPubkeyCursor(kinds[i], Lower(authors[l])) in r
      {
        r := r + [KindPubkeyCursor(kinds[i], Lower(authors[k]))];
      }
    }
  }

  /** Some cursor of the plan selects every event that the filter matches. */
  ghost predicate Covers(plan: seq<Opener>, f: Filter) {
    forall e :: Matches(f, e) ==> exists o :: o in plan && Selects(o, e)
  }

  /** Chooses the cursors; past the cap it opens fewer and wider ones. */
  method Plan(f: Filter) returns (plan: seq<Opener>)
    requires f.ids.None?
    ensures |plan| <= MAX_MERGE_CURSORS && Covers(plan, f)
  {
    if f.authors.Some? && f.kinds.Some? {
      if |f.authors.value| * |f.kinds.value| > MAX_MERGE_CURSORS {
        if |f.kinds.value| <= MAX_MERGE_CURSORS {
          plan := KindCursors(f.kinds.value);
          forall e | Matches(f, e)
            ensures exists o :: o in plan && Selects(o, e)
          {
            assert Selects(KindCursor(e.kind), e);
          }
        } else {
          plan := ScanAll(f);
        }
      } else {
        plan := KindPubkeyCursors(f.kinds.value, f.authors.value);
        forall e | Matches(f, e)
          ensures exists o :: o in plan && Selects(o, e)
        {
          var pk :| pk in f.authors.value && Lower(pk) == e.pubkey;
          assert Selects(KindPubkeyCursor(e.kind, Lower(pk)), e);
        }
      }
    } else if f.authors.Some? {
      if |f.authors.value| > MAX_MERGE_CURSORS {
        plan := ScanAll(f);
      } else {
        plan := PubkeyCursors(f.authors.value);
        forall e | Matches(f, e)
          ensures exists o :: o in plan && Selects(o, e)
        {
          var pk :| pk in f.authors.value && Lower(pk) == e.pubkey;
          assert Selects(PubkeyCursor(Lower(pk)), e);
        }
      }
    } else if f.kinds.Some? {
      if |f.kinds.value| > MAX_MERGE_CURSORS {
        plan := ScanAll(f);
      } else {
        plan := KindCursors(f.kinds.value);
        forall e | Matches(f, e)
          ensures exists o :: o in plan && Selects(o, e)
        {
          assert Selects(KindCursor(e.kind), e);
        }
      }
    } else {
      var tags := EpTagPrefixes(f);
      if |tags| > MAX_MERGE_CURSORS || |tags| == 0 {
        plan := ScanAll(f);
      } else {
        plan := tags;
        TagsCover(plan, f);
      }
    }
  }

  method ScanAll(f: Filter) returns (plan: seq<Opener>)
    ensures plan == [FullScan] && Covers(plan, f)
  {
    plan := [FullScan];
    forall e | Matches(f, e)
      ensures exists o :: o in plan && Selects(o, e)
    {
      assert plan[0] in plan && Selects(plan[0], e);
    }
  }

  lemma TagsCover(plan: seq<Opener>, f: Filter)
    requires plan != []
    requires forall o :: o in plan <==> o.TagCursor? && (o.name == "e" || o.name == "p") && o.name in f.tags &&
                                        exists v :: v in f.tags[o.name] && Lower(v) == o.value
    ensures Covers(plan, f)
  {
    forall e | Matches(f, e)
      ensures exists o :: o in plan && Selects(o, e)
    {
      assert plan[0] in plan;
      var name := plan[0].name;
      assert HasTag(e, name, f.tags[name]);
      var tag :| tag in e.tags && TagHits(tag, name, f.tags[name]);
      var v :| v in f.tags[name] && TagKey(name, v) == TagKey(name, tag[1]);
      assert Selects(TagCursor(name, Lower(v)), e);
    }
  }

  // ---- the scan ----

  /** The stored events a scan can find: by id any, otherwise those within reach of its cursors. */
  function Findable(stored: set<Event>, f: Filter, accept: Event -> bool): set<Event> {
    set e | e in stored && accept(e) && (f.ids.Some? || InReach(f, e))
  }

  /** The range of an open or empty interval is refused by the database. */
  predicate Refused(f: Filter) {
    && f.limit != Some(0) && f.ids.None? && From(f) > To(f)
    && !(f.since.Some? && f.until.Some?)
  }

  /** The accepted events among the ids, each once, as the rows come back. */
  method GetAccepted(byId: map<string, Event>, ids: seq<string>, accept: Event -> bool, mayFail: bool)
    returns (matched: seq<Event>, failed: bool)
    requires forall id :: id in byId ==> byId[id].id == id
    ensures forall j, k :: 0 <= j < k < |matched| ==> matched[j].id != matched[k].id
    ensures !failed ==>
              forall e :: e in matched <==> e.id in byId && byId[e.id] == e && accept(e) && ListsLower(ids, e.id)
    ensures failed ==> mayFail
  {
    matched, failed := [], false;
    var seen: set<string> := {};
    for i := 0 to |ids|
      invariant forall id :: id in seen <==> id in byId && byId[id] in matched
      invariant forall j, k :: 0 <= j < k < |matched| ==> matched[j].id != matched[k].id
      invariant forall e :: e in matched <==> e.id in byId && byId[e.id] == e && accept(e) && ListsLower(ids[..i], e.id)
    {
      var fails: bool := *;
      if mayFail && fails {
        return matched, true;
      }
      var id := Lower(ids[i]);
      assert forall v :: v in ids[..i + 1] <==> v in ids[..i] || v == ids[i];
      if id in byId && id !in seen && accept(byId[id]) {
        seen := seen + {id};
        matched := matched + [byId[id]];
      }
    }
    assert ids[..|ids|] == ids;
  }

  /** scanIds: gets the ids one by one, sorts, cuts off at the limit, and hands out; nothing if a request fails. */
  method ScanIds(byId: map<string, Event>, f: Filter, accept: Event -> bool, mayFail: bool, ghost stored: set<Event>)
    returns (taken: seq<Event>, failed: bool)
    requires f.ids.Some? && f.limit != Some(0) && OneEventPerId(stored)
    requires forall id :: id in byId ==> byId[id].id == id
    requires stored == set id | id in byId :: byId[id]
    requires forall e :: accept(e) ==> ListsLower(f.ids.value, e.id)
    ensures taken == if failed then [] else Limited(List(M.Accepted(accept, stored)), f.limit)
    ensures failed ==> mayFail
  {
    hide SortEvents, ListsLower, OneEventPerId;
    var matched;
    matched, failed := GetAccepted(byId, f.ids.value, accept, mayFail);
    if failed {
      return [], true;
    }
    SortLists(matched);
    AcceptedOnes(stored, accept);
    assert Members(matched) == M.Accepted(accept, stored);
    ListIs(SortEvents(matched), M.Accepted(accept, stored));
    taken := HandOut(Limited(SortEvents(matched), f.limit), f.limit);
  }

  lemma AcceptedOnes(stored: set<Event>, accept: Event -> bool)
    requires OneEventPerId(stored)
    ensures OneEventPerId(M.Accepted(accept, stored))
  {
  }

  /** Hands events out until the limit is reached. */
  method HandOut(out: seq<Event>, limit: Option<nat>) returns (taken: seq<Event>)
    requires limit.Some? ==> |out| <= limit.value && limit.value > 0
    ensures taken == out
  {
    taken := [];
    for i := 0 to |out|
      invariant taken == out[..i]
    {
      taken := taken + [out[i]];
      if limit.Some? && |taken| >= limit.value {
        assert taken == out;
        break;
      }
    }
  }

  /** The requests a plan opens: tag rows have to be followed to their events. */
  function Openers(plan: seq<Opener>, cursor: Opener -> seq<M.Row>): seq<(bool, seq<M.Row>)> {
    seq(|plan|, i requires 0 <= i < |plan| => (!plan[i].TagCursor?, cursor(plan[i])))
  }

  lemma {:induction false} OpenersHold(plan: seq<Opener>, cursor: Opener -> seq<M.Row>, e: Event)
    ensures e in M.AllRows(Openers(plan, cursor)) <==> exists o :: o in plan && e in M.Contents(cursor(o))
  {
    if plan != [] {
      var n := |plan| - 1;
      OpenersHold(plan[..n], cursor, e);
      assert Openers(plan, cursor)[..n] == Openers(plan[..n], cursor);
      assert plan == plan[..n] + [plan[n]];
      assert forall o :: o in plan <==> o in plan[..n] || o == plan[n];
    }
  }

  /**
   * scanFilter: whichever cursors the plan opens, and however they answer, what is taken is the list of
   * the accepted events within reach, up to the limit, unless a request fails.
   */
  method ScanFilter(byId: map<string, Event>, f: Filter, accept: Event -> bool, cursor: Opener -> seq<M.Row>,
                    mayFail: bool, ghost stored: set<Event>)
    returns (r: Result<seq<Event>, ScanError>)
    requires OneEventPerId(stored) && stored == set id | id in byId :: byId[id]
    requires forall id :: id in byId ==> byId[id].id == id
    requires forall o :: CursorOver(cursor(o), stored, f, o)
    requires forall e :: accept(e) ==> Matches(f, e)
    ensures r == Err(BadRange) <==> Refused(f)
    ensures !mayFail && !Refused(f) ==> r.Ok?
    ensures r.Ok? ==> OneEventPerId(Findable(stored, f, accept)) && r.value == Limited(List(Findable(stored, f, accept)), f.limit)
  {
    assert OneEventPerId(Findable(stored, f, accept));
    if f.limit == Some(0) {
      return Ok([]);
    }
    if f.since.Some? && f.until.Some? && f.since.value > f.until.value {
      assert Findable(stored, f, accept) == {};
      return Ok([]);
    }
    if f.ids.Some? {
      var taken, failed := ScanIds(byId, f, accept, mayFail, stored);
      if failed {
        return Err(CursorFailed);
      }
      assert Findable(stored, f, accept) == M.Accepted(accept, stored);
      return Ok(taken);
    }
    if From(f) > To(f) {
      return Err(BadRange);
    }
    var plan := Plan(f);
    ghost var all := M.AllRows(Openers(plan, cursor));
    PlanFinds(plan, f, accept, cursor, stored);
    var stop := (taken: seq<Event>) => f.limit.Some? && |taken| >= f.limit.value;
    var taken, failed := M.KWayMerge(Openers(plan, cursor), accept, stop, mayFail, all);
    if failed {
      return Err(CursorFailed);
    }
    UpToLimit(f.limit, M.Full(accept, all));
    r := Ok(taken);
  }

  /** The cursors of a plan together hold every acceptable event within reach, and nothing that is not stored. */
  lemma PlanFinds(plan: seq<Opener>, f: Filter, accept: Event -> bool, cursor: Opener -> seq<M.Row>, stored: set<Event>)
    requires OneEventPerId(stored) && f.ids.None? && Covers(plan, f)
    requires forall o :: CursorOver(cursor(o), stored, f, o)
    requires forall e :: accept(e) ==> Matches(f, e)
    ensures var all := M.AllRows(Openers(plan, cursor));
            OneEventPerId(all) && M.Accepted(accept, all) == Findable(stored, f, accept)
    ensures forall i :: 0 <= i < |plan| ==> M.Descending(Openers(plan, cursor)[i].1)
  {
    var all := M.AllRows(Openers(plan, cursor));
    forall e
      ensures e in all ==> e in stored
      ensures e in M.Accepted(accept, all) <==> e in Findable(stored, f, accept)
    {
      OpenersHold(plan, cursor, e);
      if e in all {
        var o :| o in plan && e in M.Contents(cursor(o));
        assert CursorOver(cursor(o), stored, f, o);
      }
      if e in Findable(stored, f, accept) {
        var o :| o in plan && Selects(o, e);
        assert CursorOver(cursor(o), stored, f, o);
      }
    }
    forall i | 0 <= i < |plan|
      ensures M.Descending(Openers(plan, cursor)[i].1)
    {
      assert CursorOver(cursor(plan[i]), stored, f, plan[i]);
    }
  }

  /** With times from 0 to the largest safe integer, nothing that is accepted is out of reach. */
  lemma FindsAll(stored: set<Event>, f: Filter, accept: Event -> bool)
    requires forall e :: e in stored ==> 0 <= e.createdAt <= MAX_SAFE_INTEGER
    requires forall e :: accept(e) ==> Matches(f, e)
    ensures Findable(stored, f, accept) == M.Accepted(accept, stored)
  {
  }

  /** A scan misses an accepted event exactly when the filter leaves open the end at which it lies too far out. */
  lemma MissesExactly(stored: set<Event>, f: Filter, accept: Event -> bool, e: Event)
    requires (forall x :: accept(x) ==> Matches(f, x)) && e in stored && accept(e)
    ensures e !in Findable(stored, f, accept) <==>
              f.ids.None? && ((f.since.None? && e.createdAt < 0) || (f.until.None? && e.createdAt > MAX_SAFE_INTEGER))
  {
    assert Matches(f, e);
  }

  /** An event from before 1970 is not found by a filter without `since`. */
  lemma MissesAnOldEvent(id: string)
    ensures
      && var e := Event(id, "", 1, -1, [], "", "");
      && var f := Filter(None, None, None, map[], None, None, None);
      && Matches(f, e) && e !in Findable({e}, f, x => Matches(f, x))
  {
  }
}
