/** Rows of compiled plans, merged newest first (src/storage/sqlite.ts). */
module SqlRows {
  import opened Results
  import opened Events
  import opened Filters
  import opened Listing
  import opened SqlCompile
  import M = Merge

  /** The events of the table. */
  function Stored(events: map<string, Event>): set<Event> {
    set id | id in events :: events[id]
  }

  ghost predicate Keyed(events: map<string, Event>) {
    forall id :: id in events ==> events[id].id == id
  }

  /** Tables whose tag rows are those of the stored events. */
  ghost predicate Tabled(events: map<string, Event>, tags: set<TagRow>) {
    Keyed(events) && forall id :: id in events ==> Indexed(events[id], tags)
  }

  lemma KeyedOnce(events: map<string, Event>)
    requires Keyed(events)
    ensures OneEventPerId(Stored(events))
  {
  }

  /** What the rows satisfying one plan are. */
  function Having(stored: set<Event>, plan: QueryPlan, tags: set<TagRow>): set<Event> {
    set e | e in stored && PlanHolds(plan, e, tags)
  }

  function HavingAny(stored: set<Event>, plans: seq<QueryPlan>, tags: set<TagRow>): set<Event> {
    set e | e in stored && SomePlanHolds(plans, e, tags)
  }

  /** SELECT ... WHERE plan ORDER BY created_at DESC, id ASC LIMIT limit, as the database answers it. */
  method Select(events: map<string, Event>, tags: set<TagRow>, plan: QueryPlan, limit: Option<nat>)
    returns (rows: seq<Event>)
    requires Keyed(events)
    ensures OneEventPerId(Having(Stored(events), plan, tags))
    ensures rows == Limited(List(Having(Stored(events), plan, tags)), limit)
  {
    hide SortEvents, PlanHolds;
    var some: seq<Event> := [];
    var left := events.Keys;
    while left != {}
      invariant left <= events.Keys
      invariant forall e :: e in some <==> e.id in events && e.id !in left && events[e.id] == e && PlanHolds(plan, e, tags)
      invariant forall i, j :: 0 <= i < j < |some| ==> some[i].id != some[j].id
      decreases |left|
    {
      var id :| id in left;
      left := left - {id};
      if PlanHolds(plan, events[id], tags) {
        some := some + [events[id]];
      }
    }
    SortLists(some);
    KeyedOnce(events);
    Subset(Stored(events), Having(Stored(events), plan, tags));
    assert Members(some) == Having(Stored(events), plan, tags);
    ListIs(SortEvents(some), Having(Stored(events), plan, tags));
    rows := Limited(SortEvents(some), limit);
  }

  /** Drops repeats from a sorted list of rows. */
  method Dedupe(sorted: seq<Event>, ghost all: set<Event>) returns (merged: seq<Event>)
    requires WeaklySorted(sorted) && OneEventPerId(all) && Members(sorted) <= all
    ensures Sorted(merged) && Members(merged) == Members(sorted)
  {
    hide WeaklySorted, Sorted, OneEventPerId;
    merged := [];
    var seen: set<string> := {};
    M.GivenNone(_ => true, sorted);
    for j := 0 to |sorted|
      invariant M.GivenFrom(_ => true, sorted, j, merged) && seen == set e | e in Members(merged) :: e.id
    {
      var row := sorted[j];
      assert row in Members(sorted);
      if row.id !in seen {
        M.TakeOne(_ => true, all, sorted, j, merged, row);
        assert Members(merged + [row]) == Members(merged) + {row};
        seen := seen + {row.id};
        merged := merged + [row];
      } else {
        SeenRow(all, sorted, j, merged, row);
        M.SkipOne(_ => true, sorted, j, merged);
      }
    }
    assert sorted[..|sorted|] == sorted;
  }

  lemma SeenRow(all: set<Event>, sorted: seq<Event>, j: nat, merged: seq<Event>, row: Event)
    requires OneEventPerId(all) && Members(sorted) <= all && j < |sorted| && sorted[j] == row
    requires M.GivenFrom(_ => true, sorted, j, merged) && row.id in set e | e in Members(merged) :: e.id
    ensures row in merged
  {
    hide Sorted;
    var x :| x in Members(merged) && x.id == row.id;
    assert x in Members(sorted[..j]) && row in Members(sorted);
    assert x in Members(sorted);
  }

  /** The rows of all plans, one plan after the other. */
  ghost function Gathered(stored: set<Event>, plans: seq<QueryPlan>, tags: set<TagRow>, limit: Option<nat>): set<Event>
    requires OneEventPerId(stored)
  {
    if plans == [] then {}
    else
      Gathered(stored, plans[..|plans| - 1], tags, limit)
      + Members(Limited(List(Having(stored, plans[|plans| - 1], tags)), limit))
  }

  lemma {:induction false} GatheredFrom(stored: set<Event>, plans: seq<QueryPlan>, tags: set<TagRow>,
                                        limit: Option<nat>, e: Event)
    requires OneEventPerId(stored)
    ensures e in Gathered(stored, plans, tags, limit) ==> e in HavingAny(stored, plans, tags)
    ensures e in HavingAny(stored, plans, tags) && e in Members(Limited(List(HavingAny(stored, plans, tags)), limit)) ==>
              e in Gathered(stored, plans, tags, limit)
  {
    hide PlanHolds;
    Subset(stored, HavingAny(stored, plans, tags));
    GatheredPart(stored, plans, tags, limit, HavingAny(stored, plans, tags), e);
  }

  lemma {:induction false} GatheredPart(stored: set<Event>, plans: seq<QueryPlan>, tags: set<TagRow>,
                                        limit: Option<nat>, all: set<Event>, e: Event)
    requires OneEventPerId(stored) && OneEventPerId(all) && HavingAny(stored, plans, tags) <= all
    ensures e in Gathered(stored, plans, tags, limit) ==> e in HavingAny(stored, plans, tags)
    ensures e in HavingAny(stored, plans, tags) && e in Members(Limited(List(all), limit)) ==> e in Gathered(stored, plans, tags, limit)
  {
    hide PlanHolds, OneEventPerId, List, Limited;
    if plans != [] {
      var before, plan := plans[..|plans| - 1], plans[|plans| - 1];
      assert plans == before + [plan];
      assert forall p :: p in plans <==> p in before || p == plan;
      GatheredPart(stored, before, tags, limit, all, e);
      var part := Having(stored, plan, tags);
      Subset(stored, part);
      LimitedFirst(part, limit);
      if e in part && e in Members(Limited(List(all), limit)) {
        assert forall x :: x in part ==> x in HavingAny(stored, plans, tags);
        LimitedPart(all, part, limit, e);
      }
    }
  }

  /** planRows: per-plan rows and limits, merged, deduplicated and cut off, are one sort and one limit over all of them. */
  method PlanRows(events: map<string, Event>, tags: set<TagRow>, plans: seq<QueryPlan>, limit: Option<nat>)
    returns (r: seq<Event>)
    requires Keyed(events)
    ensures OneEventPerId(HavingAny(Stored(events), plans, tags))
    ensures r == Limited(List(HavingAny(Stored(events), plans, tags)), limit)
  {
    hide SortEvents, PlanHolds, SomePlanHolds, OneEventPerId, WeaklySorted, Sorted;
    KeyedOnce(events);
    ghost var stored := Stored(events);
    ghost var all := HavingAny(stored, plans, tags);
    Subset(stored, all);
    var flat: seq<Event> := [];
    for i := 0 to |plans|
      invariant Members(flat) == Gathered(stored, plans[..i], tags, limit)
    {
      assert plans[..i + 1][..i] == plans[..i];
      var rows := Select(events, tags, plans[i], limit);
      assert Members(flat + rows) == Members(flat) + Members(rows);
      flat := flat + rows;
    }
    assert plans[..|plans|] == plans;
    forall e
      ensures e in Members(flat) ==> e in all
      ensures e in Members(Limited(List(all), limit)) ==> e in Members(flat)
    {
      LimitedFirst(all, limit);
      GatheredFrom(stored, plans, tags, limit, e);
    }
    SortWeakly(flat);
    var merged := Dedupe(SortEvents(flat), all);
    Subset(all, Members(flat));
    ListIs(merged, Members(flat));
    LimitedMerge(all, Members(flat), limit);
    r := Limited(merged, limit);
  }

  /** The rows of a list that the filter matches. */
  method MatchingRows(f: Filter, rows: seq<Event>) returns (r: seq<Event>)
    requires Sorted(rows)
    ensures Sorted(r) && Members(r) == set e | e in Members(rows) && Matches(f, e)
  {
    r := [];
    hide Matches, Sorted;
    NoneSorted();
    for j := 0 to |rows|
      invariant Sorted(r) && Members(r) == set e | e in Members(rows[..j]) && Matches(f, e)
    {
      assert rows[..j + 1] == rows[..j] + [rows[j]];
      assert Members(rows[..j + 1]) == Members(rows[..j]) + {rows[j]};
      var hit := MatchFilter(f, rows[j]);
      if hit {
        LaterRow(rows, j, r);
        assert Members(r + [rows[j]]) == Members(r) + {rows[j]};
        r := r + [rows[j]];
      }
    }
    assert rows[..|rows|] == rows;
  }

  lemma NoneSorted()
    ensures Sorted([])
  {
  }

  lemma LaterRow(rows: seq<Event>, j: nat, r: seq<Event>)
    requires Sorted(rows) && j < |rows| && Sorted(r) && Members(r) <= Members(rows[..j])
    ensures Sorted(r + [rows[j]])
  {
    if r != [] {
      var last := r[|r| - 1];
      assert last in Members(r);
      var i :| 0 <= i < j && rows[i] == last;
      BeforeLater(rows, i, j);
    }
    SortedAppend(r, [rows[j]]);
  }

  /** filterRows: what one filter selects from the tables is what it selects by a plain scan. */
  method FilterRows(events: map<string, Event>, tags: set<TagRow>, f: Filter) returns (r: seq<Event>)
    requires Tabled(events, tags)
    ensures OneEventPerId(Stored(events)) && r == Answer(Stored(events), f)
  {
    hide Matches, SomePlanHolds, IndexedMatch, Sorted, OneEventPerId, IsDeferred;
    KeyedOnce(events);
    ghost var stored := Stored(events);
    ghost var matching := set e | e in stored && Matches(f, e);
    Subset(stored, matching);
    if f.limit == Some(0) {
      return [];
    }
    var compiled := CompileFilter(f);
    if compiled.None? {
      assert matching == {};
      return [];
    }
    var plans := compiled.value.plans;
    ghost var having := HavingAny(stored, plans, tags);
    forall e | e in stored
      ensures SomePlanHolds(plans, e, tags) <==> IndexedMatch(f, e)
      ensures Matches(f, e) ==> IndexedMatch(f, e)
    {
      assert Indexed(events[e.id], tags);
      MatchesIndexed(f, e);
    }
    if compiled.value.deferred {
      var merged := PlanRows(events, tags, plans, None);
      var matched := MatchingRows(f, merged);
      assert Members(matched) == matching;
      ListIs(matched, matching);
      return Limited(matched, f.limit);
    }
    forall e
      ensures e in having <==> e in matching
    {
      NothingDeferred(f, e);
    }
    assert having == matching;
    r := PlanRows(events, tags, plans, f.limit);
  }

  lemma MatchesIndexed(f: Filter, e: Event)
    ensures Matches(f, e) ==> IndexedMatch(f, e)
  {
  }
}
