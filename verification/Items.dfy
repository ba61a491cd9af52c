/** Events in the order of reconciliation, and what a store offers for it (src/core/event.ts). */
module Items {
  import opened Results
  import opened Events
  import opened Filters
  import opened Listing

  /** itemCompare is negative: older first, then the lower id. */
  predicate ItemBefore(a: Event, b: Event) {
    a.createdAt < b.createdAt || (a.createdAt == b.createdAt && StringLess(a.id, b.id))
  }

  function InsertItem(list: seq<Event>, e: Event): seq<Event> {
    if list == [] || !ItemBefore(e, list[|list| - 1]) then list + [e]
    else InsertItem(list[..|list| - 1], e) + [list[|list| - 1]]
  }

  /** The events sorted by itemCompare; what compares alike keeps its order. */
  function OldestFirst(list: seq<Event>): seq<Event> {
    if list == [] then [] else InsertItem(OldestFirst(list[..|list| - 1]), list[|list| - 1])
  }

  ghost predicate ItemsSorted(list: seq<Event>) {
    forall i, j :: 0 <= i < j < |list| ==> !ItemBefore(list[j], list[i])
  }

  lemma NotAfterTransitive(a: Event, b: Event, c: Event)
    requires !ItemBefore(b, a) && !ItemBefore(c, b)
    ensures !ItemBefore(c, a)
  {
    StringLessTotal(a.id, b.id);
    StringLessTotal(b.id, c.id);
    StringLessTotal(a.id, c.id);
    if a.createdAt == b.createdAt == c.createdAt && StringLess(a.id, b.id) && StringLess(b.id, c.id) {
      StringLessTransitive(a.id, b.id, c.id);
    }
  }

  lemma {:induction false} InsertItemSorts(list: seq<Event>, e: Event)
    requires ItemsSorted(list)
    ensures ItemsSorted(InsertItem(list, e))
    ensures multiset(InsertItem(list, e)) == multiset(list) + multiset{e}
  {
    hide ItemBefore;
    if list != [] {
      var n := |list| - 1;
      var init, last := list[..n], list[n];
      assert list == init + [last];
      if ItemBefore(e, last) {
        InsertItemSorts(init, e);
        var r := InsertItem(init, e);
        ItemAsymmetric(e, last);
        forall x | x in r
          ensures !ItemBefore(last, x)
        {
          assert x in multiset(r);
          if x != e {
            assert x in multiset(init) && x in init;
          }
        }
      } else {
        forall i | 0 <= i < |list|
          ensures !ItemBefore(e, list[i])
        {
          if i < n {
            NotAfterTransitive(list[i], last, e);
          }
        }
      }
    }
  }

  lemma ItemAsymmetric(a: Event, b: Event)
    requires ItemBefore(a, b)
    ensures !ItemBefore(b, a)
  {
    StringLessTotal(a.id, b.id);
  }

  /** Sorting gives the same events, oldest first. */
  lemma {:induction false} OldestFirstSorts(list: seq<Event>)
    ensures ItemsSorted(OldestFirst(list)) && multiset(OldestFirst(list)) == multiset(list)
  {
    hide ItemBefore, InsertItem;
    if list != [] {
      var n := |list| - 1;
      OldestFirstSorts(list[..n]);
      InsertItemSorts(OldestFirst(list[..n]), list[n]);
      assert list == list[..n] + [list[n]];
    }
  }

  /** So of two of them the older one comes first, and of those of one time none with a higher id. */
  lemma OldestFirstMeans(list: seq<Event>)
    ensures
      && var r := OldestFirst(list);
      && multiset(r) == multiset(list)
      && forall i, j :: 0 <= i < j < |r| ==>
           r[i].createdAt < r[j].createdAt || (r[i].createdAt == r[j].createdAt && !StringLess(r[j].id, r[i].id))
  {
    hide OldestFirst;
    OldestFirstSorts(list);
    var r := OldestFirst(list);
    forall i, j | 0 <= i < j < |r|
      ensures r[i].createdAt < r[j].createdAt || (r[i].createdAt == r[j].createdAt && !StringLess(r[j].id, r[i].id))
    {
      assert !ItemBefore(r[j], r[i]);
    }
  }

  lemma ItemsInit(list: seq<Event>)
    requires ItemsSorted(list) && list != []
    ensures ItemsSorted(list[..|list| - 1])
    ensures multiset(list[..|list| - 1]) == multiset(list) - multiset{list[|list| - 1]}
  {
    hide ItemBefore;
    assert list == list[..|list| - 1] + [list[|list| - 1]];
  }

  lemma SameMembers(a: seq<Event>, b: seq<Event>)
    requires multiset(a) == multiset(b)
    ensures |a| == |b| && forall x :: x in a <==> x in b
  {
    assert |multiset(a)| == |multiset(b)|;
    assert forall x :: x in a <==> x in multiset(a);
  }

  /** Distinct events have one order. */
  lemma {:induction false} OneOrder(a: seq<Event>, b: seq<Event>)
    requires ItemsSorted(a) && ItemsSorted(b) && multiset(a) == multiset(b) && OneEventPerId(Members(a))
    ensures a == b
  {
    hide ItemsSorted, ItemBefore, OneEventPerId, OldestFirst, Members;
    SameMembers(a, b);
    if a != [] {
      var n := |a| - 1;
      var x, y := a[n], b[n];
      assert x in a && y in b;
      SameOrder(a, x, b, y);
      ItemsInit(a);
      ItemsInit(b);
      FewerPerId(a, n);
      OneOrder(a[..n], b[..n]);
      assert a == a[..n] + [x] && b == b[..n] + [x];
    }
  }

  lemma SameOrder(a: seq<Event>, x: Event, b: seq<Event>, y: Event)
    requires ItemsSorted(a) && ItemsSorted(b) && a != [] && b != [] && x == a[|a| - 1] && y == b[|b| - 1]
    requires x in b && y in a && OneEventPerId(Members(a))
    ensures x == y
  {
    var i :| 0 <= i < |a| && a[i] == y;
    var j :| 0 <= j < |b| && b[j] == x;
    assert i < |a| - 1 ==> !ItemBefore(x, y);
    assert j < |b| - 1 ==> !ItemBefore(y, x);
    StringLessTotal(x.id, y.id);
    assert x in Members(a) && y in Members(a);
  }

  lemma FewerPerId(list: seq<Event>, n: nat)
    requires OneEventPerId(Members(list)) && n <= |list|
    ensures OneEventPerId(Members(list[..n]))
  {
    assert Members(list[..n]) <= Members(list);
  }

  lemma SomePerId(all: set<Event>, some: set<Event>)
    requires OneEventPerId(all) && some <= all
    ensures OneEventPerId(some)
  {
  }

  /** The order of the same events before they are sorted does not matter. */
  lemma OrderFree(a: seq<Event>, b: seq<Event>)
    requires Members(a) == Members(b) && OneEventPerId(Members(a))
    requires forall e :: multiset(a)[e] <= 1 && multiset(b)[e] <= 1
    ensures OldestFirst(a) == OldestFirst(b)
  {
    hide ItemsSorted, OneEventPerId;
    forall e
      ensures multiset(a)[e] == multiset(b)[e]
    {
      assert e in a <==> e in Members(a);
      assert e in b <==> e in Members(b);
    }
    OldestFirstSorts(a);
    OldestFirstSorts(b);
    SameMembers(OldestFirst(a), a);
    assert Members(OldestFirst(a)) == Members(a);
    OneOrder(OldestFirst(a), OldestFirst(b));
  }

  // ---- what is offered ----

  /** The part of an event that reconciliation is about. */
  datatype Item = Item(id: string, createdAt: int)

  function ItemOf(e: Event): Item {
    Item(e.id, e.createdAt)
  }

  function ItemsOf(list: seq<Event>): (r: seq<Item>)
    ensures |r| == |list| && forall i :: 0 <= i < |list| ==> r[i] == ItemOf(list[i])
  {
    seq(|list|, i requires 0 <= i < |list| => ItemOf(list[i]))
  }

  /** What a store offers for a filter: the items of its answer to the filter, oldest first. */
  ghost function Offered(stored: set<Event>, f: Filter): seq<Item>
    requires OneEventPerId(stored)
  {
    ItemsOf(OldestFirst(Answer(stored, f)))
  }

  predicate ItemLess(a: Item, b: Item) {
    a.createdAt < b.createdAt || (a.createdAt == b.createdAt && StringLess(a.id, b.id))
  }

  /**
   * The items rise strictly, so none comes twice, and they are those of the newest events that match, up to the
   * limit of the filter.
   */
  lemma OfferedAre(stored: set<Event>, f: Filter)
    requires OneEventPerId(stored)
    ensures
      && var items := Offered(stored, f);
      && (forall i, j :: 0 <= i < j < |items| ==>
            || items[i].createdAt < items[j].createdAt
            || (items[i].createdAt == items[j].createdAt && StringLess(items[i].id, items[j].id)))
      && (forall e :: e in stored ==> (ItemOf(e) in items <==> e in Answer(stored, f)))
      && |items| == |Answer(stored, f)|
  {
    hide Answer, ItemsSorted, ItemBefore, OneEventPerId;
    var answer := Answer(stored, f);
    AnswerIsStored(stored, f);
    AnswerSorted(stored, f);
    OldestFirstSorts(answer);
    var sorted := OldestFirst(answer);
    assert |multiset(sorted)| == |multiset(answer)|;
    forall i, j | 0 <= i < j < |sorted|
      ensures ItemLess(ItemOf(sorted[i]), ItemOf(sorted[j]))
    {
      SortedRise(stored, answer, sorted, i, j);
    }
    forall e | e in stored
      ensures ItemOf(e) in ItemsOf(sorted) <==> e in answer
    {
      OfferedOnly(stored, answer, sorted, e);
    }
  }

  lemma NothingOffered(stored: set<Event>, f: Filter)
    requires OneEventPerId(stored) && f.limit == Some(0)
    ensures Offered(stored, f) == []
  {
    assert Answer(stored, f) == [];
  }

  /** The matching events in any order, cut to the limit as the newest first, are what is offered. */
  lemma OfferedFrom(stored: set<Event>, f: Filter, found: seq<Event>)
    requires OneEventPerId(stored) && Members(found) == set e | e in stored && Matches(f, e)
    requires forall j, k :: 0 <= j < k < |found| ==> found[j].id != found[k].id
    ensures
      && var cut := if f.limit.Some? then Limited(SortEvents(found), f.limit) else found;
      && ItemsOf(OldestFirst(cut)) == Offered(stored, f)
  {
    hide SortEvents, OldestFirst, Matches;
    var matching := set e | e in stored && Matches(f, e);
    SomePerId(stored, matching);
    SortLists(found);
    ListIs(SortEvents(found), matching);
    if f.limit.None? {
      forall e
        ensures multiset(found)[e] <= 1
      {
        NoRepeat(found, e);
      }
      AnswerSorted(stored, f);
      OrderFree(found, Answer(stored, f));
    }
  }

  lemma {:induction false} NoRepeat(list: seq<Event>, e: Event)
    requires forall j, k :: 0 <= j < k < |list| ==> list[j].id != list[k].id
    ensures multiset(list)[e] <= 1
  {
    if list != [] {
      var n := |list| - 1;
      NoRepeat(list[..n], e);
      assert list == list[..n] + [list[n]];
      assert forall i :: 0 <= i < n ==> list[..n][i] != list[n];
    }
  }

  lemma OfferedOnly(stored: set<Event>, answer: seq<Event>, sorted: seq<Event>, e: Event)
    requires OneEventPerId(stored) && Members(answer) <= stored && multiset(sorted) == multiset(answer) && e in stored
    ensures ItemOf(e) in ItemsOf(sorted) <==> e in answer
  {
    assert forall x :: x in sorted <==> x in multiset(sorted);
    if e in answer {
      assert e in multiset(answer);
      var i :| 0 <= i < |sorted| && sorted[i] == e;
      assert ItemsOf(sorted)[i] == ItemOf(e);
    }
    if ItemOf(e) in ItemsOf(sorted) {
      var i :| 0 <= i < |sorted| && ItemsOf(sorted)[i] == ItemOf(e);
      assert sorted[i] in multiset(answer) && sorted[i] in Members(answer);
    }
  }

  lemma SortedRise(stored: set<Event>, answer: seq<Event>, sorted: seq<Event>, i: nat, j: nat)
    requires OneEventPerId(stored) && Members(answer) <= stored && multiset(sorted) == multiset(answer)
    requires ItemsSorted(sorted) && i < j < |sorted|
    requires forall e :: multiset(answer)[e] <= 1
    ensures ItemLess(ItemOf(sorted[i]), ItemOf(sorted[j]))
  {
    var x, y := sorted[i], sorted[j];
    assert x in multiset(sorted) && y in multiset(sorted) && x in Members(answer) && y in Members(answer);
    if x.id == y.id {
      assert x == y;
      TwoPlaces(sorted, i, j);
      assert false;
    }
    StringLessTotal(x.id, y.id);
  }

  lemma TwoPlaces(list: seq<Event>, i: nat, j: nat)
    requires i < j < |list| && list[i] == list[j]
    ensures multiset(list)[list[i]] > 1
  {
    assert list == list[..i] + [list[i]] + list[i + 1..j] + [list[j]] + list[j + 1..];
  }

  /** An answer lists each event once. */
  lemma AnswerSorted(stored: set<Event>, f: Filter)
    requires OneEventPerId(stored)
    ensures forall e :: multiset(Answer(stored, f))[e] <= 1
  {
    hide Matches, Sorted, Before;
    var whole := List(set e | e in stored && Matches(f, e));
    forall e
      ensures multiset(Answer(stored, f))[e] <= 1
    {
      SortedOnce(whole, e);
      assert whole == Answer(stored, f) + whole[|Answer(stored, f)|..];
    }
  }

  lemma {:induction false} SortedOnce(list: seq<Event>, e: Event)
    requires Sorted(list)
    ensures multiset(list)[e] <= 1
  {
    if list != [] {
      var n := |list| - 1;
      assert list == list[..n] + [list[n]];
      SortedOnce(list[..n], e);
      ButLast(list);
      assert list[n] !in Members(list[..n]);
    }
  }
}
