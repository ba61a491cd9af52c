/** Events listed newest first, and the meaning of a query: match, sort, limit, merge. */
module Listing {
  import opened Results
  import opened Events
  import opened Filters
  import opened Sequences

  function Members(list: seq<Event>): set<Event> {
    set e | e in list
  }

  /** Newest first, without repeats. */
  predicate Sorted(list: seq<Event>) {
    |list| < 2 || (Sorted(list[..|list| - 1]) && Before(list[|list| - 2], list[|list| - 1]))
  }

  lemma {:induction false} LastIsOldest(list: seq<Event>, e: Event)
    requires list != [] && Sorted(list) && e in list && e != list[|list| - 1]
    ensures Before(e, list[|list| - 1])
  {
    var n := |list| - 1;
    assert list == list[..n] + [list[n]];
    if n > 0 && e != list[n - 1] {
      assert list[..n][n - 1] == list[n - 1];
      LastIsOldest(list[..n], e);
      BeforeTransitive(e, list[n - 1], list[n]);
    }
  }

  lemma NoMembers(list: seq<Event>)
    ensures list == [] <==> Members(list) == {}
  {
    if list != [] {
      assert list[0] in Members(list);
    }
  }

  /** A set of events can be listed in one way only. */
  lemma {:induction false} OneListing(a: seq<Event>, b: seq<Event>)
    requires Sorted(a) && Sorted(b) && Members(a) == Members(b)
    ensures a == b
  {
    NoMembers(a);
    NoMembers(b);
    if a != [] {
      var x, y := a[|a| - 1], b[|b| - 1];
      assert x in Members(b) && y in Members(a);
      if x != y {
        LastIsOldest(a, y);
        LastIsOldest(b, x);
        BeforeTotal(x, y);
        assert false;
      }
      ButLast(a);
      ButLast(b);
      OneListing(a[..|a| - 1], b[..|b| - 1]);
    }
  }

  lemma ButLast(list: seq<Event>)
    requires list != [] && Sorted(list)
    ensures Members(list[..|list| - 1]) == Members(list) - {list[|list| - 1]}
  {
    var n := |list| - 1;
    assert list == list[..n] + [list[n]];
    if list[n] in list[..n] {
      var i :| 0 <= i < n && list[i] == list[n];
      BeforeLater(list, i, n);
      BeforeTotal(list[n], list[n]);
      assert false;
    }
  }

  lemma {:induction false} BeforeLater(list: seq<Event>, i: nat, j: nat)
    requires Sorted(list) && i < j < |list|
    ensures Before(list[i], list[j])
  {
    if j < |list| - 1 {
      BeforeLater(list[..|list| - 1], i, j);
    } else if i < j - 1 {
      BeforeLater(list[..j], i, j - 1);
      BeforeTransitive(list[i], list[j - 1], list[j]);
    }
  }

  ghost predicate IsOldest(some: set<Event>, e: Event) {
    e in some && forall x :: x in some && x != e ==> Before(x, e)
  }

  lemma {:induction false} OldestExists(some: set<Event>)
    requires some != {} && OneEventPerId(some)
    ensures exists e :: IsOldest(some, e)
  {
    var x :| x in some;
    var rest := some - {x};
    assert some == rest + {x};
    if rest == {} {
      assert IsOldest(some, x);
    } else {
      OldestExists(rest);
      var y :| IsOldest(rest, y);
      BeforeTotal(x, y);
      if Before(x, y) {
        assert IsOldest(some, y);
      } else {
        forall z | z in rest && z != y
          ensures Before(z, x)
        {
          BeforeTransitive(z, y, x);
        }
        assert IsOldest(some, x);
      }
    }
  }

  ghost function Oldest(some: set<Event>): (e: Event)
    requires some != {} && OneEventPerId(some)
    ensures IsOldest(some, e)
  {
    OldestExists(some);
    var e :| IsOldest(some, e);
    e
  }

  /** The events, newest first. */
  ghost function List(some: set<Event>): (r: seq<Event>)
    requires OneEventPerId(some)
    ensures Sorted(r) && Members(r) == some
  {
    if some == {} then []
    else
      var e := Oldest(some);
      var before := List(some - {e});
      assert Members(before + [e]) == Members(before) + {e};
      assert before != [] ==> before[|before| - 1] in Members(before);
      before + [e]
  }

  lemma ListIs(list: seq<Event>, some: set<Event>)
    requires OneEventPerId(some) && Sorted(list) && Members(list) == some
    ensures list == List(some)
  {
    OneListing(list, List(some));
  }

  // ---- queries ----

  function Limited(list: seq<Event>, limit: Option<nat>): seq<Event> {
    if limit.Some? && limit.value < |list| then list[..limit.value] else list
  }

  /** What one filter asks for: the newest `limit` of the events it matches. */
  ghost function Answer(stored: set<Event>, f: Filter): seq<Event>
    requires OneEventPerId(stored)
  {
    Limited(List(set e | e in stored && Matches(f, e)), f.limit)
  }

  ghost predicate Answers(stored: set<Event>, filters: seq<Filter>, e: Event)
    requires OneEventPerId(stored)
  {
    exists f :: f in filters && e in Answer(stored, f)
  }

  /** The answers to all filters together, each event once, newest first. */
  ghost function Query(stored: set<Event>, filters: seq<Filter>): seq<Event>
    requires OneEventPerId(stored)
  {
    List(set e | e in stored && Answers(stored, filters, e))
  }

  /** The answers to the filters one after the other, as a set. */
  ghost function Answered(stored: set<Event>, filters: seq<Filter>): set<Event>
    requires OneEventPerId(stored)
  {
    if filters == [] then {}
    else Answered(stored, filters[..|filters| - 1]) + Members(Answer(stored, filters[|filters| - 1]))
  }

  lemma LimitedMembers(list: seq<Event>, limit: Option<nat>)
    ensures Members(Limited(list, limit)) <= Members(list)
  {
  }

  lemma AnswerIsStored(stored: set<Event>, f: Filter)
    requires OneEventPerId(stored)
    ensures Members(Answer(stored, f)) <= stored
  {
    LimitedMembers(List(set e | e in stored && Matches(f, e)), f.limit);
  }

  lemma {:induction false} AnsweredAre(stored: set<Event>, filters: seq<Filter>)
    requires OneEventPerId(stored)
    ensures Answered(stored, filters) == set e | e in stored && Answers(stored, filters, e)
  {
    hide Answer;
    if filters != [] {
      var before, f := filters[..|filters| - 1], filters[|filters| - 1];
      AnsweredAre(stored, before);
      AnswerIsStored(stored, f);
      assert filters == before + [f];
      forall e | e in stored
        ensures Answers(stored, filters, e) <==> Answers(stored, before, e) || e in Members(Answer(stored, f))
      {
        assert forall g :: g in filters <==> g in before || g == f;
      }
    }
  }

  // ---- sorting ----

  /** Array.prototype.sort with compareEventsDesc: equal events keep their order. */
  function InsertSorted(list: seq<Event>, e: Event): seq<Event> {
    if list == [] || !Before(e, list[|list| - 1]) then list + [e]
    else InsertSorted(list[..|list| - 1], e) + [list[|list| - 1]]
  }

  function SortEvents(list: seq<Event>): seq<Event> {
    if list == [] then [] else InsertSorted(SortEvents(list[..|list| - 1]), list[|list| - 1])
  }

  lemma {:induction false} InsertSortedMembers(list: seq<Event>, e: Event)
    ensures Members(InsertSorted(list, e)) == Members(list) + {e}
  {
    if list != [] {
      var n := |list| - 1;
      assert list == list[..n] + [list[n]];
      InsertSortedMembers(list[..n], e);
      assert Members(list) == Members(list[..n]) + {list[n]};
      assert Members(InsertSorted(list[..n], e) + [list[n]]) == Members(InsertSorted(list[..n], e)) + {list[n]};
      assert Members(list + [e]) == Members(list) + {e};
    }
  }

  lemma {:induction false} InsertSortedSorts(list: seq<Event>, e: Event)
    requires Sorted(list) && forall x :: x in list ==> x.id != e.id
    ensures Sorted(InsertSorted(list, e))
  {
    hide Before;
    if list == [] || !Before(e, list[|list| - 1]) {
      if list != [] {
        BeforeTotal(e, list[|list| - 1]);
      }
      assert (list + [e])[..|list|] == list;
    } else {
      var n := |list| - 1;
      InsertSortedSorts(list[..n], e);
      var r := InsertSorted(list[..n], e);
      InsertSortedMembers(list[..n], e);
      assert (r + [list[n]])[..|r|] == r;
      if r != [] {
        assert r[|r| - 1] in Members(r);
        if r[|r| - 1] != e {
          ButLast(list);
          LastIsOldest(list, r[|r| - 1]);
        }
      }
    }
  }

  /** Sorting distinct events lists them. */
  lemma {:induction false} SortLists(list: seq<Event>)
    requires forall i, j :: 0 <= i < j < |list| ==> list[i].id != list[j].id
    ensures Sorted(SortEvents(list)) && Members(SortEvents(list)) == Members(list)
  {
    if list != [] {
      var n := |list| - 1;
      assert list == list[..n] + [list[n]];
      SortLists(list[..n]);
      InsertSortedMembers(SortEvents(list[..n]), list[n]);
      assert forall x :: x in SortEvents(list[..n]) ==> x in Members(list[..n]);
      InsertSortedSorts(SortEvents(list[..n]), list[n]);
    }
  }

  /** The list of a set of events is as long as the set, and as the set of their ids. */
  lemma {:induction false} ListCount(some: set<Event>)
    requires OneEventPerId(some)
    ensures |List(some)| == |some| == |set e | e in some :: e.id|
  {
    hide Sorted, Before;
    var ids := set e | e in some :: e.id;
    if some == {} {
      assert ids == {};
    } else {
      var e := Oldest(some);
      ListCount(some - {e});
      assert ids == (set x | x in some - {e} :: x.id) + {e.id};
    }
  }

  // ---- sorting with repeats ----

  /** Newest first; an event may stand beside itself. */
  predicate WeaklySorted(list: seq<Event>) {
    |list| < 2 || (WeaklySorted(list[..|list| - 1]) && !Before(list[|list| - 1], list[|list| - 2]))
  }

  lemma NotBeforeTransitive(a: Event, b: Event, c: Event)
    requires !Before(b, a) && !Before(c, b)
    ensures !Before(c, a)
  {
    StringLessTotal(a.id, b.id);
    StringLessTotal(b.id, c.id);
    if Before(c, a) {
      if b.id == c.id || b.createdAt != a.createdAt || b.createdAt != c.createdAt || a.id == b.id {
      } else {
        StringLessTransitive(c.id, a.id, b.id);
        assert false;
      }
    }
  }

  lemma {:induction false} WeaklyLater(list: seq<Event>, i: nat, j: nat)
    requires WeaklySorted(list) && i < j < |list|
    ensures !Before(list[j], list[i])
  {
    if j < |list| - 1 {
      WeaklyLater(list[..|list| - 1], i, j);
    } else if i < j - 1 {
      WeaklyLater(list[..j], i, j - 1);
      NotBeforeTransitive(list[i], list[j - 1], list[j]);
    }
  }

  lemma {:induction false} InsertWeakly(list: seq<Event>, e: Event)
    requires WeaklySorted(list)
    ensures WeaklySorted(InsertSorted(list, e))
    ensures var r := InsertSorted(list, e); r != [] && (r[|r| - 1] == e || (list != [] && r[|r| - 1] == list[|list| - 1]))
  {
    if list == [] || !Before(e, list[|list| - 1]) {
      assert (list + [e])[..|list|] == list;
    } else {
      var n := |list| - 1;
      InsertWeakly(list[..n], e);
      var r := InsertSorted(list[..n], e);
      assert (r + [list[n]])[..|r|] == r;
      BeforeTotal(e, list[n]);
    }
  }

  lemma {:induction false} SortWeakly(list: seq<Event>)
    ensures WeaklySorted(SortEvents(list)) && Members(SortEvents(list)) == Members(list)
  {
    if list != [] {
      var n := |list| - 1;
      assert list == list[..n] + [list[n]];
      SortWeakly(list[..n]);
      InsertWeakly(SortEvents(list[..n]), list[n]);
      InsertSortedMembers(SortEvents(list[..n]), list[n]);
      assert Members(list) == Members(list[..n]) + {list[n]};
    }
  }

  // ---- lists in parts ----

  lemma {:induction false} SortedAppend(a: seq<Event>, b: seq<Event>)
    requires Sorted(a) && Sorted(b) && (a != [] && b != [] ==> Before(a[|a| - 1], b[0]))
    ensures Sorted(a + b)
  {
    if b == [] {
      assert a + b == a;
    } else {
      var n := |b| - 1;
      SortedAppend(a, b[..n]);
      assert (a + b)[..|a + b| - 1] == a + b[..n];
    }
  }

  /** Events that are all newer than the others come first in the list. */
  lemma ListAppend(newer: set<Event>, older: set<Event>)
    requires OneEventPerId(newer + older) && forall x, y :: x in newer && y in older ==> x.createdAt > y.createdAt
    ensures List(newer + older) == List(newer) + List(older)
  {
    hide OneEventPerId;
    ListSplit(newer, older);
  }

  /** Taking events from a list one by one until told to stop. */
  function UpTo(stop: seq<Event> -> bool, list: seq<Event>, from: nat := 0): (r: seq<Event>)
    requires from <= |list|
    ensures r <= list
    decreases |list| - from
  {
    if from == |list| then list
    else if stop(list[..from + 1]) then list[..from + 1]
    else UpTo(stop, list, from + 1)
  }

  lemma {:induction false} UpToStops(stop: seq<Event> -> bool, list: seq<Event>, from: nat, n: nat)
    requires from < n <= |list| && stop(list[..n]) && forall k :: from < k < n ==> !stop(list[..k])
    ensures UpTo(stop, list, from) == list[..n]
    decreases n - from
  {
    if from + 1 < n {
      UpToStops(stop, list, from + 1, n);
    }
  }

  lemma {:induction false} UpToAll(stop: seq<Event> -> bool, list: seq<Event>, from: nat)
    requires from <= |list| && forall k :: from < k <= |list| ==> !stop(list[..k])
    ensures UpTo(stop, list, from) == list
    decreases |list| - from
  {
    if from < |list| {
      UpToAll(stop, list, from + 1);
    }
  }

  /** Stopping at the limit is limiting. */
  lemma {:induction false} UpToLimit(limit: Option<nat>, list: seq<Event>)
    requires limit != Some(0)
    ensures UpTo(taken => limit.Some? && |taken| >= limit.value, list) == Limited(list, limit)
  {
    var stop := (taken: seq<Event>) => limit.Some? && |taken| >= limit.value;
    if limit.Some? && limit.value <= |list| {
      UpToStops(stop, list, 0, limit.value);
      assert limit.value == |list| ==> list[..limit.value] == list;
    } else {
      UpToAll(stop, list, 0);
    }
  }

  // ---- limits in parts ----

  /** Every event of the one set comes before every event of the other. */
  ghost predicate AllBefore(some: set<Event>, others: set<Event>) {
    forall x, y :: x in some && y in others ==> Before(x, y)
  }

  lemma Subset(all: set<Event>, some: set<Event>)
    requires OneEventPerId(all) && some <= all
    ensures OneEventPerId(some)
  {
  }

  lemma ListSplit(first: set<Event>, last: set<Event>)
    requires OneEventPerId(first + last) && AllBefore(first, last)
    ensures List(first + last) == List(first) + List(last)
  {
    hide Sorted, Before, OneEventPerId;
    Subset(first + last, first);
    Subset(first + last, last);
    var a, b := List(first), List(last);
    Ends(a);
    Ends(b);
    SortedAppend(a, b);
    assert Members(a + b) == Members(a) + Members(b);
    ListIs(a + b, first + last);
  }

  lemma Ends(list: seq<Event>)
    ensures list != [] ==> list[0] in Members(list) && list[|list| - 1] in Members(list)
  {
  }

  lemma {:induction false} SortedPrefix(list: seq<Event>, n: nat)
    requires Sorted(list) && n <= |list|
    ensures Sorted(list[..n])
    decreases |list| - n
  {
    if n == |list| {
      assert list[..n] == list;
    } else {
      SortedPrefix(list, n + 1);
      assert list[..n + 1][..n] == list[..n];
    }
  }

  /** The first events of a list come before the rest of it. */
  lemma FirstBefore(list: seq<Event>, n: nat, x: Event, y: Event)
    requires Sorted(list) && n <= |list| && x in list[..n] && y in list && y !in list[..n]
    ensures Before(x, y)
  {
    var i :| 0 <= i < n && list[i] == x;
    var j :| 0 <= j < |list| && list[j] == y;
    assert forall k :: 0 <= k < n ==> list[..n][k] == list[k];
    BeforeLater(list, i, j);
  }

  lemma CutBefore(list: seq<Event>, n: nat)
    requires Sorted(list) && n <= |list|
    ensures AllBefore(Members(list[..n]), Members(list) - Members(list[..n])) && Members(list[..n]) <= Members(list)
  {
    hide Sorted, Before;
    forall x, y | x in Members(list[..n]) && y in Members(list) - Members(list[..n])
      ensures Before(x, y)
    {
      FirstBefore(list, n, x, y);
    }
  }

  /** The events within a limit come before the others of the set. */
  lemma LimitedFirst(some: set<Event>, limit: Option<nat>)
    requires OneEventPerId(some)
    ensures var top := Members(Limited(List(some), limit));
            && top <= some && AllBefore(top, some - top) && OneEventPerId(top)
            && Limited(List(some), limit) == List(top)
            && (limit.None? || |some| <= limit.value ==> top == some)
            && (limit.Some? && |some| > limit.value ==> |top| == limit.value)
  {
    hide Sorted, OneEventPerId, AllBefore, Members;
    var list := List(some);
    var n := |Limited(list, limit)|;
    var top := Members(list[..n]);
    assert Limited(list, limit) == list[..n];
    assert n == |list| ==> list[..n] == list;
    CutBefore(list, n);
    Subset(some, top);
    SortedPrefix(list, n);
    ListIs(list[..n], top);
    ListCount(some);
    ListCount(top);
  }

  lemma StaysOnTop(some: set<Event>, top: set<Event>, e: Event, x: Event)
    requires AllBefore(top, some - top) && e in top && x in some && Before(x, e)
    ensures x in top
  {
    BeforeTotal(e, x);
  }

  /** An event within the limit of a set is within the limit of each part of it. */
  lemma LimitedPart(some: set<Event>, part: set<Event>, limit: Option<nat>, e: Event)
    requires OneEventPerId(some) && OneEventPerId(part) && part <= some
    requires e in Members(Limited(List(some), limit)) && e in part
    ensures e in Members(Limited(List(part), limit))
  {
    hide Members, OneEventPerId, Before, List, Limited;
    var top, mine := Members(Limited(List(some), limit)), Members(Limited(List(part), limit));
    LimitedFirst(some, limit);
    LimitedFirst(part, limit);
    if e !in mine {
      forall x | x in mine
        ensures x in top
      {
        assert Before(x, e);
        StaysOnTop(some, top, e, x);
      }
      SubsetCount(mine + {e}, top);
      SubsetCount(top, some);
      assert false;
    }
  }

  lemma LimitedAgain(top: set<Event>, rest: set<Event>, n: nat)
    requires OneEventPerId(top + rest) && AllBefore(top, rest) && |top| == n
    ensures Limited(List(top + rest), Some(n)) == List(top)
  {
    hide AllBefore, OneEventPerId, List, Sorted, Members;
    ListSplit(top, rest);
    Subset(top + rest, top);
    Subset(top + rest, rest);
    ListCount(top);
    assert (List(top) + List(rest))[..n] == List(top);
    assert List(rest) == [] ==> List(top) + List(rest) == List(top);
  }

  /** Limiting what contains the top of a set is limiting the set. */
  lemma LimitedMerge(all: set<Event>, some: set<Event>, limit: Option<nat>)
    requires OneEventPerId(all) && OneEventPerId(some) && some <= all && Members(Limited(List(all), limit)) <= some
    ensures Limited(List(some), limit) == Limited(List(all), limit)
  {
    hide Members, OneEventPerId, Before, Limited;
    var top := Members(Limited(List(all), limit));
    LimitedFirst(all, limit);
    if limit.None? || |all| <= limit.value {
      assert some == all;
    } else {
      assert top + (some - top) == some;
      LimitedAgain(top, some - top, limit.value);
    }
  }

  // ---- merging answers ----

  /** Appends the events not seen before, and notes their ids. */
  method AddUnseen(matched: seq<Event>, seen: set<string>, events: seq<Event>, ghost visible: set<Event>)
    returns (seen': set<string>, events': seq<Event>)
    requires OneEventPerId(visible) && Members(events) <= visible && Members(matched) <= visible
    requires seen == set x | x in events :: x.id
    requires forall j, k :: 0 <= j < k < |events| ==> events[j].id != events[k].id
    ensures Members(events') == Members(events) + Members(matched) && seen' == set x | x in events' :: x.id
    ensures forall j, k :: 0 <= j < k < |events'| ==> events'[j].id != events'[k].id
  {
    seen', events' := seen, events;
    for i := 0 to |matched|
      invariant Members(events') == Members(events) + Members(matched[..i]) && seen' == set x | x in events' :: x.id
      invariant forall j, k :: 0 <= j < k < |events'| ==> events'[j].id != events'[k].id
    {
      var e := matched[i];
      assert e in Members(matched);
      assert Members(matched[..i + 1]) == Members(matched[..i]) + {e};
      if e.id !in seen' {
        assert Members(events' + [e]) == Members(events') + {e};
        seen', events' := seen' + {e.id}, events' + [e];
      } else {
        var x :| x in events' && x.id == e.id;
        assert x in Members(events');
      }
    }
    assert matched[..|matched|] == matched;
  }

  method AddIds(matched: seq<Event>, seen: set<string>) returns (seen': set<string>)
    ensures seen' == seen + set x | x in Members(matched) :: x.id
  {
    seen' := seen;
    for j := 0 to |matched|
      invariant seen' == seen + set x | x in Members(matched[..j]) :: x.id
    {
      assert Members(matched[..j + 1]) == Members(matched[..j]) + {matched[j]};
      seen' := seen' + {matched[j].id};
    }
    assert matched[..|matched|] == matched;
  }

  // ---- the meaning of an answer ----

  /** The matching events that come before `e`: the newer ones, and of those as new the ones with a lower id. */
  ghost function Ahead(stored: set<Event>, f: Filter, e: Event): set<Event> {
    set x | x in stored && Matches(f, x) &&
      (x.createdAt > e.createdAt || (x.createdAt == e.createdAt && StringLess(x.id, e.id)))
  }

  /** A stored event that matches, with less than `limit` matching ones ahead of it. */
  ghost predicate Selected(stored: set<Event>, f: Filter, e: Event) {
    e in stored && Matches(f, e) && (f.limit.Some? ==> |Ahead(stored, f, e)| < f.limit.value)
  }

  /** On a list of events those before the place `i` are the ones ahead. */
  lemma Rank(some: set<Event>, list: seq<Event>, i: nat)
    requires OneEventPerId(some) && Sorted(list) && Members(list) == some && i < |list|
    ensures |set x | x in some && Before(x, list[i])| == i
  {
    hide Sorted, Before, OneEventPerId;
    var front := Members(list[..i]);
    forall x
      ensures x in front <==> x in some && Before(x, list[i])
    {
      if x in front {
        var k :| 0 <= k < i && list[k] == x;
        BeforeLater(list, k, i);
        assert x in Members(list);
      } else if x in some {
        var k :| i <= k < |list| && list[k] == x;
        BeforeTotal(list[i], x);
        if i < k {
          BeforeLater(list, i, k);
        }
      }
    }
    assert front == set x | x in some && Before(x, list[i]);
    SortedPrefix(list, i);
    Subset(some, front);
    ListIs(list[..i], front);
    ListCount(front);
  }

  /** One filter is answered by the stored events that match it, as far as its limit allows. */
  lemma AnswerMeans(stored: set<Event>, f: Filter, e: Event)
    requires OneEventPerId(stored)
    ensures e in Answer(stored, f) <==> Selected(stored, f, e)
  {
    hide Matches, OneEventPerId, Sorted;
    var some := set x | x in stored && Matches(f, x);
    Subset(stored, some);
    var list := List(some);
    assert e in some <==> e in Members(list);
    if e in some {
      var i :| 0 <= i < |list| && list[i] == e;
      Rank(some, list, i);
      assert Ahead(stored, f, e) == set x | x in some && Before(x, e);
      OncePlaced(list, i);
      assert e in Limited(list, f.limit) <==> (f.limit.Some? ==> i < f.limit.value);
    } else {
      LimitedMembers(list, f.limit);
      assert e in Limited(list, f.limit) <==> e in Members(Limited(list, f.limit));
    }
  }

  lemma OncePlaced(list: seq<Event>, i: nat)
    requires Sorted(list) && i < |list|
    ensures forall k :: 0 <= k < |list| && list[k] == list[i] ==> k == i
  {
    forall k | 0 <= k < |list| && list[k] == list[i]
      ensures k == i
    {
      BeforeTotal(list[i], list[i]);
      if k < i {
        BeforeLater(list, k, i);
      } else if i < k {
        BeforeLater(list, i, k);
      }
    }
  }

  /**
   * A query is answered by what its filters select of the stored events, each once: newer events first, and of those
   * of one time the lower id first.
   */
  lemma QueryMeans(stored: set<Event>, filters: seq<Filter>)
    requires OneEventPerId(stored)
    ensures
      && var r := Query(stored, filters);
      && (forall e :: e in r <==> exists f :: f in filters && Selected(stored, f, e))
      && (forall i, j :: 0 <= i < j < |r| ==>
            || r[i].createdAt > r[j].createdAt
            || (r[i].createdAt == r[j].createdAt && StringLess(r[i].id, r[j].id)))
  {
    hide OneEventPerId, Sorted, Selected, Answer;
    var r := Query(stored, filters);
    forall e
      ensures e in r <==> exists f :: f in filters && Selected(stored, f, e)
    {
      assert e in r <==> e in Members(r);
      forall f
        ensures e in Answer(stored, f) <==> Selected(stored, f, e)
      {
        AnswerMeans(stored, f, e);
      }
      if f :| f in filters && Selected(stored, f, e) {
        AnswerIsStored(stored, f);
        assert e in Members(Answer(stored, f));
      }
    }
    forall i, j | 0 <= i < j < |r|
      ensures Before(r[i], r[j])
    {
      BeforeLater(r, i, j);
    }
  }
}
