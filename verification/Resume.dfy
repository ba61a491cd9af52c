/**
 * What a REQ asks for when it is sent again (src/relay/subscription.ts): the watermark over all events that it
 * delivered, and the filters that are bound to it.
 */
module Resume {
  import opened Events
  import opened Filters
  import opened RegistrySpec

  /** A verified event and the wall clock at its delivery. */
  datatype Heard = Heard(event: Event, now: int)

  function Stamp(h: Heard): int {
    Min(h.event.createdAt, h.now)
  }

  /** The subscription after all these deliveries. */
  function NotedAll(s: Subscription, heard: seq<Heard>): Subscription {
    if heard == [] then s
    else
      var h := heard[|heard| - 1];
      Noted(NotedAll(s, heard[..|heard| - 1]), h.event, h.now)
  }

  ghost predicate Highest(heard: seq<Heard>, mark: int) {
    (exists h :: h in heard && Stamp(h) == mark) && forall h :: h in heard ==> Stamp(h) <= mark
  }

  /**
   * The watermark is the highest stamp of all deliveries, and the ids that are kept with it are those of the
   * deliveries with that stamp, in whatever order they came and however the clock went.
   */
  lemma {:induction false} MarkExact(s: Subscription, heard: seq<Heard>)
    requires s.last.None?
    ensures var r := NotedAll(s, heard);
      && r.filters == s.filters && r.id == s.id
      && (heard == [] <==> r.last.None?)
      && (r.last.Some? ==>
            && Highest(heard, r.last.value)
            && forall id :: id in r.atMark <==>
                 exists h :: h in heard && h.event.id == id && Stamp(h) == r.last.value)
  {
    if heard != [] {
      var init, h := heard[..|heard| - 1], heard[|heard| - 1];
      MarkExact(s, init);
      var was, r := NotedAll(s, init), NotedAll(s, heard);
      assert heard == init + [h];
      assert forall x :: x in heard <==> x in init || x == h;
      MarkStep(was, init, h, r);
    }
  }

  ghost predicate Marked(heard: seq<Heard>, last: int, atMark: set<string>) {
    Highest(heard, last) && forall id :: id in atMark <==>
      exists h :: h in heard && h.event.id == id && Stamp(h) == last
  }

  lemma MarkStep(was: Subscription, init: seq<Heard>, h: Heard, r: Subscription)
    requires r == Noted(was, h.event, h.now)
    requires init == [] <==> was.last.None?
    requires was.last.Some? ==> Marked(init, was.last.value, was.atMark)
    ensures r.last.Some? && Marked(init + [h], r.last.value, r.atMark)
  {
    var heard := init + [h];
    assert forall x :: x in heard <==> x in init || x == h;
    forall id
      ensures id in r.atMark <==> exists x :: x in heard && x.event.id == id && Stamp(x) == r.last.value
    {
      if id in r.atMark && id in was.atMark && was.last == r.last {
        var x :| x in init && x.event.id == id && Stamp(x) == was.last.value;
        assert x in heard;
      }
    }
    if was.last == r.last {
      var x :| x in init && Stamp(x) == was.last.value;
      assert x in heard;
    }
  }

  /** The filters that are sent again match what the filters match from the watermark on. */
  lemma ReplayAsks(s: Subscription, e: Event)
    ensures MatchesAny(ReplayFilters(s), e) <==>
      MatchesAny(s.filters, e) && (s.last.None? || s.last.value <= e.createdAt)
  {
    if s.last.Some? {
      var again := ReplayFilters(s);
      forall i | 0 <= i < |again|
        ensures Matches(again[i], e) <==> Matches(s.filters[i], e) && s.last.value <= e.createdAt
      {
        SinceAsks(s.filters[i], s.last.value, e);
      }
      if f :| f in s.filters && Matches(f, e) && s.last.value <= e.createdAt {
        var i :| 0 <= i < |s.filters| && s.filters[i] == f;
        assert again[i] in again;
      }
      if f :| f in again && Matches(f, e) {
        var i :| 0 <= i < |again| && again[i] == f;
        assert s.filters[i] in s.filters;
      }
    }
  }

  lemma SinceAsks(f: Filter, since: int, e: Event)
    ensures Matches(Since(f, since), e) <==> Matches(f, e) && since <= e.createdAt
  {
  }

  /**
   * After a reconnect a matching event is asked for again, unless a delivery bore a later stamp; it is dropped as
   * known only if an event with its id was delivered; and the bound is never ahead of every clock.
   */
  lemma NothingLost(s: Subscription, heard: seq<Heard>, e: Event)
    requires s.last.None? && MatchesAny(s.filters, e)
    ensures var r := NotedAll(s, heard);
      && (!MatchesAny(ReplayFilters(r), e) ==> exists h :: h in heard && e.createdAt < h.event.createdAt)
      && (s.atMark == {} && e.id in r.atMark ==> exists h :: h in heard && h.event.id == e.id)
      && (r.last.Some? ==> exists h :: h in heard && r.last.value <= h.now)
  {
    var r := NotedAll(s, heard);
    MarkExact(s, heard);
    ReplayAsks(r, e);
    if r.last.Some? {
      var h :| h in heard && Stamp(h) == r.last.value;
      assert r.last.value <= h.now && r.last.value <= h.event.createdAt;
      if e.id in r.atMark {
        var x :| x in heard && x.event.id == e.id && Stamp(x) == r.last.value;
      }
    }
  }
}
