/**
 * Which relays a filter is sent to, and what is left of it (src/gossip/gossip.ts): the split of a filter over a
 * table of routes, and the events that the parts match together.
 */
module Routing {
  import opened Results
  import opened Events
  import opened Filters

  datatype Routes = Routes(
    write: seq<string>,
    read: seq<string>,
    dm: seq<string>,
    updatedAt: int,
    dmUpdatedAt: int,
    listId: Option<string>,
    dmListId: Option<string>
  )

  type Table = map<string, Routes>

  datatype Direction = Write | Read

  /** A filter per relay, and the work that no relay is known for. */
  datatype Routed = Routed(perRelay: map<string, Filter>, remainder: Option<Filter>)

  function LowerAll(values: seq<string>): (r: seq<string>)
    ensures |r| == |values| && forall i :: 0 <= i < |r| ==> r[i] == Lower(values[i])
  {
    seq(|values|, i requires 0 <= i < |values| => Lower(values[i]))
  }

  function UrlsOf(table: Table, pk: string, dir: Direction): seq<string> {
    if pk !in table then [] else if dir == Write then table[pk].write else table[pk].read
  }

  /** The pubkeys, in their order, that are routed to a relay. */
  function Sending(table: Table, pubkeys: seq<string>, dir: Direction, url: string): (r: seq<string>)
    ensures forall pk :: pk in r <==> pk in pubkeys && url in UrlsOf(table, pk, dir)
  {
    if pubkeys == [] then []
    else
      var pk := pubkeys[|pubkeys| - 1];
      var rest := Sending(table, pubkeys[..|pubkeys| - 1], dir, url);
      if url in UrlsOf(table, pk, dir) then rest + [pk] else rest
  }

  /** The pubkeys, in their order, without a route in this direction. */
  function Unrouted(table: Table, pubkeys: seq<string>, dir: Direction): (r: seq<string>)
    ensures forall pk :: pk in r <==> pk in pubkeys && UrlsOf(table, pk, dir) == []
  {
    if pubkeys == [] then []
    else
      var pk := pubkeys[|pubkeys| - 1];
      var rest := Unrouted(table, pubkeys[..|pubkeys| - 1], dir);
      if UrlsOf(table, pk, dir) == [] then rest + [pk] else rest
  }

  /** All relays of the pubkeys. */
  function AllUrls(table: Table, pubkeys: seq<string>, dir: Direction): set<string> {
    set pk, url | pk in pubkeys && url in UrlsOf(table, pk, dir) :: url
  }

  function Narrow(base: Filter, dir: Direction, pks: seq<string>): Filter {
    if dir == Write then base.(authors := Some(pks)) else base.(tags := base.tags["p" := pks])
  }

  /** #breakAuthors. */
  function Split(table: Table, base: Filter, pubkeys: seq<string>, dir: Direction): Routed {
    var urls := AllUrls(table, pubkeys, dir);
    if urls == {} then Routed(map[], Some(base))
    else
      var left := Unrouted(table, pubkeys, dir);
      Routed(map url | url in urls :: Narrow(base, dir, Sending(table, pubkeys, dir, url)),
             if left == [] then None else Some(Narrow(base, dir, left)))
  }

  function Authors(f: Filter): seq<string> {
    if f.authors.Some? then LowerAll(f.authors.value) else []
  }

  function PTags(f: Filter): seq<string> {
    if "p" in f.tags then LowerAll(f.tags["p"]) else []
  }

  /** A filter for authors and for p tags goes whole to every relay of any of them. */
  function Whole(table: Table, f: Filter, pubkeys: seq<string>): Routed {
    var urls := AllUrls(table, pubkeys, Write) + AllUrls(table, pubkeys, Read);
    if urls == {} then Routed(map[], Some(f))
    else
      Routed(map url | url in urls :: f,
             if exists pk :: pk in pubkeys && UrlsOf(table, pk, Write) == [] && UrlsOf(table, pk, Read) == []
             then Some(f) else None)
  }

  /** route. */
  function Route(table: Table, f: Filter): Routed {
    var authors, pTags := Authors(f), PTags(f);
    if authors == [] && pTags == [] then Routed(map[], Some(f))
    else if pTags == [] then Split(table, f, authors, Write)
    else if authors == [] then Split(table, f.(authors := None), pTags, Read)
    else Whole(table, f, authors + pTags)
  }

  // ---- the meaning of the parts ----

  ghost predicate Covered(r: Routed, e: Event) {
    || (exists url :: url in r.perRelay && Matches(r.perRelay[url], e))
    || (r.remainder.Some? && Matches(r.remainder.value, e))
  }

  /** What a filter asks for, apart from the list that is split. */
  predicate Rest(f: Filter, dir: Direction, e: Event) {
    && (f.ids.Some? ==> ListsLower(f.ids.value, e.id))
    && (f.kinds.Some? ==> e.kind in f.kinds.value)
    && (dir == Read && f.authors.Some? ==> ListsLower(f.authors.value, e.pubkey))
    && (forall name :: name in f.tags && !(dir == Read && name == "p") ==> HasTag(e, name, f.tags[name]))
    && (f.since.Some? ==> f.since.value <= e.createdAt)
    && (f.until.Some? ==> e.createdAt <= f.until.value)
  }

  /** The event is by, or names, the pubkey. */
  predicate Concerns(dir: Direction, pk: string, e: Event) {
    if dir == Write then e.pubkey == Lower(pk)
    else exists tag :: tag in e.tags && |tag| > 1 && tag[0] == "p" && Lower(tag[1]) == Lower(pk)
  }

  lemma NarrowMeans(base: Filter, dir: Direction, pks: seq<string>, e: Event)
    ensures Matches(Narrow(base, dir, pks), e) <==> Rest(base, dir, e) && exists pk :: pk in pks && Concerns(dir, pk, e)
  {
    var f := Narrow(base, dir, pks);
    if dir == Write {
      assert ListsLower(pks, e.pubkey) <==> exists pk :: pk in pks && Concerns(dir, pk, e);
    } else {
      PTagMeans(pks, e);
      assert f.tags["p"] == pks && "p" in f.tags;
      assert forall name :: name in base.tags && name != "p" ==> name in f.tags && f.tags[name] == base.tags[name];
    }
  }

  lemma PTagMeans(pks: seq<string>, e: Event)
    ensures HasTag(e, "p", pks) <==> exists pk :: pk in pks && Concerns(Read, pk, e)
  {
    if tag :| tag in e.tags && TagHits(tag, "p", pks) {
      var v :| v in pks && TagKey("p", v) == TagKey("p", tag[1]);
      assert Concerns(Read, v, e);
    }
    if pk :| pk in pks && Concerns(Read, pk, e) {
      var tag :| tag in e.tags && |tag| > 1 && tag[0] == "p" && Lower(tag[1]) == Lower(pk);
      assert TagKey("p", pk) == TagKey("p", tag[1]);
      assert TagHits(tag, "p", pks);
    }
  }

  /** The split filter, as a filter for all the pubkeys. */
  lemma SplitMeans(table: Table, base: Filter, pubkeys: seq<string>, dir: Direction, e: Event)
    requires pubkeys != []
    ensures AllUrls(table, pubkeys, dir) != {} ==>
      (Covered(Split(table, base, pubkeys, dir), e) <==> Matches(Narrow(base, dir, pubkeys), e))
    ensures AllUrls(table, pubkeys, dir) == {} ==> Split(table, base, pubkeys, dir) == Routed(map[], Some(base))
  {
    hide Matches, Narrow, Rest, Concerns;
    var urls := AllUrls(table, pubkeys, dir);
    if urls != {} {
      var r := Split(table, base, pubkeys, dir);
      var left := Unrouted(table, pubkeys, dir);
      NarrowMeans(base, dir, pubkeys, e);
      NarrowMeans(base, dir, left, e);
      forall url | url in urls
        ensures Matches(r.perRelay[url], e) <==>
          Rest(base, dir, e) && exists pk :: pk in Sending(table, pubkeys, dir, url) && Concerns(dir, pk, e)
      {
        NarrowMeans(base, dir, Sending(table, pubkeys, dir, url), e);
      }
      if pk :| pk in pubkeys && Concerns(dir, pk, e) && Rest(base, dir, e) {
        if UrlsOf(table, pk, dir) == [] {
          assert pk in left;
        } else {
          var url := UrlsOf(table, pk, dir)[0];
          assert url in UrlsOf(table, pk, dir);
          assert url in urls && pk in Sending(table, pubkeys, dir, url);
          assert Matches(r.perRelay[url], e);
        }
      }
    }
  }

  lemma LowerMeans(values: seq<string>, dir: Direction, e: Event)
    ensures (exists pk :: pk in LowerAll(values) && Concerns(dir, pk, e)) <==>
      exists pk :: pk in values && Concerns(dir, pk, e)
  {
    var low := LowerAll(values);
    if pk :| pk in low && Concerns(dir, pk, e) {
      var i :| 0 <= i < |low| && low[i] == pk;
      LowerTwice(values[i]);
      assert values[i] in values && Concerns(dir, values[i], e);
    }
    if pk :| pk in values && Concerns(dir, pk, e) {
      var i :| 0 <= i < |values| && values[i] == pk;
      LowerTwice(pk);
      assert low[i] in low && Concerns(dir, low[i], e);
    }
  }

  /** Lower-casing the pubkeys of a filter does not change what it matches. */
  lemma LowerNarrow(f: Filter, dir: Direction, values: seq<string>, e: Event)
    requires f == Narrow(f, dir, values)
    ensures Matches(f, e) <==> Matches(Narrow(f, dir, LowerAll(values)), e)
  {
    hide Matches, Rest, Concerns;
    NarrowMeans(f, dir, values, e);
    NarrowMeans(f, dir, LowerAll(values), e);
    LowerMeans(values, dir, e);
  }

  /** The authors of the original filter are given up when there are none of them, but p tags. */
  predicate DropsAuthors(f: Filter) {
    f.authors == Some([]) && PTags(f) != []
  }

  /** The filter without its empty list of authors. */
  function Heard(f: Filter): Filter {
    if DropsAuthors(f) then f.(authors := None) else f
  }

  lemma WholeMeans(table: Table, f: Filter, pubkeys: seq<string>, e: Event)
    requires pubkeys != []
    ensures Covered(Whole(table, f, pubkeys), e) <==> Matches(f, e)
  {
    hide Matches;
    var urls := AllUrls(table, pubkeys, Write) + AllUrls(table, pubkeys, Read);
    if urls != {} {
      var url :| url in urls;
      assert Whole(table, f, pubkeys).perRelay[url] == f;
    }
  }

  /** The parts of a routed filter match what the filter matches, once an empty list of authors is given up. */
  lemma RouteMeans(table: Table, f: Filter, e: Event)
    ensures Covered(Route(table, f), e) <==> Matches(Heard(f), e)
  {
    hide Matches, Split, Whole;
    var authors, pTags := Authors(f), PTags(f);
    if authors == [] && pTags == [] {
    } else if pTags == [] {
      SplitMeans(table, f, authors, Write, e);
      LowerNarrow(f, Write, f.authors.value, e);
    } else if authors == [] {
      var base := f.(authors := None);
      SplitMeans(table, base, pTags, Read, e);
      assert base.tags["p" := f.tags["p"]] == base.tags;
      LowerNarrow(base, Read, f.tags["p"], e);
      assert Heard(f) == base;
    } else {
      WholeMeans(table, f, authors + pTags, e);
    }
  }

  // ---- when the meaning is kept ----

  /** Some event matches: no list of the filter is empty and its time window is not. */
  predicate Open(f: Filter) {
    && f.ids != Some([]) && f.kinds != Some([]) && f.authors != Some([])
    && (forall name :: name in f.tags ==> f.tags[name] != [])
    && (f.since.Some? && f.until.Some? ==> f.since.value <= f.until.value)
  }

  ghost function OneTagEach(tags: map<string, seq<string>>, names: set<string>): (r: seq<Tag>)
    requires forall name :: name in names ==> name in tags && tags[name] != []
    ensures forall name :: name in names ==> [name, tags[name][0]] in r
    decreases |names|
  {
    if names == {} then []
    else
      var name :| name in names;
      [[name, tags[name][0]]] + OneTagEach(tags, names - {name})
  }

  /** An event that the filter matches. */
  ghost function Example(f: Filter): Event
    requires Open(f)
  {
    Event(if f.ids.Some? then Lower(f.ids.value[0]) else "",
          if f.authors.Some? then Lower(f.authors.value[0]) else "",
          if f.kinds.Some? then f.kinds.value[0] else 0,
          if f.since.Some? then f.since.value else if f.until.Some? then f.until.value else 0,
          OneTagEach(f.tags, f.tags.Keys), "", "")
  }

  lemma OpenMatches(f: Filter)
    ensures Open(f) ==> Matches(f, Example(f))
    ensures (exists e :: Matches(f, e)) <==> Open(f)
  {
    if Open(f) {
      var e := Example(f);
      assert f.ids.Some? ==> f.ids.value[0] in f.ids.value;
      assert f.authors.Some? ==> f.authors.value[0] in f.authors.value;
      forall name | name in f.tags
        ensures HasTag(e, name, f.tags[name])
      {
        var tag := [name, f.tags[name][0]];
        assert f.tags[name][0] in f.tags[name];
        assert tag[1] == f.tags[name][0] && TagHits(tag, name, f.tags[name]);
        assert tag in e.tags;
      }
      assert Matches(f, e);
    }
    if e :| Matches(f, e) {
      forall name | name in f.tags
        ensures f.tags[name] != []
      {
        assert HasTag(e, name, f.tags[name]);
      }
      assert Open(f);
    }
  }

  /** No event is lost: what the filter matches is matched by a part. */
  lemma RouteLosesNothing(table: Table, f: Filter, e: Event)
    requires Matches(f, e)
    ensures Covered(Route(table, f), e)
  {
    RouteMeans(table, f, e);
    assert !DropsAuthors(f);
  }

  /**
   * The parts match exactly what the filter matches, whatever the table, if and only if the filter does not list
   * no author at all beside p tags, in an otherwise satisfiable filter.
   */
  lemma RouteKeepsMeaning(table: Table, f: Filter)
    ensures (forall e :: Covered(Route(table, f), e) <==> Matches(f, e)) <==>
      !(DropsAuthors(f) && Open(f.(authors := None)))
  {
    hide Matches, Route;
    forall e
      ensures Covered(Route(table, f), e) <==> Matches(Heard(f), e)
    {
      RouteMeans(table, f, e);
    }
    OpenMatches(f);
    OpenMatches(f.(authors := None));
    if DropsAuthors(f) {
      assert Heard(f) == f.(authors := None);
      assert !Open(f);
      if Open(Heard(f)) {
        assert Covered(Route(table, f), Example(Heard(f))) && !Matches(f, Example(Heard(f)));
      }
    }
  }

  /** A filter that lists no author, beside a p tag, matches nothing; its parts match what names the pubkey. */
  lemma EmptyAuthorsWiden(table: Table)
    ensures
      && var f := Filter(None, None, Some([]), map["p" := ["a"]], None, None, None);
      && var e := Event("", "", 1, 0, [["p", "a"]], "", "");
      && !Matches(f, e) && Covered(Route(table, f), e)
  {
    var f := Filter(None, None, Some([]), map["p" := ["a"]], None, None, None);
    var e := Event("", "", 1, 0, [["p", "a"]], "", "");
    RouteMeans(table, f, e);
    assert |PTags(f)| == 1;
    assert TagHits(["p", "a"], "p", ["a"]) by {
      assert "a" in ["a"] && TagKey("p", "a") == TagKey("p", "a");
    }
    assert ["p", "a"] in e.tags;
    assert HasTag(e, "p", ["a"]);
  }

  /**
   * A pubkey is in the filter of a relay if and only if the relay is on its list, and in the remainder if and
   * only if it has no route in this direction; it is never in neither.
   */
  lemma SplitPlaces(table: Table, base: Filter, pubkeys: seq<string>, dir: Direction, pk: string)
    requires pk in pubkeys && AllUrls(table, pubkeys, dir) != {}
    ensures var r := Split(table, base, pubkeys, dir);
      && (forall url :: url in r.perRelay <==> exists other :: other in pubkeys && url in UrlsOf(table, other, dir))
      && (forall url :: url in r.perRelay ==>
            (pk in Listed(r.perRelay[url], dir) <==> url in UrlsOf(table, pk, dir)))
      && (r.remainder.Some? && pk in Listed(r.remainder.value, dir) <==> UrlsOf(table, pk, dir) == [])
  {
    var r := Split(table, base, pubkeys, dir);
    forall url
      ensures url in r.perRelay <==> exists other :: other in pubkeys && url in UrlsOf(table, other, dir)
    {
      assert url in r.perRelay <==> url in AllUrls(table, pubkeys, dir);
    }
  }

  /** The pubkeys of a narrowed filter. */
  function Listed(f: Filter, dir: Direction): seq<string> {
    if dir == Write then (if f.authors.Some? then f.authors.value else [])
    else if "p" in f.tags then f.tags["p"] else []
  }
}
