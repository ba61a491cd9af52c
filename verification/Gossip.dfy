/** The routing table as an object, and the loops that split a filter over it (src/gossip/gossip.ts). */
module Gossips {
  import opened Results
  import opened Events
  import opened Filters
  import opened Ordered
  import opened Routing
  import opened RouteTable
  import opened Sequences

  class Gossip {
    const maxRelays: nat
    const maxPubkeys: nat
    const normal: string -> Option<string>
    var routes: Recency

    ghost predicate Valid()
      reads this
    {
      WellFormed(routes) && |routes.keys| <= maxPubkeys && Tidy(routes.values)
    }

    constructor (maxRelays: nat, maxPubkeys: nat, normal: string -> Option<string>)
      ensures Valid() && routes == Empty()
      ensures this.maxRelays == maxRelays && this.maxPubkeys == maxPubkeys && this.normal == normal
    {
      this.maxRelays, this.maxPubkeys, this.normal := maxRelays, maxPubkeys, normal;
      routes := Empty();
    }

    /** #lookup: a read that refreshes recency. */
    method Lookup(pk: string) returns (r: Option<Routes>)
      requires Valid()
      modifies this
      ensures Valid() && routes == Looked(old(routes), pk) && routes.values == old(routes).values
      ensures r == if pk in old(routes).values then Some(old(routes).values[pk]) else None
    {
      LookedFits(routes, pk);
      if pk !in routes.values {
        return None;
      }
      r := Some(routes.values[pk]);
      routes := Enter(Delete(routes, pk), pk, r.value);
    }

    /** #put: a write at the newest end, then the oldest beyond the cap go. */
    method Store(pk: string, entry: Routes)
      requires Valid() && Distinct(entry.write) && Distinct(entry.read)
      modifies this
      ensures Valid() && routes == Put(old(routes), pk, entry, maxPubkeys)
    {
      hide WellFormed, TouchKey, Tidy, Distinct;
      PutTidy(routes, pk, entry, maxPubkeys);
      routes := TouchKey(routes, pk, entry);
      routes := Trim(routes, maxPubkeys);
    }

    /** The normalized urls of a list, each once, that are not marked for the other direction. */
    method CollectUrls(items: seq<RelayItem>, skip: Marker) returns (urls: seq<string>)
      ensures urls == Collect(items, skip, normal) && Distinct(urls)
    {
      CollectDistinct(items, skip, normal);
      urls := [];
      for i := 0 to |items|
        invariant urls == Collect(items[..i], skip, normal)
      {
        var more := items[..i + 1];
        assert more[..i] == items[..i] && more[i] == items[i];
        var url := normal(items[i].url);
        if url.Some? && items[i].marker != skip && url.value !in urls {
          urls := urls + [url.value];
        }
      }
      assert items[..|items|] == items;
    }

    function Kept(): Limits {
      Limits(maxRelays, maxPubkeys, normal)
    }

    /** setRoutes: the write and read relays of a kind 10002 list. */
    method SetRoutes(pubkey: string, items: seq<RelayItem>, at: int, id: Option<string>) returns (ok: bool)
      requires Valid()
      modifies this
      ensures Valid() && routes == SetList(old(routes), Lower(pubkey), items, at, id, Kept())
      ensures ok == Accepts(SlotOf(old(routes), Lower(pubkey), false), at, id)
    {
      hide Looked, Put, Collect, WellFormed, Distinct;
      var pk := Lower(pubkey);
      var found := Lookup(pk);
      var prev := if found.Some? then found.value else NoRoutes();
      if prev.updatedAt > at {
        return false;
      }
      if id.Some? && prev.listId.Some? && prev.updatedAt == at &&
         !Wins(Mark(id.value, at), Mark(prev.listId.value, prev.updatedAt)) {
        return false;
      }
      var write := CollectUrls(items, ForReading);
      var read := CollectUrls(items, ForWriting);
      FirstDistinct(write, maxRelays);
      FirstDistinct(read, maxRelays);
      Store(pk, Routes(First(write, maxRelays), First(read, maxRelays), prev.dm, at, prev.dmUpdatedAt,
                       if id.Some? then id else prev.listId, prev.dmListId));
      ok := true;
    }

    /** setDmRoutes: the delivery relays of a kind 10050 list. */
    method SetDmRoutes(pubkey: string, relays: seq<string>, at: int, id: Option<string>) returns (ok: bool)
      requires Valid()
      modifies this
      ensures Valid() && routes == SetDm(old(routes), Lower(pubkey), relays, at, id, Kept())
      ensures ok == Accepts(SlotOf(old(routes), Lower(pubkey), true), at, id)
    {
      hide Looked, Put, Collect, WellFormed, Distinct;
      var pk := Lower(pubkey);
      PrevTidy(routes.values, pk);
      var found := Lookup(pk);
      var prev := if found.Some? then found.value else NoRoutes();
      if prev.dmUpdatedAt > at {
        return false;
      }
      if id.Some? && prev.dmListId.Some? && prev.dmUpdatedAt == at &&
         !Wins(Mark(id.value, at), Mark(prev.dmListId.value, prev.dmUpdatedAt)) {
        return false;
      }
      var dm := CollectUrls(Plain(relays), ForReading);
      FirstDistinct(dm, maxRelays);
      Store(pk, prev.(dm := First(dm, maxRelays), dmUpdatedAt := at,
                      dmListId := if id.Some? then id else prev.dmListId));
      ok := true;
    }

    /** clear: one pubkey, or all of them. */
    method Clear(pubkey: Option<string>)
      requires Valid()
      modifies this
      ensures Valid()
      ensures routes == if pubkey.None? || pubkey.value == "" then Empty() else Delete(old(routes), Lower(pubkey.value))
    {
      if pubkey.Some? && pubkey.value != "" {
        DeleteWellFormed(routes, Lower(pubkey.value));
        DistinctCount(routes.keys);
        DistinctCount(Delete(routes, Lower(pubkey.value)).keys);
        SubsetCount(routes.values.Keys - {Lower(pubkey.value)}, routes.values.Keys);
        routes := Delete(routes, Lower(pubkey.value));
      } else {
        routes := Empty();
      }
    }

    // ---- route ----

    /** The pubkey goes to the list of each of its relays. */
    static method PushTo(was: map<string, seq<string>>, pk: string, urls: seq<string>)
      returns (perRelay: map<string, seq<string>>)
      requires Distinct(urls)
      ensures Pushed(was, pk, urls, perRelay)
    {
      hide Pushed, Distinct;
      perRelay := was;
      PushedNone(was, pk, urls);
      for j := 0 to |urls|
        invariant Pushed(was, pk, urls[..j], perRelay)
      {
        PushedNext(was, pk, urls, j, perRelay);
        var list := if urls[j] in perRelay then perRelay[urls[j]] else [];
        perRelay := perRelay[urls[j] := list + [pk]];
      }
      assert urls[..|urls|] == urls;
    }

    /** #breakAuthors. */
    method BreakAuthors(base: Filter, pubkeys: seq<string>, dir: Direction) returns (r: Routed)
      requires Valid()
      modifies this
      ensures Valid() && r == Split(old(routes).values, base, pubkeys, dir)
      ensures routes == LookedAll(old(routes), pubkeys) && routes.values == old(routes).values
    {
      hide Looked, LookedAll, SplitSoFar, Pushed, WellFormed, Distinct, Sending, Unrouted;
      ghost var table := routes.values;
      var perRelay: map<string, seq<string>> := map[];
      var unrouted: seq<string> := [];
      var anyRoute := false;
      SplitNone(routes, pubkeys, dir);
      for i := 0 to |pubkeys|
        invariant Valid() && routes.values == table && routes == LookedAll(old(routes), pubkeys[..i])
        invariant SplitSoFar(table, pubkeys[..i], dir, perRelay, unrouted, anyRoute)
      {
        var pk := pubkeys[i];
        LookedMore(old(routes), pubkeys, i);
        var found := Lookup(pk);
        var urls := if found.None? then [] else if dir == Write then found.value.write else found.value.read;
        assert urls == UrlsOf(table, pk, dir);
        ghost var was, left, any := perRelay, unrouted, anyRoute;
        if urls == [] {
          unrouted := unrouted + [pk];
        } else {
          anyRoute := true;
        }
        TidyUrls(table, pk, dir);
        perRelay := PushTo(perRelay, pk, urls);
        SplitNext(table, pubkeys, i, dir, was, left, any, perRelay);
      }
      assert pubkeys[..|pubkeys|] == pubkeys;
      SplitIs(table, base, pubkeys, dir, perRelay, unrouted, anyRoute);
      if !anyRoute {
        return Routed(map[], Some(base));
      }
      r := Routed(map url | url in perRelay :: Narrow(base, dir, perRelay[url]),
                  if unrouted != [] then Some(Narrow(base, dir, unrouted)) else None);
    }

    /** The last case of route: every relay of any of the pubkeys gets the whole filter. */
    method SendWhole(f: Filter, pubkeys: seq<string>) returns (r: Routed)
      requires Valid()
      modifies this
      ensures Valid() && r == Whole(old(routes).values, f, pubkeys)
      ensures routes == LookedAll(old(routes), pubkeys) && routes.values == old(routes).values
    {
      hide Looked, LookedAll, WellFormed, Distinct;
      ghost var table := routes.values;
      var relays: set<string> := {};
      var anyUnrouted := false;
      SplitNone(routes, pubkeys, Write);
      for i := 0 to |pubkeys|
        invariant Valid() && routes.values == table && routes == LookedAll(old(routes), pubkeys[..i])
        invariant relays == AllUrls(table, pubkeys[..i], Write) + AllUrls(table, pubkeys[..i], Read)
        invariant anyUnrouted <==>
          exists pk :: pk in pubkeys[..i] && UrlsOf(table, pk, Write) == [] && UrlsOf(table, pk, Read) == []
      {
        var pk := pubkeys[i];
        LookedMore(old(routes), pubkeys, i);
        WholeNext(table, pubkeys, i);
        var found := Lookup(pk);
        var urls := if found.None? then [] else found.value.write + found.value.read;
        if urls == [] {
          anyUnrouted := true;
        } else {
          relays := relays + (set url | url in urls);
        }
      }
      assert pubkeys[..|pubkeys|] == pubkeys;
      if relays == {} {
        return Routed(map[], Some(f));
      }
      r := Routed(map url | url in relays :: f, if anyUnrouted then Some(f) else None);
    }

    /** route; the table only changes in which pubkeys were used last. */
    method RouteFilter(f: Filter) returns (r: Routed)
      requires Valid()
      modifies this
      ensures Valid() && r == Route(old(routes).values, f)
      ensures routes == LookedAll(old(routes), RouteKeys(f)) && routes.values == old(routes).values
    {
      hide Looked, WellFormed, Distinct, Tidy;
      var authors, pTags := Authors(f), PTags(f);
      if authors == [] && pTags == [] {
        return Routed(map[], Some(f));
      }
      if pTags == [] {
        r := BreakAuthors(f, authors, Write);
      } else if authors == [] {
        r := BreakAuthors(f.(authors := None), pTags, Read);
      } else {
        r := SendWhole(f, Once(authors + pTags));
        WholeOnce(old(routes).values, f, authors + pTags);
      }
    }
  }
}
