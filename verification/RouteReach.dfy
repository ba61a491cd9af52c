/**
 * Where a filter is sent, by the items of the relay lists in force (src/gossip/gossip.ts): authors to the relays
 * that they write to, p tags to the relays that they read from.
 */
module RouteReach {
  import opened Results
  import opened Events
  import opened Ordered
  import opened Filters
  import opened Routing
  import opened RouteTable
  import opened RouteRuns
  import opened Sequences

  // ---- what a list offers ----

  /** The item is one of the url in normal form, and not marked with `skip`. */
  predicate Brings(items: seq<RelayItem>, skip: Marker, normal: string -> Option<string>, i: nat, url: string) {
    i < |items| && items[i].marker != skip && normal(items[i].url) == Some(url)
  }

  /** The urls of the items before `i` that are not marked with `skip`. */
  function Before(items: seq<RelayItem>, skip: Marker, normal: string -> Option<string>, i: nat): set<string>
    requires i <= |items|
  {
    set j | 0 <= j < i && items[j].marker != skip && normal(items[j].url).Some? :: normal(items[j].url).value
  }

  /** The url is that of an item that is not marked with `skip`, and less than `n` other urls come before it. */
  ghost predicate OnList(items: seq<RelayItem>, skip: Marker, normal: string -> Option<string>, n: nat, url: string) {
    exists i: nat :: Brings(items, skip, normal, i, url) && |Before(items, skip, normal, i)| < n
  }

  lemma CollectBefore(items: seq<RelayItem>, skip: Marker, normal: string -> Option<string>)
    ensures Elements(Collect(items, skip, normal)) == Before(items, skip, normal, |items|)
    ensures |Collect(items, skip, normal)| == |Before(items, skip, normal, |items|)|
  {
    CollectDistinct(items, skip, normal);
    DistinctCount(Collect(items, skip, normal));
    hide Collect;
    assert Elements(Collect(items, skip, normal)) == Before(items, skip, normal, |items|);
  }

  /** The items before `i` are the same on a list that goes on. */
  lemma BeforeInit(items: seq<RelayItem>, skip: Marker, normal: string -> Option<string>, i: nat, n: nat)
    requires i <= n <= |items|
    ensures Before(items[..n], skip, normal, i) == Before(items, skip, normal, i)
  {
    assert forall j :: 0 <= j < i ==> items[..n][j] == items[j];
  }

  lemma OnListNext(items: seq<RelayItem>, skip: Marker, normal: string -> Option<string>, n: nat, url: string)
    requires items != []
    ensures OnList(items, skip, normal, n, url) <==>
      || OnList(items[..|items| - 1], skip, normal, n, url)
      || (Brings(items, skip, normal, |items| - 1, url) && |Before(items, skip, normal, |items| - 1)| < n)
  {
    var last := |items| - 1;
    var init := items[..last];
    if i: nat :| Brings(items, skip, normal, i, url) && |Before(items, skip, normal, i)| < n && i < last {
      BeforeInit(items, skip, normal, i, last);
      assert Brings(init, skip, normal, i, url);
    }
    if i: nat :| Brings(init, skip, normal, i, url) && |Before(init, skip, normal, i)| < n {
      BeforeInit(items, skip, normal, i, last);
      assert Brings(items, skip, normal, i, url);
    }
  }

  lemma FirstSnoc(urls: seq<string>, url: string, n: nat)
    ensures First(urls + [url], n) == First(urls, n) + if |urls| < n then [url] else []
  {
  }

  /** What is collected from a list, up to the cap, is what is on it. */
  lemma {:induction false} CollectedOnList(items: seq<RelayItem>, skip: Marker, normal: string -> Option<string>,
                                           n: nat, url: string)
    ensures url in First(Collect(items, skip, normal), n) <==> OnList(items, skip, normal, n, url)
  {
    if items != [] {
      var last := |items| - 1;
      var init, item := items[..last], items[last];
      CollectedOnList(init, skip, normal, n, url);
      OnListNext(items, skip, normal, n, url);
      CollectBefore(init, skip, normal);
      BeforeInit(items, skip, normal, last, last);
      var rest := Collect(init, skip, normal);
      hide OnList, Before;
      if normal(item.url).Some? {
        FirstSnoc(rest, normal(item.url).value, n);
      }
    }
  }

  // ---- the list in force ----

  /** The last relay list of `k` that was accepted, unless `k` has been forgotten since. */
  function InForce(steps: seq<Step>, c: Limits, k: string): Option<Step> {
    if steps == [] then None
    else
      var init, step := steps[..|steps| - 1], steps[|steps| - 1];
      if k !in Run(steps, c).values then None
      else if step.List? && step.pk == k && Writes(Run(init, c), step) then Some(step)
      else InForce(init, c, k)
  }

  /** It is one of the lists that came in, and the one whose time and id the table keeps. */
  lemma {:induction false} InForceCame(steps: seq<Step>, c: Limits, k: string)
    ensures InForce(steps, c, k).Some? ==>
      && var step := InForce(steps, c, k).value;
      && step in steps && step.List? && step.pk == k
      && SlotOf(Run(steps, c), k, false) == Slot(step.mark.createdAt, Some(step.mark.id))
    ensures InForce(steps, c, k).None? ==> SlotOf(Run(steps, c), k, false) == Slot(0, None)
  {
    hide Apply, WellFormed, Accepts;
    if steps != [] {
      var init, step := steps[..|steps| - 1], steps[|steps| - 1];
      InForceCame(init, c, k);
      RunWellFormed(init, c);
      ApplyIs(Run(init, c), step, c, k);
    }
  }

  /** As long as `k` is not forgotten, no list of it that came in wins over the one in force. */
  lemma NewestInForce(steps: seq<Step>, c: Limits, k: string)
    requires NeverEvicted(steps, c, k)
    ensures InForce(steps, c, k).None? <==> forall m :: m in MarksOf(steps, k, false) ==> m.createdAt < 0
    ensures InForce(steps, c, k).Some? ==>
      && var step := InForce(steps, c, k).value;
      && step in steps && step.List? && step.mark in MarksOf(steps, k, false)
      && forall m :: m in MarksOf(steps, k, false) ==> !Wins(m, step.mark)
  {
    hide NeverEvicted, Run, MarksOf, InForce, SlotOf;
    InForceCame(steps, c, k);
    LatestKept(steps, c, k, false);
  }

  /** What the table keeps of a list. */
  lemma {:induction false} InForceKept(steps: seq<Step>, c: Limits, k: string)
    ensures
      && var m, list := Run(steps, c), InForce(steps, c, k);
      && (list.Some? ==>
            && list.value.List? && k in m.values
            && m.values[k].write == First(Collect(list.value.items, ForReading, c.normal), c.maxRelays)
            && m.values[k].read == First(Collect(list.value.items, ForWriting, c.normal), c.maxRelays))
      && (list.None? && k in m.values ==> m.values[k].write == [] && m.values[k].read == [])
  {
    hide Apply, WellFormed, Accepts, Collect, First;
    if steps != [] {
      var init, step := steps[..|steps| - 1], steps[|steps| - 1];
      InForceKept(init, c, k);
      RunWellFormed(init, c);
      ApplyIs(Run(init, c), step, c, k);
      ForgottenNone(init, c, k);
    }
  }

  lemma ForgottenNone(steps: seq<Step>, c: Limits, k: string)
    ensures k !in Run(steps, c).values ==> InForce(steps, c, k).None?
  {
  }

  // ---- delivery relays ----

  /** The relay text is not empty and is one of the url in normal form. */
  predicate Delivers(relays: seq<string>, normal: string -> Option<string>, i: nat, url: string) {
    i < |relays| && relays[i] != "" && normal(relays[i]) == Some(url)
  }

  function DeliversBefore(relays: seq<string>, normal: string -> Option<string>, i: nat): set<string>
    requires i <= |relays|
  {
    set j | 0 <= j < i && relays[j] != "" && normal(relays[j]).Some? :: normal(relays[j]).value
  }

  /** The url is that of a relay that is listed for delivery, and less than `n` other urls come before it. */
  ghost predicate OnDmList(relays: seq<string>, normal: string -> Option<string>, n: nat, url: string) {
    exists i: nat :: Delivers(relays, normal, i, url) && |DeliversBefore(relays, normal, i)| < n
  }

  lemma OnDmNext(relays: seq<string>, normal: string -> Option<string>, n: nat, url: string)
    requires relays != []
    ensures OnDmList(relays, normal, n, url) <==>
      || OnDmList(relays[..|relays| - 1], normal, n, url)
      || (Delivers(relays, normal, |relays| - 1, url) && |DeliversBefore(relays, normal, |relays| - 1)| < n)
  {
    var last := |relays| - 1;
    var init := relays[..last];
    forall i: nat | i <= last
      ensures DeliversBefore(init, normal, i) == DeliversBefore(relays, normal, i)
    {
      assert forall j :: 0 <= j < i ==> init[j] == relays[j];
    }
    if i: nat :| Delivers(relays, normal, i, url) && |DeliversBefore(relays, normal, i)| < n && i < last {
      assert Delivers(init, normal, i, url);
    }
    if i: nat :| Delivers(init, normal, i, url) && |DeliversBefore(init, normal, i)| < n {
      assert Delivers(relays, normal, i, url);
    }
  }

  lemma BeforeNext(items: seq<RelayItem>, skip: Marker, normal: string -> Option<string>, i: nat)
    requires i < |items|
    ensures
      && var more := items[i].marker != skip && normal(items[i].url).Some?;
      && Before(items, skip, normal, i + 1) ==
           Before(items, skip, normal, i) + if more then {normal(items[i].url).value} else {}
  {
  }

  lemma DeliversNext(relays: seq<string>, normal: string -> Option<string>, i: nat)
    requires i < |relays|
    ensures
      && var more := relays[i] != "" && normal(relays[i]).Some?;
      && DeliversBefore(relays, normal, i + 1) ==
           DeliversBefore(relays, normal, i) + if more then {normal(relays[i]).value} else {}
  {
  }

  /** As a list without markers. */
  lemma {:induction false} PlainBefore(relays: seq<string>, normal: string -> Option<string>)
    ensures Before(Plain(relays), ForReading, normal, |Plain(relays)|) == DeliversBefore(relays, normal, |relays|)
  {
    if relays != [] {
      var last := |relays| - 1;
      var init := relays[..last];
      PlainBefore(init, normal);
      assert DeliversBefore(init, normal, last) == DeliversBefore(relays, normal, last) by {
        assert forall j :: 0 <= j < last ==> init[j] == relays[j];
      }
      var items, rest := Plain(relays), Plain(init);
      assert items[..|rest|] == rest;
      BeforeInit(items, ForReading, normal, |rest|, |rest|);
      DeliversNext(relays, normal, last);
      if relays[last] != "" {
        BeforeNext(items, ForReading, normal, |rest|);
      }
      hide Before, DeliversBefore;
    }
  }

  lemma {:induction false} PlainOnList(relays: seq<string>, normal: string -> Option<string>, n: nat, url: string)
    ensures OnList(Plain(relays), ForReading, normal, n, url) <==> OnDmList(relays, normal, n, url)
  {
    if relays != [] {
      var last := |relays| - 1;
      var init := relays[..last];
      PlainOnList(init, normal, n, url);
      OnDmNext(relays, normal, n, url);
      PlainBefore(init, normal);
      var items, rest := Plain(relays), Plain(init);
      assert DeliversBefore(init, normal, last) == DeliversBefore(relays, normal, last) by {
        assert forall j :: 0 <= j < last ==> init[j] == relays[j];
      }
      if relays[last] != "" {
        assert items[..|rest|] == rest;
        OnListNext(items, ForReading, normal, n, url);
        BeforeInit(items, ForReading, normal, |rest|, |rest|);
      }
      hide OnList, OnDmList, Before, DeliversBefore;
    }
  }

  /** The delivery relays of a pubkey are those of a list that came in with the time and id that the table keeps. */
  lemma DmOffered(steps: seq<Step>, c: Limits, k: string, url: string)
    requires k in Run(steps, c).values && Run(steps, c).values[k].dmListId.Some?
    ensures
      && var r := Run(steps, c).values[k];
      && exists step :: step in steps && step.DmList? && step.pk == k &&
           step.mark == Mark(r.dmListId.value, r.dmUpdatedAt) &&
           (url in r.dm <==> OnDmList(step.relays, c.normal, c.maxRelays, url))
  {
    hide Run, Collect, First, Plain, OnDmList, OnList;
    RelaysAreListed(steps, c, k);
    var r := Run(steps, c).values[k];
    var step :| step in steps && BroughtDm(step, c, k, Mark(r.dmListId.value, r.dmUpdatedAt), r.dm);
    CollectedOnList(Plain(step.relays), ForReading, c.normal, c.maxRelays, url);
    PlainOnList(step.relays, c.normal, c.maxRelays, url);
  }

  // ---- where a filter goes ----

  /** The list in force of the pubkey, in any case, offers the url in an item that is not marked with `skip`. */
  ghost predicate Offers(steps: seq<Step>, c: Limits, pubkey: string, skip: Marker, url: string) {
    && var list := InForce(steps, c, Lower(pubkey));
    && list.Some? && list.value.List? && OnList(list.value.items, skip, c.normal, c.maxRelays, url)
  }

  lemma TableOffers(steps: seq<Step>, c: Limits, pubkey: string, url: string)
    ensures
      && var k, table := Lower(pubkey), Run(steps, c).values;
      && (k in table && url in table[k].write <==> Offers(steps, c, pubkey, ForReading, url))
      && (k in table && url in table[k].read <==> Offers(steps, c, pubkey, ForWriting, url))
  {
    hide Run, InForce, Collect, First, OnList;
    var k := Lower(pubkey);
    InForceKept(steps, c, k);
    if InForce(steps, c, k).Some? && InForce(steps, c, k).value.List? {
      var items := InForce(steps, c, k).value.items;
      CollectedOnList(items, ForReading, c.normal, c.maxRelays, url);
      CollectedOnList(items, ForWriting, c.normal, c.maxRelays, url);
    }
  }

  /** The mark that keeps an item from counting in this direction. */
  function Skipped(dir: Direction): Marker {
    if dir == Write then ForReading else ForWriting
  }

  lemma UrlsOffered(steps: seq<Step>, c: Limits, pubkey: string, dir: Direction, url: string)
    ensures url in UrlsOf(Run(steps, c).values, Lower(pubkey), dir) <==> Offers(steps, c, pubkey, Skipped(dir), url)
  {
    hide Run, Offers;
    TableOffers(steps, c, pubkey, url);
  }

  /** No relay is known for the pubkey in this direction. */
  ghost predicate Unserved(steps: seq<Step>, c: Limits, pubkey: string, skip: Marker) {
    forall url :: !Offers(steps, c, pubkey, skip, url)
  }

  lemma UrlsNone(steps: seq<Step>, c: Limits, pubkey: string, dir: Direction)
    ensures UrlsOf(Run(steps, c).values, Lower(pubkey), dir) == [] <==> Unserved(steps, c, pubkey, Skipped(dir))
  {
    hide Run, Offers, UrlsOf;
    var urls := UrlsOf(Run(steps, c).values, Lower(pubkey), dir);
    forall url
      ensures url in urls <==> Offers(steps, c, pubkey, Skipped(dir), url)
    {
      UrlsOffered(steps, c, pubkey, dir, url);
    }
    if urls != [] {
      assert urls[0] in urls;
    }
  }

  /** Of the pubkeys, in lower case, those with a value that has the property. */
  lemma InLower(values: seq<string>, pk: string)
    ensures pk in LowerAll(values) <==> exists a :: a in values && Lower(a) == pk
  {
    var low := LowerAll(values);
    if pk in low {
      var i :| 0 <= i < |low| && low[i] == pk;
      assert values[i] in values && Lower(values[i]) == pk;
    }
    if a :| a in values && Lower(a) == pk {
      var i :| 0 <= i < |values| && values[i] == a;
      assert low[i] in low;
    }
  }

  /** `pk` is one of the values in lower case, and its list offers the url. */
  ghost predicate Sends(steps: seq<Step>, c: Limits, values: seq<string>, skip: Marker, url: string, pk: string) {
    exists a :: a in values && Lower(a) == pk && Offers(steps, c, a, skip, url)
  }

  /** `pk` is one of the values in lower case, and no relay is known for it. */
  ghost predicate Lacks(steps: seq<Step>, c: Limits, values: seq<string>, skip: Marker, pk: string) {
    exists a :: a in values && Lower(a) == pk && Unserved(steps, c, a, skip)
  }

  ghost predicate SomeSends(steps: seq<Step>, c: Limits, values: seq<string>, skip: Marker, url: string) {
    exists pk :: Sends(steps, c, values, skip, url, pk)
  }

  ghost predicate SomeLacks(steps: seq<Step>, c: Limits, values: seq<string>, skip: Marker) {
    exists pk :: Lacks(steps, c, values, skip, pk)
  }

  ghost predicate AllSend(steps: seq<Step>, c: Limits, values: seq<string>, skip: Marker, url: string,
                          pks: seq<string>) {
    forall pk :: pk in pks <==> Sends(steps, c, values, skip, url, pk)
  }

  ghost predicate AllLack(steps: seq<Step>, c: Limits, values: seq<string>, skip: Marker, pks: seq<string>) {
    forall pk :: pk in pks <==> Lacks(steps, c, values, skip, pk)
  }

  lemma SendsIs(steps: seq<Step>, c: Limits, values: seq<string>, dir: Direction, url: string, pk: string)
    ensures Sends(steps, c, values, Skipped(dir), url, pk) <==>
      pk in LowerAll(values) && url in UrlsOf(Run(steps, c).values, pk, dir)
    ensures Lacks(steps, c, values, Skipped(dir), pk) <==>
      pk in LowerAll(values) && UrlsOf(Run(steps, c).values, pk, dir) == []
  {
    hide Run, Offers, UrlsOf, LowerAll, Unserved, Lower, Skipped;
    InLower(values, pk);
    if a :| a in values && Lower(a) == pk {
      UrlsOffered(steps, c, a, dir, url);
      UrlsNone(steps, c, a, dir);
      forall b | b in values && Lower(b) == pk
        ensures Offers(steps, c, b, Skipped(dir), url) <==> Offers(steps, c, a, Skipped(dir), url)
        ensures Unserved(steps, c, b, Skipped(dir)) <==> Unserved(steps, c, a, Skipped(dir))
      {
        UrlsOffered(steps, c, b, dir, url);
        UrlsNone(steps, c, b, dir);
      }
    }
  }

  /** What the split over the table of a run sends to a relay. */
  lemma SplitSends(steps: seq<Step>, c: Limits, base: Filter, values: seq<string>, dir: Direction, url: string)
    ensures
      && var r := Split(Run(steps, c).values, base, LowerAll(values), dir);
      && (url in r.perRelay <==> SomeSends(steps, c, values, Skipped(dir), url))
      && (url in r.perRelay ==>
            && var pks := Listed(r.perRelay[url], dir);
            && r.perRelay[url] == Narrow(base, dir, pks) && AllSend(steps, c, values, Skipped(dir), url, pks))
  {
    hide Run, Sends, UrlsOf, LowerAll, Skipped;
    var table, low := Run(steps, c).values, LowerAll(values);
    forall pk
      ensures Sends(steps, c, values, Skipped(dir), url, pk) <==> pk in low && url in UrlsOf(table, pk, dir)
    {
      SendsIs(steps, c, values, dir, url, pk);
    }
    var pks := Sending(table, low, dir, url);
    assert forall pk :: pk in pks <==> Sends(steps, c, values, Skipped(dir), url, pk);
    if pk :| Sends(steps, c, values, Skipped(dir), url, pk) {
      assert url in AllUrls(table, low, dir);
    }
    if url in AllUrls(table, low, dir) {
      var pk :| pk in low && url in UrlsOf(table, pk, dir);
      assert Sends(steps, c, values, Skipped(dir), url, pk);
    }
  }

  /** What no relay gets: all of it if nothing is sent, and otherwise what is asked of the pubkeys without a relay. */
  lemma SplitLeaves(steps: seq<Step>, c: Limits, base: Filter, values: seq<string>, dir: Direction)
    ensures
      && var r := Split(Run(steps, c).values, base, LowerAll(values), dir);
      && (r.perRelay == map[] ==> r.remainder == Some(base))
      && (r.perRelay != map[] ==>
            && (r.remainder.Some? <==> SomeLacks(steps, c, values, Skipped(dir)))
            && (r.remainder.Some? ==>
                  && var pks := Listed(r.remainder.value, dir);
                  && r.remainder.value == Narrow(base, dir, pks) && AllLack(steps, c, values, Skipped(dir), pks)))
  {
    hide Run, Lacks, UrlsOf, LowerAll, Skipped;
    var table, low := Run(steps, c).values, LowerAll(values);
    forall pk
      ensures Lacks(steps, c, values, Skipped(dir), pk) <==> pk in low && UrlsOf(table, pk, dir) == []
    {
      SendsIs(steps, c, values, dir, "", pk);
    }
    var left := Unrouted(table, low, dir);
    assert forall pk :: pk in left <==> Lacks(steps, c, values, Skipped(dir), pk);
    assert left != [] ==> left[0] in left;
    var urls := AllUrls(table, low, dir);
    if url :| url in urls {
      assert url in Split(table, base, low, dir).perRelay;
    }
  }

  /** The filter names no pubkey in this place. */
  predicate NoTags(f: Filter) {
    "p" !in f.tags || f.tags["p"] == []
  }

  predicate NoAuthors(f: Filter) {
    f.authors.None? || f.authors.value == []
  }

  /**
   * In every run a filter for authors goes to the relays that they write to: to a url exactly if an item of that url,
   * not marked for reading and within the cut, is on the list in force of one of them, and there with those authors
   * of whom that is so. The authors without any such item are left, or the whole filter if there are no others.
   */
  lemma AuthorsRouted(steps: seq<Step>, c: Limits, f: Filter, url: string)
    requires !NoAuthors(f) && NoTags(f)
    ensures
      && var r, authors := Route(Run(steps, c).values, f), f.authors.value;
      && (url in r.perRelay <==> SomeSends(steps, c, authors, ForReading, url))
      && (url in r.perRelay ==>
            && var part := r.perRelay[url];
            && part == f.(authors := part.authors) && part.authors.Some?
            && AllSend(steps, c, authors, ForReading, url, part.authors.value))
      && (r.perRelay == map[] ==> r.remainder == Some(f))
      && (r.perRelay != map[] ==>
            && (r.remainder.Some? <==> SomeLacks(steps, c, authors, ForReading))
            && (r.remainder.Some? ==>
                  && var part := r.remainder.value;
                  && part == f.(authors := part.authors) && part.authors.Some?
                  && AllLack(steps, c, authors, ForReading, part.authors.value)))
  {
    hide Run, Sends, Lacks, Split;
    SplitSends(steps, c, f, f.authors.value, Write, url);
    SplitLeaves(steps, c, f, f.authors.value, Write);
  }

  /** A filter for p tags goes to the relays that those pubkeys read from, without its empty list of authors. */
  lemma TagsRouted(steps: seq<Step>, c: Limits, f: Filter, url: string)
    requires NoAuthors(f) && !NoTags(f)
    ensures
      && var r, values, base := Route(Run(steps, c).values, f), f.tags["p"], f.(authors := None);
      && (url in r.perRelay <==> SomeSends(steps, c, values, ForWriting, url))
      && (url in r.perRelay ==>
            && var part := r.perRelay[url];
            && "p" in part.tags && part == base.(tags := f.tags["p" := part.tags["p"]])
            && AllSend(steps, c, values, ForWriting, url, part.tags["p"]))
      && (r.perRelay == map[] ==> r.remainder == Some(base))
      && (r.perRelay != map[] ==>
            && (r.remainder.Some? <==> SomeLacks(steps, c, values, ForWriting))
            && (r.remainder.Some? ==>
                  && var part := r.remainder.value;
                  && "p" in part.tags && part == base.(tags := f.tags["p" := part.tags["p"]])
                  && AllLack(steps, c, values, ForWriting, part.tags["p"])))
  {
    hide Run, Sends, Lacks, Split;
    SplitSends(steps, c, f.(authors := None), f.tags["p"], Read, url);
    SplitLeaves(steps, c, f.(authors := None), f.tags["p"], Read);
  }

  /** A filter for both goes whole to every relay that any of the pubkeys lists, for whatever it is marked. */
  lemma BothRouted(steps: seq<Step>, c: Limits, f: Filter, url: string)
    requires !NoAuthors(f) && !NoTags(f)
    ensures
      && var r, values := Route(Run(steps, c).values, f), f.authors.value + f.tags["p"];
      && (url in r.perRelay <==>
            SomeSends(steps, c, values, ForReading, url) || SomeSends(steps, c, values, ForWriting, url))
      && (url in r.perRelay ==> r.perRelay[url] == f)
      && (r.remainder.Some? <==>
            || r.perRelay == map[]
            || exists pk :: Lacks(steps, c, values, ForReading, pk) && Lacks(steps, c, values, ForWriting, pk))
      && (r.remainder.Some? ==> r.remainder.value == f)
  {
    hide Run, Sends, Lacks, UrlsOf, LowerAll;
    var values, table := f.authors.value + f.tags["p"], Run(steps, c).values;
    var low := LowerAll(f.authors.value) + LowerAll(f.tags["p"]);
    assert low == LowerAll(values);
    forall pk
      ensures Sends(steps, c, values, ForReading, url, pk) <==> pk in low && url in UrlsOf(table, pk, Write)
      ensures Sends(steps, c, values, ForWriting, url, pk) <==> pk in low && url in UrlsOf(table, pk, Read)
      ensures Lacks(steps, c, values, ForReading, pk) <==> pk in low && UrlsOf(table, pk, Write) == []
      ensures Lacks(steps, c, values, ForWriting, pk) <==> pk in low && UrlsOf(table, pk, Read) == []
    {
      SendsIs(steps, c, values, Write, url, pk);
      SendsIs(steps, c, values, Read, url, pk);
    }
    assert url in AllUrls(table, low, Write) <==> exists pk :: pk in low && url in UrlsOf(table, pk, Write);
    assert url in AllUrls(table, low, Read) <==> exists pk :: pk in low && url in UrlsOf(table, pk, Read);
    if other :| other in AllUrls(table, low, Write) + AllUrls(table, low, Read) {
      assert other in Whole(table, f, low).perRelay;
    }
  }

  /** A filter without either goes nowhere. */
  lemma NoneRouted(table: Table, f: Filter)
    requires NoAuthors(f) && NoTags(f)
    ensures Route(table, f) == Routed(map[], Some(f))
  {
  }
}
