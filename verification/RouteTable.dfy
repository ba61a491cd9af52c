/**
 * The routing table (src/gossip/gossip.ts): which lists are accepted, and which pubkeys it remembers. The table
 * keeps its keys in the order of their last use, newest last.
 */
module RouteTable {
  import opened Results
  import opened Events
  import opened Ordered
  import opened Filters
  import opened Routing
  import opened Sequences

  type Recency = OrderedMap<string, Routes>

  datatype Marker = ForReading | ForWriting | ForBoth

  datatype RelayItem = RelayItem(url: string, marker: Marker)

  function NoRoutes(): Routes {
    Routes([], [], [], 0, 0, None, None)
  }

  /** touchKey. */
  function TouchKey(m: Recency, pk: string, routes: Routes): Recency {
    Enter(Delete(m, pk), pk, routes)
  }

  /** #lookup, as far as it changes the table. */
  function Looked(m: Recency, pk: string): Recency {
    if pk in m.values then TouchKey(m, pk, m.values[pk]) else m
  }

  /** #put. */
  function Put(m: Recency, pk: string, routes: Routes, max: nat): Recency {
    Trim(TouchKey(m, pk, routes), max)
  }

  function LookedAll(m: Recency, pks: seq<string>): Recency {
    if pks == [] then m else Looked(LookedAll(m, pks[..|pks| - 1]), pks[|pks| - 1])
  }

  /** The urls of a list that are kept in one direction, in their order and each once. */
  function Collect(items: seq<RelayItem>, skip: Marker, normal: string -> Option<string>): (urls: seq<string>)
    ensures forall url :: url in urls <==>
      exists i :: 0 <= i < |items| && items[i].marker != skip && normal(items[i].url) == Some(url)
  {
    if items == [] then []
    else
      var item := items[|items| - 1];
      var rest := Collect(items[..|items| - 1], skip, normal);
      assert forall i :: 0 <= i < |items| - 1 ==> items[..|items| - 1][i] == items[i];
      if item.marker != skip && normal(item.url).Some? && normal(item.url).value !in rest
      then rest + [normal(item.url).value]
      else rest
  }

  function First(urls: seq<string>, n: nat): seq<string> {
    if |urls| <= n then urls else urls[..n]
  }

  // ---- which list is in force ----

  /** When and with which id the last list was accepted. */
  datatype Slot = Slot(at: int, id: Option<string>)

  /** The guards of setRoutes and setDmRoutes. */
  predicate Accepts(slot: Slot, at: int, id: Option<string>) {
    && slot.at <= at
    && !(id.Some? && slot.id.Some? && slot.at == at && !Wins(Mark(id.value, at), Mark(slot.id.value, slot.at)))
  }

  function Ingest(slot: Slot, mark: Mark): Slot {
    if Accepts(slot, mark.createdAt, Some(mark.id)) then Slot(mark.createdAt, Some(mark.id)) else slot
  }

  function IngestAll(marks: seq<Mark>): Slot {
    if marks == [] then Slot(0, None) else Ingest(IngestAll(marks[..|marks| - 1]), marks[|marks| - 1])
  }

  /**
   * Of the lists that are taken in one after the other, the one in force is among them and none of them wins over
   * it; there is none in force only if all of them bear a time before 0.
   */
  lemma {:induction false} LatestInForce(marks: seq<Mark>)
    ensures
      && var slot := IngestAll(marks);
      && 0 <= slot.at
      && (slot.id.None? ==> slot.at == 0 && forall m :: m in marks ==> m.createdAt < 0)
      && (slot.id.Some? ==>
            && Mark(slot.id.value, slot.at) in marks
            && forall m :: m in marks ==> !Wins(m, Mark(slot.id.value, slot.at)))
  {
    if marks != [] {
      var init, last := marks[..|marks| - 1], marks[|marks| - 1];
      assert forall m :: m in marks <==> m in init || m == last;
      LatestInForce(init);
      var was := IngestAll(init);
      StringLessTotal(last.id, last.id);
      if was.id.Some? {
        var mark := Mark(was.id.value, was.at);
        StringLessTotal(last.id, mark.id);
        if Accepts(was, last.createdAt, Some(last.id)) {
          forall m | m in init
            ensures !Wins(m, last)
          {
            if Wins(m, last) && Wins(last, mark) {
              WinsTransitive(m, last, mark);
            }
          }
        }
      }
    }
  }

  /** So their order does not matter. */
  lemma IngestOrderFree(a: seq<Mark>, b: seq<Mark>)
    requires forall m :: m in a <==> m in b
    ensures IngestAll(a) == IngestAll(b)
  {
    LatestInForce(a);
    LatestInForce(b);
    var x, y := IngestAll(a), IngestAll(b);
    if x.id.Some? && y.id.Some? {
      StringLessTotal(x.id.value, y.id.value);
    }
  }

  // ---- what a list does to the table ----

  /** How much is kept, and how urls are normalized. */
  datatype Limits = Limits(maxRelays: nat, maxPubkeys: nat, normal: string -> Option<string>)

  function Prev(m: Recency, pk: string): Routes {
    if pk in m.values then m.values[pk] else NoRoutes()
  }

  /** The list in force for a pubkey: of kind 10002, or of kind 10050 if `dm`. */
  function SlotOf(m: Recency, pk: string, dm: bool): Slot {
    var prev := Prev(m, pk);
    if dm then Slot(prev.dmUpdatedAt, prev.dmListId) else Slot(prev.updatedAt, prev.listId)
  }

  function WithList(prev: Routes, items: seq<RelayItem>, at: int, id: Option<string>, c: Limits): Routes {
    Routes(First(Collect(items, ForReading, c.normal), c.maxRelays),
           First(Collect(items, ForWriting, c.normal), c.maxRelays),
           prev.dm, at, prev.dmUpdatedAt, if id.Some? then id else prev.listId, prev.dmListId)
  }

  /** setRoutes, under a lower-case pubkey. */
  function SetList(m: Recency, pk: string, items: seq<RelayItem>, at: int, id: Option<string>, c: Limits): Recency {
    if Accepts(SlotOf(m, pk, false), at, id)
    then Put(Looked(m, pk), pk, WithList(Prev(m, pk), items, at, id, c), c.maxPubkeys)
    else Looked(m, pk)
  }

  /** normalizeRelayUrls takes a list without markers, and no empty url. */
  function Plain(relays: seq<string>): seq<RelayItem> {
    if relays == [] then []
    else
      var rest := Plain(relays[..|relays| - 1]);
      var url := relays[|relays| - 1];
      if url == "" then rest else rest + [RelayItem(url, ForBoth)]
  }

  function WithDm(prev: Routes, relays: seq<string>, at: int, id: Option<string>, c: Limits): Routes {
    prev.(dm := First(Collect(Plain(relays), ForReading, c.normal), c.maxRelays),
          dmUpdatedAt := at, dmListId := if id.Some? then id else prev.dmListId)
  }

  /** setDmRoutes, under a lower-case pubkey. */
  function SetDm(m: Recency, pk: string, relays: seq<string>, at: int, id: Option<string>, c: Limits): Recency {
    if Accepts(SlotOf(m, pk, true), at, id)
    then Put(Looked(m, pk), pk, WithDm(Prev(m, pk), relays, at, id, c), c.maxPubkeys)
    else Looked(m, pk)
  }

  // ---- which pubkeys are remembered ----

  datatype Use = Look(pk: string) | Save(pk: string, routes: Routes)

  function Used(m: Recency, use: Use, max: nat): Recency {
    match use
    case Look(pk) => Looked(m, pk)
    case Save(pk, routes) => Put(m, pk, routes, max)
  }

  function UsedAll(m: Recency, uses: seq<Use>, max: nat): Recency {
    if uses == [] then m else Used(UsedAll(m, uses[..|uses| - 1], max), uses[|uses| - 1], max)
  }

  /** The pubkeys that the uses are about. */
  function About(uses: seq<Use>): set<string> {
    set i | 0 <= i < |uses| :: uses[i].pk
  }

  /** The keys that were used after `k`. */
  function After(keys: seq<string>, k: string): seq<string> {
    if keys == [] then [] else if keys[0] == k then keys[1..] else After(keys[1..], k)
  }

  lemma {:induction false} AfterPlace(keys: seq<string>, k: string)
    requires Distinct(keys) && k in keys
    ensures |After(keys, k)| < |keys| && keys[|keys| - 1 - |After(keys, k)|] == k
    ensures keys[|keys| - |After(keys, k)|..] == After(keys, k)
  {
    if keys[0] != k {
      AfterPlace(keys[1..], k);
    }
  }

  lemma {:induction false} AfterWithout(keys: seq<string>, k: string, pk: string)
    requires k != pk
    ensures After(Without(keys, pk), k) == Without(After(keys, k), pk)
  {
    if keys != [] {
      AfterWithout(keys[1..], k, pk);
    }
  }

  lemma {:induction false} AfterSnoc(keys: seq<string>, k: string, pk: string)
    requires k in keys
    ensures After(keys + [pk], k) == After(keys, k) + [pk]
  {
    if keys[0] == k {
      assert (keys + [pk])[1..] == keys[1..] + [pk];
    } else {
      AfterSnoc(keys[1..], k, pk);
      assert (keys + [pk])[1..] == keys[1..] + [pk];
    }
  }

  lemma TouchKeys(m: Recency, pk: string, routes: Routes)
    ensures TouchKey(m, pk, routes).keys == Without(m.keys, pk) + [pk]
    ensures TouchKey(m, pk, routes).values == m.values[pk := routes]
  {
    hide Without;
    assert pk !in Delete(m, pk).values;
  }

  lemma TouchWellFormed(m: Recency, pk: string, routes: Routes)
    requires WellFormed(m)
    ensures WellFormed(TouchKey(m, pk, routes))
    ensures TouchKey(m, pk, routes).keys == Without(m.keys, pk) + [pk]
    ensures TouchKey(m, pk, routes).values == m.values[pk := routes]
  {
    hide Without, Distinct, Elements, Enter, Delete;
    TouchKeys(m, pk, routes);
    DeleteWellFormed(m, pk);
    EnterWellFormed(Delete(m, pk), pk, routes);
  }

  /** One use of another pubkey puts at most that pubkey behind `k`. */
  lemma TouchedBehind(m: Recency, k: string, pk: string, routes: Routes)
    requires WellFormed(m) && k in m.values && pk != k
    ensures var t := TouchKey(m, pk, routes);
      k in t.values && t.values[k] == m.values[k] && After(t.keys, k) == Without(After(m.keys, k), pk) + [pk]
  {
    TouchWellFormed(m, pk, routes);
    WithoutDistinct(m.keys, pk);
    assert k in Elements(m.keys) && k in Elements(Without(m.keys, pk));
    AfterSnoc(Without(m.keys, pk), k, pk);
    AfterWithout(m.keys, k, pk);
  }

  /** Trimming keeps a key that has less than `max` keys behind it. */
  lemma TrimKeeps(m: Recency, k: string, max: nat)
    requires WellFormed(m) && k in m.values && |After(m.keys, k)| < max
    ensures WellFormed(Trim(m, max)) && k in Trim(m, max).values && Trim(m, max).values[k] == m.values[k]
    ensures After(Trim(m, max).keys, k) == After(m.keys, k)
  {
    TrimWellFormed(m, max);
    var n := Excess(m, max);
    assert k in Elements(m.keys);
    AfterPlace(m.keys, k);
    var at := |m.keys| - 1 - |After(m.keys, k)|;
    assert n <= at && m.keys[n..][at - n] == k;
    DistinctSplit(m.keys, n);
    assert k in Elements(m.keys[n..]);
    AfterDrop(m.keys, k, n);
  }

  lemma {:induction false} AfterDrop(keys: seq<string>, k: string, n: nat)
    requires n <= |keys| && k !in keys[..n]
    ensures After(keys[n..], k) == After(keys, k)
  {
    if n > 0 {
      assert keys[0] in keys[..n] && keys[1..][..n - 1] == keys[1..n] && keys[1..][n - 1..] == keys[n..];
      AfterDrop(keys[1..], k, n - 1);
    } else {
      assert keys[n..] == keys;
    }
  }

  /** What is known of `k` while the pubkeys in `seen` were used after it. */
  ghost predicate Remembered(m: Recency, k: string, routes: Routes, seen: set<string>) {
    WellFormed(m) && k in m.values && m.values[k] == routes && Elements(After(m.keys, k)) <= seen
  }

  lemma UseKeeps(m: Recency, k: string, routes: Routes, seen: set<string>, use: Use, max: nat)
    requires Remembered(m, k, routes, seen) && |seen + {use.pk}| < max && use.pk != k
    ensures Remembered(Used(m, use, max), k, routes, seen + {use.pk})
  {
    if use.Save? || use.pk in m.values {
      var routes' := if use.Save? then use.routes else m.values[use.pk];
      var t := TouchKey(m, use.pk, routes');
      TouchWellFormed(m, use.pk, routes');
      TouchedBehind(m, k, use.pk, routes');
      WithoutDistinct(After(m.keys, k), use.pk);
      var behind := After(t.keys, k);
      assert Elements(behind) == Elements(Without(After(m.keys, k), use.pk)) + {use.pk};
      BehindCount(t, k, seen + {use.pk});
      if use.Save? {
        TrimKeeps(t, k, max);
      }
    }
  }

  lemma BehindCount(m: Recency, k: string, seen: set<string>)
    requires WellFormed(m) && k in m.values && Elements(After(m.keys, k)) <= seen
    ensures |After(m.keys, k)| <= |seen|
  {
    assert k in Elements(m.keys);
    AfterPlace(m.keys, k);
    DistinctSplit(m.keys, |m.keys| - |After(m.keys, k)|);
    DistinctCount(After(m.keys, k));
    SubsetCount(Elements(After(m.keys, k)), seen);
  }

  /**
   * A pubkey that was just used keeps its routes through any run of uses of fewer than `max` other pubkeys,
   * however often and in whatever order they are used.
   */
  lemma {:induction false} RecentKept(m: Recency, k: string, uses: seq<Use>, max: nat)
    requires WellFormed(m) && k in m.values && After(m.keys, k) == []
    requires k !in About(uses) && |About(uses)| < max
    ensures Remembered(UsedAll(m, uses, max), k, m.values[k], About(uses))
  {
    if uses != [] {
      var init, last := uses[..|uses| - 1], uses[|uses| - 1];
      assert About(uses) == About(init) + {last.pk} by {
        assert forall i :: 0 <= i < |init| ==> init[i] == uses[i];
        assert last.pk in About(uses);
        assert forall pk :: pk in About(init) ==> pk in About(uses);
      }
      SubsetCount(About(init), About(uses));
      RecentKept(m, k, init, max);
      UseKeeps(UsedAll(m, init, max), k, m.values[k], About(init), last, max);
    }
  }

  // ---- what a table holds ----

  /** A pubkey lists a relay once in each direction. */
  ghost predicate Tidy(table: Table) {
    forall pk :: pk in table ==> Distinct(table[pk].write) && Distinct(table[pk].read)
  }

  lemma PrevTidy(table: Table, pk: string)
    requires Tidy(table)
    ensures Distinct((if pk in table then table[pk] else NoRoutes()).write)
    ensures Distinct((if pk in table then table[pk] else NoRoutes()).read)
  {
  }

  lemma {:induction false} CollectDistinct(items: seq<RelayItem>, skip: Marker, normal: string -> Option<string>)
    ensures Distinct(Collect(items, skip, normal))
  {
    if items != [] {
      var item, init := items[|items| - 1], items[..|items| - 1];
      CollectDistinct(init, skip, normal);
      var rest := Collect(init, skip, normal);
      if normal(item.url).Some? && normal(item.url).value !in rest {
        DistinctSnoc(rest, normal(item.url).value);
      }
    }
  }

  lemma {:induction false} FirstDistinct(urls: seq<string>, n: nat)
    requires Distinct(urls)
    ensures Distinct(First(urls, n))
    decreases |urls|
  {
    if |urls| > n {
      DistinctInit(urls);
      FirstDistinct(urls[..|urls| - 1], n);
      assert First(urls, n) == First(urls[..|urls| - 1], n);
    }
  }

  lemma PutTidy(m: Recency, pk: string, routes: Routes, max: nat)
    requires WellFormed(m) && Tidy(m.values) && Distinct(routes.write) && Distinct(routes.read)
    ensures WellFormed(Put(m, pk, routes, max)) && Tidy(Put(m, pk, routes, max).values)
  {
    hide Distinct, WellFormed, TouchKey, Trim;
    TouchWellFormed(m, pk, routes);
    TrimWellFormed(TouchKey(m, pk, routes), max);
    TrimTakes(TouchKey(m, pk, routes), max);
  }

  /** Trimming changes no entry that it leaves. */
  lemma TrimTakes(m: Recency, max: nat)
    ensures forall k :: k in Trim(m, max).values ==> k in m.values && Trim(m, max).values[k] == m.values[k]
  {
  }

  lemma LookedFits(m: Recency, pk: string)
    requires WellFormed(m)
    ensures WellFormed(Looked(m, pk)) && Looked(m, pk).values == m.values && |Looked(m, pk).keys| == |m.keys|
  {
    if pk in m.values {
      TouchWellFormed(m, pk, m.values[pk]);
      DistinctCount(m.keys);
      DistinctCount(Looked(m, pk).keys);
    }
  }

  /** A Set filled from a list: each value once, in the order of its first place. */
  function Once(values: seq<string>): (r: seq<string>)
    ensures forall x :: x in r <==> x in values
  {
    if values == [] then []
    else
      var rest := Once(values[..|values| - 1]);
      var x := values[|values| - 1];
      if x in rest then rest else rest + [x]
  }

  /** The pubkeys that `route` looks up, in order. */
  function RouteKeys(f: Filter): seq<string> {
    var authors, pTags := Authors(f), PTags(f);
    if pTags == [] then authors else if authors == [] then pTags else Once(authors + pTags)
  }

  lemma LookedMore(m: Recency, pks: seq<string>, i: nat)
    requires i < |pks|
    ensures LookedAll(m, pks[..i + 1]) == Looked(LookedAll(m, pks[..i]), pks[i])
  {
    assert pks[..i + 1][..i] == pks[..i];
  }

  // ---- the loops of #breakAuthors ----

  /** The pubkeys so far, sorted by relay. */
  ghost predicate SplitSoFar(table: Table, pks: seq<string>, dir: Direction, perRelay: map<string, seq<string>>,
                             unrouted: seq<string>, anyRoute: bool) {
    && unrouted == Unrouted(table, pks, dir)
    && perRelay.Keys == AllUrls(table, pks, dir)
    && (forall url :: url in perRelay ==> perRelay[url] == Sending(table, pks, dir, url))
    && (anyRoute <==> perRelay.Keys != {})
  }

  /** One pubkey was added to the lists of the relays in `done`. */
  ghost predicate Pushed(was: map<string, seq<string>>, pk: string, done: seq<string>,
                         perRelay: map<string, seq<string>>) {
    && (forall url :: url in perRelay <==> url in was || url in done)
    && forall url :: url in perRelay ==>
         perRelay[url] == (if url in was then was[url] else []) + (if url in done then [pk] else [])
  }

  lemma PushedNext(was: map<string, seq<string>>, pk: string, urls: seq<string>, j: nat,
                   perRelay: map<string, seq<string>>)
    requires Distinct(urls) && j < |urls| && Pushed(was, pk, urls[..j], perRelay)
    ensures var list := if urls[j] in perRelay then perRelay[urls[j]] else [];
      Pushed(was, pk, urls[..j + 1], perRelay[urls[j] := list + [pk]])
  {
    hide Distinct, Pushed;
    NotBefore(urls, j);
    assert urls[..j + 1] == urls[..j] + [urls[j]];
    PushedOne(was, pk, urls[..j], urls[j], perRelay);
  }

  lemma PushedOne(was: map<string, seq<string>>, pk: string, done: seq<string>, url: string,
                  perRelay: map<string, seq<string>>)
    requires url !in done && Pushed(was, pk, done, perRelay)
    ensures var list := if url in perRelay then perRelay[url] else [];
      Pushed(was, pk, done + [url], perRelay[url := list + [pk]])
  {
  }

  lemma TidyUrls(table: Table, pk: string, dir: Direction)
    requires Tidy(table)
    ensures Distinct(UrlsOf(table, pk, dir))
  {
  }

  /** One more pubkey brings its relays. */
  lemma UrlsNext(table: Table, pks: seq<string>, i: nat, dir: Direction)
    requires i < |pks|
    ensures forall url :: url in AllUrls(table, pks[..i + 1], dir) <==>
      url in AllUrls(table, pks[..i], dir) || url in UrlsOf(table, pks[i], dir)
  {
    hide UrlsOf;
    assert pks[..i + 1] == pks[..i] + [pks[i]];
    assert forall pk :: pk in pks[..i + 1] <==> pk in pks[..i] || pk == pks[i];
  }

  lemma SendingNext(table: Table, pks: seq<string>, i: nat, dir: Direction, url: string)
    requires i < |pks|
    ensures Sending(table, pks[..i + 1], dir, url) ==
      Sending(table, pks[..i], dir, url) + (if url in UrlsOf(table, pks[i], dir) then [pks[i]] else [])
    ensures url !in AllUrls(table, pks[..i], dir) ==> Sending(table, pks[..i], dir, url) == []
    ensures Unrouted(table, pks[..i + 1], dir) ==
      Unrouted(table, pks[..i], dir) + (if UrlsOf(table, pks[i], dir) == [] then [pks[i]] else [])
  {
    assert pks[..i + 1][..i] == pks[..i];
    SendingNone(table, pks[..i], dir, url);
  }

  lemma SplitNext(table: Table, pks: seq<string>, i: nat, dir: Direction, was: map<string, seq<string>>,
                  unrouted: seq<string>, anyRoute: bool, perRelay: map<string, seq<string>>)
    requires i < |pks| && SplitSoFar(table, pks[..i], dir, was, unrouted, anyRoute)
    requires Pushed(was, pks[i], UrlsOf(table, pks[i], dir), perRelay)
    ensures var none := UrlsOf(table, pks[i], dir) == [];
      SplitSoFar(table, pks[..i + 1], dir, perRelay, if none then unrouted + [pks[i]] else unrouted, anyRoute || !none)
  {
    hide UrlsOf, AllUrls, Sending, Unrouted;
    UrlsNext(table, pks, i, dir);
    SendingNext(table, pks, i, dir, "");
    var urls := UrlsOf(table, pks[i], dir);
    assert perRelay.Keys == AllUrls(table, pks[..i + 1], dir);
    assert urls != [] ==> urls[0] in perRelay.Keys;
    assert perRelay.Keys != {} ==> exists url :: url in perRelay;
    forall url | url in perRelay
      ensures perRelay[url] == Sending(table, pks[..i + 1], dir, url)
    {
      SendingNext(table, pks, i, dir, url);
    }
  }

  lemma {:induction false} SendingNone(table: Table, pks: seq<string>, dir: Direction, url: string)
    ensures url !in AllUrls(table, pks, dir) ==> Sending(table, pks, dir, url) == []
  {
    var s := Sending(table, pks, dir, url);
    if s != [] {
      assert s[0] in s;
    }
  }

  lemma SplitNone(m: Recency, pks: seq<string>, dir: Direction)
    ensures SplitSoFar(m.values, pks[..0], dir, map[], [], false) && LookedAll(m, pks[..0]) == m
    ensures AllUrls(m.values, pks[..0], Write) == {} && AllUrls(m.values, pks[..0], Read) == {}
  {
    assert pks[..0] == [];
  }

  lemma PushedNone(was: map<string, seq<string>>, pk: string, urls: seq<string>)
    ensures Pushed(was, pk, urls[..0], was)
  {
    assert urls[..0] == [];
  }

  lemma SplitIs(table: Table, base: Filter, pks: seq<string>, dir: Direction, perRelay: map<string, seq<string>>,
                unrouted: seq<string>, anyRoute: bool)
    requires SplitSoFar(table, pks, dir, perRelay, unrouted, anyRoute)
    ensures Split(table, base, pks, dir) ==
      if !anyRoute then Routed(map[], Some(base))
      else Routed(map url | url in perRelay :: Narrow(base, dir, perRelay[url]),
                  if unrouted != [] then Some(Narrow(base, dir, unrouted)) else None)
  {
    hide Sending, Unrouted, Narrow, AllUrls;
  }

  lemma WholeNext(table: Table, pks: seq<string>, i: nat)
    requires i < |pks|
    ensures forall dir ::
      AllUrls(table, pks[..i + 1], dir) == AllUrls(table, pks[..i], dir) + (set url | url in UrlsOf(table, pks[i], dir))
    ensures
      (exists pk :: pk in pks[..i + 1] && UrlsOf(table, pk, Write) == [] && UrlsOf(table, pk, Read) == []) <==>
      || (exists pk :: pk in pks[..i] && UrlsOf(table, pk, Write) == [] && UrlsOf(table, pk, Read) == [])
      || (UrlsOf(table, pks[i], Write) == [] && UrlsOf(table, pks[i], Read) == [])
  {
    hide UrlsOf;
    assert pks[..i + 1] == pks[..i] + [pks[i]];
    assert forall pk :: pk in pks[..i + 1] <==> pk in pks[..i] || pk == pks[i];
    forall dir
      ensures AllUrls(table, pks[..i + 1], dir) ==
        AllUrls(table, pks[..i], dir) + (set url | url in UrlsOf(table, pks[i], dir))
    {
    }
  }

  /** Only which pubkeys there are matters for a filter that is sent whole. */
  lemma WholeOnce(table: Table, f: Filter, pks: seq<string>)
    ensures Whole(table, f, Once(pks)) == Whole(table, f, pks)
  {
    hide UrlsOf, Once;
    assert AllUrls(table, Once(pks), Write) == AllUrls(table, pks, Write);
    assert AllUrls(table, Once(pks), Read) == AllUrls(table, pks, Read);
  }
}
