/** The canonical form of filters, and the text that stands for a list of them (src/core/filter.ts). */
module Fingerprints {
  import opened Results
  import opened Events
  import opened Filters

  // ---- sorting ----

  ghost predicate StrictOrder<T(!new)>(less: (T, T) -> bool) {
    && (forall a, b :: less(a, b) ==> !less(b, a))
    && (forall a, b :: a == b || less(a, b) || less(b, a))
    && (forall a, b, c :: less(a, b) && less(b, c) ==> less(a, c))
  }

  /** Array.prototype.sort with a comparison. */
  function SortBy<T>(less: (T, T) -> bool, list: seq<T>): seq<T> {
    if |list| == 0 then [] else InsertBy(less, SortBy(less, list[..|list| - 1]), list[|list| - 1])
  }

  function InsertBy<T>(less: (T, T) -> bool, list: seq<T>, x: T): seq<T> {
    if |list| == 0 || !less(x, list[|list| - 1]) then list + [x]
    else InsertBy(less, list[..|list| - 1], x) + [list[|list| - 1]]
  }

  ghost predicate SortedBy<T>(less: (T, T) -> bool, list: seq<T>) {
    forall i, j :: 0 <= i < j < |list| ==> !less(list[j], list[i])
  }

  lemma NotLess<T(!new)>(less: (T, T) -> bool, a: T, b: T, c: T)
    requires StrictOrder(less) && !less(b, a) && !less(c, b)
    ensures !less(c, a)
  {
  }

  lemma NotBoth<T(!new)>(less: (T, T) -> bool, a: T, b: T)
    requires StrictOrder(less) && less(a, b)
    ensures !less(b, a)
  {
  }

  lemma SortedSnoc<T>(less: (T, T) -> bool, list: seq<T>, last: T)
    requires SortedBy(less, list) && forall x :: x in list ==> !less(last, x)
    ensures SortedBy(less, list + [last])
  {
  }

  lemma {:induction false} InsertBySorts<T(!new)>(less: (T, T) -> bool, list: seq<T>, x: T)
    requires StrictOrder(less) && SortedBy(less, list)
    ensures SortedBy(less, InsertBy(less, list, x))
    ensures multiset(InsertBy(less, list, x)) == multiset(list) + multiset{x}
  {
    hide StrictOrder;
    if |list| > 0 {
      var n := |list| - 1;
      var init, last := list[..n], list[n];
      assert list == init + [last];
      if less(x, last) {
        InsertBySorts(less, init, x);
        NotBoth(less, x, last);
        var r := InsertBy(less, init, x);
        forall y | y in r
          ensures !less(last, y)
        {
          assert y in multiset(r);
          if y != x {
            assert y in multiset(init) && y in init;
          }
        }
        SortedSnoc(less, r, last);
      } else {
        forall y | y in list
          ensures !less(x, y)
        {
          if y in init {
            NotLess(less, y, last, x);
          }
        }
        SortedSnoc(less, list, x);
      }
    }
  }

  lemma {:induction false} SortBySorts<T(!new)>(less: (T, T) -> bool, list: seq<T>)
    requires StrictOrder(less)
    ensures SortedBy(less, SortBy(less, list)) && multiset(SortBy(less, list)) == multiset(list)
  {
    hide StrictOrder;
    if |list| > 0 {
      var n := |list| - 1;
      assert list == list[..n] + [list[n]];
      SortBySorts(less, list[..n]);
      InsertBySorts(less, SortBy(less, list[..n]), list[n]);
    }
  }

  lemma LastOfSame<T(!new)>(less: (T, T) -> bool, a: seq<T>, b: seq<T>)
    requires StrictOrder(less) && SortedBy(less, a) && SortedBy(less, b) && multiset(a) == multiset(b) && |a| > 0
    ensures |b| == |a| && a[|a| - 1] == b[|a| - 1]
  {
    assert |multiset(a)| == |multiset(b)|;
    var x, y := a[|a| - 1], b[|b| - 1];
    assert x in multiset(b) && y in multiset(a);
    var i :| 0 <= i < |a| && a[i] == y;
    var j :| 0 <= j < |b| && b[j] == x;
    assert i < |a| - 1 ==> !less(x, y);
    assert j < |b| - 1 ==> !less(y, x);
  }

  lemma SortedInit<T>(less: (T, T) -> bool, list: seq<T>)
    requires SortedBy(less, list) && |list| > 0
    ensures SortedBy(less, list[..|list| - 1])
    ensures multiset(list[..|list| - 1]) == multiset(list) - multiset{list[|list| - 1]}
  {
    assert list == list[..|list| - 1] + [list[|list| - 1]];
  }

  lemma {:induction false} OneSorting<T(!new)>(less: (T, T) -> bool, a: seq<T>, b: seq<T>)
    requires StrictOrder(less) && SortedBy(less, a) && SortedBy(less, b) && multiset(a) == multiset(b)
    ensures a == b
  {
    hide StrictOrder, SortedBy;
    assert |multiset(a)| == |multiset(b)|;
    if |a| > 0 {
      LastOfSame(less, a, b);
      var n := |a| - 1;
      SortedInit(less, a);
      SortedInit(less, b);
      OneSorting(less, a[..n], b[..n]);
      assert a == a[..n] + [a[n]] && b == b[..n] + [b[n]];
    }
  }

  /** Sorting forgets the order, and nothing else. */
  lemma SortForgetsOrder<T(!new)>(less: (T, T) -> bool, a: seq<T>, b: seq<T>)
    requires StrictOrder(less)
    ensures SortBy(less, a) == SortBy(less, b) <==> multiset(a) == multiset(b)
  {
    hide StrictOrder, SortedBy;
    SortBySorts(less, a);
    SortBySorts(less, b);
    if multiset(a) == multiset(b) {
      OneSorting(less, SortBy(less, a), SortBy(less, b));
    }
  }

  lemma SortMembers<T(!new)>(less: (T, T) -> bool, list: seq<T>)
    requires StrictOrder(less)
    ensures forall x :: x in SortBy(less, list) <==> x in list
  {
    hide StrictOrder, SortedBy;
    SortBySorts(less, list);
    forall x
      ensures x in SortBy(less, list) <==> x in list
    {
      assert x in SortBy(less, list) <==> x in multiset(SortBy(less, list));
      assert x in list <==> x in multiset(list);
    }
  }

  lemma TextOrder()
    ensures StrictOrder(StringLess)
  {
    forall a, b
      ensures (StringLess(a, b) ==> !StringLess(b, a)) && (a == b || StringLess(a, b) || StringLess(b, a))
    {
      StringLessTotal(a, b);
    }
    forall a, b, c | StringLess(a, b) && StringLess(b, c)
      ensures StringLess(a, c)
    {
      StringLessTransitive(a, b, c);
    }
  }

  predicate KindLess(a: int, b: int) {
    a < b
  }

  lemma KindOrder()
    ensures StrictOrder(KindLess)
  {
  }

  // ---- canonicalizeFilter ----

  function TagKeys(name: string, values: seq<string>): (r: seq<string>)
    ensures |r| == |values| && forall i :: 0 <= i < |values| ==> r[i] == TagKey(name, values[i])
  {
    seq(|values|, i requires 0 <= i < |values| => TagKey(name, values[i]))
  }

  /** A list of hex values, as those of an e tag are. */
  function Texts(values: Option<seq<string>>): Option<seq<string>> {
    if values.None? then None else Some(SortBy(StringLess, TagKeys("e", values.value)))
  }

  function Kinds(values: Option<seq<int>>): Option<seq<int>> {
    if values.None? then None else Some(SortBy(KindLess, values.value))
  }

  /** canonicalizeFilter: hex lists in lower case, and every list sorted. */
  function Canonical(f: Filter): Filter {
    f.(ids := Texts(f.ids), kinds := Kinds(f.kinds), authors := Texts(f.authors),
       tags := map name | name in f.tags :: SortBy(StringLess, TagKeys(name, f.tags[name])))
  }

  function CanonicalAll(filters: seq<Filter>): (r: seq<Filter>)
    ensures |r| == |filters| && forall i :: 0 <= i < |filters| ==> r[i] == Canonical(filters[i])
  {
    seq(|filters|, i requires 0 <= i < |filters| => Canonical(filters[i]))
  }

  lemma TagKeyTwice(name: string, value: string)
    ensures TagKey(name, TagKey(name, value)) == TagKey(name, value)
  {
    LowerTwice(value);
  }

  /** Sorted keys of values have the keys of the values. */
  lemma KeysStay(name: string, values: seq<string>, key: string)
    ensures (exists v :: v in SortBy(StringLess, TagKeys(name, values)) && TagKey(name, v) == key) <==>
      exists v :: v in values && TagKey(name, v) == key
  {
    hide TagKey, StrictOrder;
    TextOrder();
    SortMembers(StringLess, TagKeys(name, values));
    if v :| v in values && TagKey(name, v) == key {
      var i :| 0 <= i < |values| && values[i] == v;
      assert TagKeys(name, values)[i] == key;
      TagKeyTwice(name, v);
    }
    if v :| v in SortBy(StringLess, TagKeys(name, values)) && TagKey(name, v) == key {
      var i :| 0 <= i < |values| && TagKeys(name, values)[i] == v;
      TagKeyTwice(name, values[i]);
      assert values[i] in values;
    }
  }

  lemma TextsStay(values: seq<string>, x: string)
    ensures ListsLower(SortBy(StringLess, TagKeys("e", values)), x) <==> ListsLower(values, x)
  {
    KeysStay("e", values, x);
    assert forall v :: TagKey("e", v) == Lower(v);
  }

  lemma HasTagStays(e: Event, name: string, values: seq<string>)
    ensures HasTag(e, name, SortBy(StringLess, TagKeys(name, values))) <==> HasTag(e, name, values)
  {
    forall tag: Tag | |tag| > 1
      ensures TagHits(tag, name, SortBy(StringLess, TagKeys(name, values))) <==> TagHits(tag, name, values)
    {
      KeysStay(name, values, TagKey(name, tag[1]));
    }
    hide TagKey, SortBy;
  }

  /** The canonical form of a filter matches what the filter matches. */
  lemma CanonicalMatches(f: Filter, e: Event)
    ensures Matches(Canonical(f), e) <==> Matches(f, e)
  {
    hide SortBy, ListsLower, HasTag, StrictOrder;
    if f.ids.Some? {
      TextsStay(f.ids.value, e.id);
    }
    if f.authors.Some? {
      TextsStay(f.authors.value, e.pubkey);
    }
    if f.kinds.Some? {
      KindOrder();
      SortMembers(KindLess, f.kinds.value);
    }
    forall name | name in f.tags
      ensures HasTag(e, name, Canonical(f).tags[name]) <==> HasTag(e, name, f.tags[name])
    {
      HasTagStays(e, name, f.tags[name]);
    }
  }

  /** The same values, up to order and case. */
  ghost predicate SameTexts(a: Option<seq<string>>, b: Option<seq<string>>) {
    && a.Some? == b.Some?
    && (a.Some? ==> multiset(TagKeys("e", a.value)) == multiset(TagKeys("e", b.value)))
  }

  /** The same values of each tag, up to order, and up to case where they are hex. */
  ghost predicate SameTags(f: Filter, g: Filter) {
    && f.tags.Keys == g.tags.Keys
    && forall name :: name in f.tags ==> multiset(TagKeys(name, f.tags[name])) == multiset(TagKeys(name, g.tags[name]))
  }

  /** Two filters that differ only in the order of a list, or in the case of hex values. */
  ghost predicate Alike(f: Filter, g: Filter) {
    && f.since == g.since && f.until == g.until && f.limit == g.limit
    && SameTexts(f.ids, g.ids) && SameTexts(f.authors, g.authors) && SameTags(f, g)
    && f.kinds.Some? == g.kinds.Some? && (f.kinds.Some? ==> multiset(f.kinds.value) == multiset(g.kinds.value))
  }

  lemma TextsExactly(a: Option<seq<string>>, b: Option<seq<string>>)
    ensures Texts(a) == Texts(b) <==> SameTexts(a, b)
  {
    hide SortBy, StrictOrder, TagKeys;
    TextOrder();
    if a.Some? && b.Some? {
      SortForgetsOrder(StringLess, TagKeys("e", a.value), TagKeys("e", b.value));
    }
  }

  lemma KindsExactly(a: Option<seq<int>>, b: Option<seq<int>>)
    ensures Kinds(a) == Kinds(b) <==> a.Some? == b.Some? && (a.Some? ==> multiset(a.value) == multiset(b.value))
  {
    hide SortBy, StrictOrder;
    KindOrder();
    if a.Some? && b.Some? {
      SortForgetsOrder(KindLess, a.value, b.value);
    }
  }

  lemma TagsExactly(f: Filter, g: Filter)
    ensures Canonical(f).tags == Canonical(g).tags <==> SameTags(f, g)
  {
    hide SortBy, StrictOrder, TagKeys, Texts, Kinds;
    TextOrder();
    var a, b := Canonical(f).tags, Canonical(g).tags;
    assert a.Keys == f.tags.Keys && b.Keys == g.tags.Keys;
    forall name | name in f.tags && name in g.tags
      ensures a[name] == b[name] <==>
        multiset(TagKeys(name, f.tags[name])) == multiset(TagKeys(name, g.tags[name]))
    {
      SortForgetsOrder(StringLess, TagKeys(name, f.tags[name]), TagKeys(name, g.tags[name]));
    }
  }

  /** Filters have one canonical form exactly when they are alike. */
  lemma CanonicalExactly(f: Filter, g: Filter)
    ensures Canonical(f) == Canonical(g) <==> Alike(f, g)
  {
    TextsExactly(f.ids, g.ids);
    TextsExactly(f.authors, g.authors);
    KindsExactly(f.kinds, g.kinds);
    TagsExactly(f, g);
    hide Texts, Kinds, SameTexts, SameTags, SortBy, TagKeys;
  }

  // ---- filterFingerprint ----

  /** The texts of the canonical filters. */
  function Parts(json: Filter -> string, filters: seq<Filter>): (r: seq<string>)
    ensures |r| == |filters| && forall i :: 0 <= i < |filters| ==> r[i] == json(Canonical(filters[i]))
  {
    seq(|filters|, i requires 0 <= i < |filters| => json(Canonical(filters[i])))
  }

  /** The parts with commas between them. */
  function Join(parts: seq<string>): string {
    if |parts| == 0 then "" else if |parts| == 1 then parts[0] else parts[0] + "," + Join(parts[1..])
  }

  /** filterFingerprint; `json` writes a filter down. */
  function Fingerprint(json: Filter -> string, filters: seq<Filter>): string {
    "[" + Join(SortBy(StringLess, Parts(json, filters))) + "]"
  }

  function FingerprintOf(json: Filter -> string): seq<Filter> -> string {
    filters => Fingerprint(json, filters)
  }

  /** The text of a canonical filter begins that of no other. */
  ghost predicate PrefixFree(json: Filter -> string) {
    forall f, g :: json(Canonical(f)) <= json(Canonical(g)) ==> Canonical(f) == Canonical(g)
  }

  ghost predicate Codewords(texts: set<string>) {
    && "" !in texts
    && forall x, y :: x in texts && y in texts && x <= y ==> x == y
  }

  lemma HeadOfJoin(parts: seq<string>)
    requires |parts| > 0
    ensures Join(parts) == parts[0] + if |parts| == 1 then "" else "," + Join(parts[1..])
  {
  }

  lemma OneHead(x: string, y: string, more: string, rest: string)
    requires x + more == y + rest && |x| <= |y|
    ensures x <= y && (x == y ==> more == rest)
  {
    assert x == (x + more)[..|x|] == (y + rest)[..|x|] == y[..|x|];
    if x == y {
      assert more == (x + more)[|x|..] && rest == (y + rest)[|y|..];
    }
  }

  /** Parts that begin no other part can be read back from their join. */
  lemma {:induction false} JoinReads(a: seq<string>, b: seq<string>, texts: set<string>)
    requires Codewords(texts) && (forall x :: x in a ==> x in texts) && (forall x :: x in b ==> x in texts)
    requires Join(a) == Join(b)
    ensures a == b
  {
    if |a| > 0 {
      assert a[0] in a;
      HeadOfJoin(a);
    }
    if |b| > 0 {
      assert b[0] in b;
      HeadOfJoin(b);
    }
    if |a| > 0 && |b| > 0 {
      var more := if |a| == 1 then "" else "," + Join(a[1..]);
      var rest := if |b| == 1 then "" else "," + Join(b[1..]);
      if |a[0]| <= |b[0]| {
        OneHead(a[0], b[0], more, rest);
      } else {
        OneHead(b[0], a[0], rest, more);
      }
      assert a[0] == b[0] && more == rest;
      assert |a| == 1 <==> |b| == 1;
      if |a| > 1 {
        assert Join(a[1..]) == more[1..] == rest[1..] == Join(b[1..]);
        JoinReads(a[1..], b[1..], texts);
      }
      assert a == [a[0]] + a[1..] && b == [b[0]] + b[1..];
    }
  }

  /** No text of a canonical filter is empty, as there is more than one such filter. */
  lemma NeverEmpty(json: Filter -> string, f: Filter)
    requires PrefixFree(json)
    ensures json(Canonical(f)) != ""
  {
    var g := f.(limit := Some(if f.limit.Some? then f.limit.value + 1 else 0));
    assert Canonical(g).limit != Canonical(f).limit;
    assert json(Canonical(f)) == "" ==> json(Canonical(f)) <= json(Canonical(g));
  }

  lemma {:induction false} PartsCount(json: Filter -> string, filters: seq<Filter>, f: Filter)
    requires PrefixFree(json)
    ensures multiset(Parts(json, filters))[json(Canonical(f))] == multiset(CanonicalAll(filters))[Canonical(f)]
  {
    hide Canonical;
    if |filters| > 0 {
      var n := |filters| - 1;
      PartsCount(json, filters[..n], f);
      assert Parts(json, filters) == Parts(json, filters[..n]) + [json(Canonical(filters[n]))];
      assert CanonicalAll(filters) == CanonicalAll(filters[..n]) + [Canonical(filters[n])];
      assert json(Canonical(filters[n])) == json(Canonical(f)) ==>
        json(Canonical(filters[n])) <= json(Canonical(f)) && Canonical(filters[n]) == Canonical(f);
    }
  }

  lemma SameCounts<T>(a: seq<T>, b: seq<T>)
    requires forall x :: x in a || x in b ==> multiset(a)[x] == multiset(b)[x]
    ensures multiset(a) == multiset(b)
  {
    forall x
      ensures multiset(a)[x] == multiset(b)[x]
    {
      assert x in a <==> x in multiset(a);
      assert x in b <==> x in multiset(b);
    }
  }

  lemma CanonicalOf(filters: seq<Filter>, c: Filter) returns (f: Filter)
    requires c in CanonicalAll(filters)
    ensures c == Canonical(f)
  {
    hide Canonical;
    var i :| 0 <= i < |filters| && CanonicalAll(filters)[i] == c;
    f := filters[i];
  }

  lemma WriterOf(json: Filter -> string, filters: seq<Filter>, t: string) returns (f: Filter)
    requires t in Parts(json, filters)
    ensures t == json(Canonical(f))
  {
    hide Canonical;
    var i :| 0 <= i < |filters| && Parts(json, filters)[i] == t;
    f := filters[i];
  }

  lemma CanonicalFromParts(json: Filter -> string, a: seq<Filter>, b: seq<Filter>)
    requires PrefixFree(json) && multiset(Parts(json, a)) == multiset(Parts(json, b))
    ensures multiset(CanonicalAll(a)) == multiset(CanonicalAll(b))
  {
    hide Canonical, PrefixFree, CanonicalAll, Parts;
    forall c | c in CanonicalAll(a) || c in CanonicalAll(b)
      ensures multiset(CanonicalAll(a))[c] == multiset(CanonicalAll(b))[c]
    {
      var f := CanonicalOf(if c in CanonicalAll(a) then a else b, c);
      PartsCount(json, a, f);
      PartsCount(json, b, f);
    }
    SameCounts(CanonicalAll(a), CanonicalAll(b));
  }

  lemma PartsFromCanonical(json: Filter -> string, a: seq<Filter>, b: seq<Filter>)
    requires PrefixFree(json) && multiset(CanonicalAll(a)) == multiset(CanonicalAll(b))
    ensures multiset(Parts(json, a)) == multiset(Parts(json, b))
  {
    hide Canonical, PrefixFree, CanonicalAll, Parts;
    forall t | t in Parts(json, a) || t in Parts(json, b)
      ensures multiset(Parts(json, a))[t] == multiset(Parts(json, b))[t]
    {
      var f := WriterOf(json, if t in Parts(json, a) then a else b, t);
      PartsCount(json, a, f);
      PartsCount(json, b, f);
    }
    SameCounts(Parts(json, a), Parts(json, b));
  }

  lemma PartsAreCodewords(json: Filter -> string, a: seq<Filter>, b: seq<Filter>)
    requires PrefixFree(json)
    ensures Codewords(set x | x in Parts(json, a) + Parts(json, b))
  {
    hide Canonical;
    var texts := set x | x in Parts(json, a) + Parts(json, b);
    forall x | x in texts
      ensures x != "" && exists f :: x == json(Canonical(f))
    {
      var i :| 0 <= i < |a| + |b| && (Parts(json, a) + Parts(json, b))[i] == x;
      var f := if i < |a| then a[i] else b[i - |a|];
      assert x == json(Canonical(f));
      NeverEmpty(json, f);
    }
  }

  /** Lists of filters share a fingerprint exactly when their canonical forms are the same, repeats counted. */
  lemma FingerprintExactly(json: Filter -> string, a: seq<Filter>, b: seq<Filter>)
    requires PrefixFree(json)
    ensures Fingerprint(json, a) == Fingerprint(json, b) <==>
      multiset(CanonicalAll(a)) == multiset(CanonicalAll(b))
  {
    hide Canonical, PrefixFree, Codewords, StrictOrder, Join, SortBy;
    TextOrder();
    var x, y := Parts(json, a), Parts(json, b);
    SortForgetsOrder(StringLess, x, y);
    if multiset(CanonicalAll(a)) == multiset(CanonicalAll(b)) {
      PartsFromCanonical(json, a, b);
    }
    if Fingerprint(json, a) == Fingerprint(json, b) {
      SortMembers(StringLess, x);
      SortMembers(StringLess, y);
      PartsAreCodewords(json, a, b);
      var p, q := Join(SortBy(StringLess, x)), Join(SortBy(StringLess, y));
      assert p == ("[" + p + "]")[1..|p| + 1] && q == ("[" + q + "]")[1..|q| + 1];
      assert |"[" + p + "]"| == |p| + 2 && |"[" + q + "]"| == |q| + 2;
      JoinReads(SortBy(StringLess, x), SortBy(StringLess, y), set t | t in x + y);
      CanonicalFromParts(json, a, b);
    }
  }

  /** Each filter of the one list has its canonical form in the other. */
  lemma Partner(a: seq<Filter>, b: seq<Filter>, f: Filter) returns (g: Filter)
    requires multiset(CanonicalAll(a)) == multiset(CanonicalAll(b)) && f in a
    ensures g in b && Canonical(g) == Canonical(f)
  {
    hide Canonical;
    var i :| 0 <= i < |a| && a[i] == f;
    assert CanonicalAll(a)[i] in multiset(CanonicalAll(b));
    var j :| 0 <= j < |b| && CanonicalAll(b)[j] == Canonical(f);
    g := b[j];
  }

  /** Lists of the same canonical filters match the same events. */
  lemma SameCanonicalMatch(a: seq<Filter>, b: seq<Filter>, e: Event)
    requires multiset(CanonicalAll(a)) == multiset(CanonicalAll(b))
    ensures MatchesAny(a, e) <==> MatchesAny(b, e)
  {
    hide Matches, Canonical;
    if f :| f in a && Matches(f, e) {
      var g := Partner(a, b, f);
      CanonicalMatches(f, e);
      CanonicalMatches(g, e);
    }
    if f :| f in b && Matches(f, e) {
      var g := Partner(b, a, f);
      CanonicalMatches(f, e);
      CanonicalMatches(g, e);
    }
  }

  /** Equal fingerprints are given to filters of equal meaning only. */
  ghost predicate Faithful(fpOf: seq<Filter> -> string) {
    forall f, g, e :: fpOf(f) == fpOf(g) ==> (MatchesAny(f, e) <==> MatchesAny(g, e))
  }

  lemma FingerprintFaithful(json: Filter -> string)
    requires PrefixFree(json)
    ensures Faithful(FingerprintOf(json))
  {
    hide Fingerprint, PrefixFree, CanonicalAll, MatchesAny;
    forall f, g, e | FingerprintOf(json)(f) == FingerprintOf(json)(g)
      ensures MatchesAny(f, e) <==> MatchesAny(g, e)
    {
      FingerprintExactly(json, f, g);
      SameCanonicalMatch(f, g, e);
    }
  }
}
