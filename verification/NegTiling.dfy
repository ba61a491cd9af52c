/**
 * Ranges and the items they stand for: the ranges a side sends tile an interval of the item order,
 * each is truthful about the items in it, and both sides cut their items at the same places.
 */
module NegTiling {
  import opened NegTypes
  import opened Octets
  import opened NegCodec
  import opened NegStorage
  import opened NegProtocol

  /** Items a session can be held over: sealed, with 32-byte ids and timestamps a varint can carry. */
  predicate ValidItems(items: seq<NegItem>) {
    && Sorted(items)
    && |items| <= MAX_SAFE_INTEGER
    && forall i :: 0 <= i < |items| ==> |items[i].id| == ID_SIZE && 0 <= items[i].timestamp < MAX_SAFE_INTEGER
  }

  predicate ValidBound(b: Bound) {
    |b.id| <= ID_SIZE && (b.timestamp == INFINITY || 0 <= b.timestamp < MAX_SAFE_INTEGER)
  }

  /** Where the interval of some consecutive ranges ends, when it starts at low. */
  function Last(low: Bound, ranges: seq<Range>): Bound {
    if ranges == [] then low else ranges[|ranges| - 1].bound
  }

  /** What a range claims about the items from low up to its bound is true of these items. */
  predicate Truthful(hash: Hash, items: seq<NegItem>, low: Bound, r: Range) {
    match r.payload
    case Skip => true
    case Fingerprint(digest) => digest == DigestOf(hash, Slice(items, low, r.bound))
    case IdList(ids) => ids == Ids(Slice(items, low, r.bound))
  }

  /** Ranges with rising bounds, all truthful: they tile the interval from low to Last(low, ranges). */
  predicate Tiles(hash: Hash, items: seq<NegItem>, low: Bound, ranges: seq<Range>) {
    ranges == [] ||
    var before, r := ranges[..|ranges| - 1], ranges[|ranges| - 1];
    && Tiles(hash, items, low, before)
    && Less(Last(low, before), r.bound)
    && ValidBound(r.bound)
    && Truthful(hash, items, Last(low, before), r)
  }

  predicate Within(low: Bound, high: Bound, x: NegItem) {
    !Less(x, low) && Less(x, high)
  }

  /** Some range other than a skip covers x. */
  predicate Open(low: Bound, ranges: seq<Range>, x: NegItem) {
    ranges != [] &&
    var before, r := ranges[..|ranges| - 1], ranges[|ranges| - 1];
    Open(low, before, x) || (!r.payload.Skip? && Within(Last(low, before), r.bound, x))
  }

  predicate NoSkip(ranges: seq<Range>) {
    ranges == [] || (NoSkip(ranges[..|ranges| - 1]) && !ranges[|ranges| - 1].payload.Skip?)
  }

  lemma TilesSnoc(hash: Hash, items: seq<NegItem>, low: Bound, before: seq<Range>, r: Range)
    requires Tiles(hash, items, low, before) && Less(Last(low, before), r.bound) && ValidBound(r.bound)
    requires Truthful(hash, items, Last(low, before), r)
    ensures Tiles(hash, items, low, before + [r]) && Last(low, before + [r]) == r.bound
    ensures NoSkip(before) && !r.payload.Skip? ==> NoSkip(before + [r])
  {
    assert (before + [r])[..|before + [r]| - 1] == before;
  }

  lemma {:induction false} TilesAppend(hash: Hash, items: seq<NegItem>, low: Bound, a: seq<Range>, b: seq<Range>)
    requires Tiles(hash, items, low, a) && Tiles(hash, items, Last(low, a), b)
    ensures Tiles(hash, items, low, a + b) && Last(low, a + b) == Last(Last(low, a), b)
  {
    if b == [] {
      assert a + b == a;
    } else {
      var n := |b| - 1;
      TilesAppend(hash, items, low, a, b[..n]);
      assert (a + b)[..|a + b| - 1] == a + b[..n];
    }
  }

  lemma {:induction false} OpenAppend(low: Bound, a: seq<Range>, b: seq<Range>, x: NegItem)
    ensures Open(low, a + b, x) <==> Open(low, a, x) || Open(Last(low, a), b, x)
  {
    if b == [] {
      assert a + b == a;
    } else {
      var n := |b| - 1;
      OpenAppend(low, a, b[..n], x);
      assert (a + b)[..|a + b| - 1] == a + b[..n];
      assert Last(low, a + b[..n]) == Last(Last(low, a), b[..n]);
    }
  }

  /** Tiles only rise, and cover nothing outside their interval. */
  lemma {:induction false} TilesRise(hash: Hash, items: seq<NegItem>, low: Bound, ranges: seq<Range>, x: NegItem)
    requires Tiles(hash, items, low, ranges)
    ensures !Less(Last(low, ranges), low)
    ensures Open(low, ranges, x) ==> Within(low, Last(low, ranges), x)
  {
    LessTotal(low, low);
    if ranges != [] {
      var before, r := ranges[..|ranges| - 1], ranges[|ranges| - 1];
      TilesRise(hash, items, low, before, x);
      LessBelow(low, Last(low, before), r.bound);
      LessTotal(low, r.bound);
      if Open(low, before, x) {
        LessTotal(r.bound, Last(low, before));
        LessTransitive(x, Last(low, before), r.bound);
      } else if Within(Last(low, before), r.bound, x) {
        LessAbove(low, Last(low, before), x);
      }
    }
  }

  lemma LessBelow(a: NegItem, b: NegItem, c: NegItem)
    requires !Less(b, a) && Less(b, c)
    ensures Less(a, c)
  {
    LessUpward(a, b, c);
  }

  lemma LessAbove(a: NegItem, b: NegItem, x: NegItem)
    requires !Less(b, a) && !Less(x, b)
    ensures !Less(x, a)
  {
    if Less(x, a) {
      LessTotal(a, b);
      LessTransitive(x, a, b);
    }
  }

  // ---- minimal bounds ----

  lemma {:induction false} CompareFrom(a: Bytes, b: Bytes, n: nat)
    requires n <= |a| && n <= |b| && a[..n] == b[..n]
    ensures CompareBytes(a, b) == CompareBytes(a[n..], b[n..])
  {
    if n > 0 {
      assert a[0] == a[..n][0] == b[..n][0] == b[0];
      assert a[1..][..n - 1] == a[..n][1..] && b[1..][..n - 1] == b[..n][1..];
      CompareFrom(a[1..], b[1..], n - 1);
      assert a[1..][n - 1..] == a[n..] && b[1..][n - 1..] == b[n..];
    }
  }

  lemma SharedProper(a: Bytes, b: Bytes)
    requires CompareBytes(a, b) < 0 && |a| == |b|
    ensures Shared(a, b) < |a|
  {
    CompareBytesTotal(a, b);
    assert a[..|a|] == a && b[..|b|] == b;
  }

  /** A minimal bound separates two neighbours: above the first, not above the second. */
  lemma MinimalBoundSeparates(prev: NegItem, curr: NegItem)
    requires Less(prev, curr) && |prev.id| == |curr.id|
    ensures Less(prev, MinimalBound(prev, curr)) && !Less(curr, MinimalBound(prev, curr))
    ensures |MinimalBound(prev, curr).id| <= |curr.id|
  {
    var b := MinimalBound(prev, curr);
    if curr.timestamp == prev.timestamp {
      var n := Shared(prev.id, curr.id);
      CompareFrom(prev.id, curr.id, n);
      SharedProper(prev.id, curr.id);
      assert b.id == curr.id[..n + 1];
      assert curr.id[..n + 1][..n] == curr.id[..n];
      CompareFrom(prev.id, b.id, n);
      assert b.id[n..] == [curr.id[n]];
      CompareFrom(curr.id, b.id, n + 1);
      assert b.id[n + 1..] == [];
    }
  }

  /** No separating bound with the same timestamp has a shorter id than the minimal one. */
  lemma MinimalBoundShortest(prev: NegItem, curr: NegItem, b: Bound)
    requires Less(prev, curr) && |prev.id| == |curr.id|
    requires Less(prev, b) && !Less(curr, b)
    ensures curr.timestamp == prev.timestamp ==> |b.id| >= |MinimalBound(prev, curr).id|
    ensures curr.timestamp != prev.timestamp ==> |MinimalBound(prev, curr).id| == 0
  {
    if curr.timestamp == prev.timestamp {
      assert b.timestamp == curr.timestamp;
      var n := Shared(prev.id, curr.id);
      CompareFrom(prev.id, curr.id, n);
      SharedProper(prev.id, curr.id);
      if |b.id| <= n {
        PrefixesAgree(prev.id, curr.id, b.id, n);
        CompareBytesTotal(b.id, curr.id);
        CompareBytesTotal(curr.id, prev.id);
      }
    }
  }

  /** A string no longer than the common prefix of two strings compares alike with both, or is a prefix of both. */
  lemma {:induction false} PrefixesAgree(p: Bytes, c: Bytes, b: Bytes, n: nat)
    requires n <= |p| && n <= |c| && p[..n] == c[..n] && |b| <= n
    requires CompareBytes(p, b) < 0
    ensures CompareBytes(c, b) < 0
  {
    if b != [] {
      assert p[0] == p[..n][0] == c[..n][0] == c[0];
      if p[0] == b[0] {
        assert p[1..][..n - 1] == p[..n][1..] && c[1..][..n - 1] == c[..n][1..];
        PrefixesAgree(p[1..], c[1..], b[1..], n - 1);
      }
    }
  }

  /** Searching for the bound of a bucket finds the index the bucket was cut at. */
  lemma BucketBoundCuts(items: seq<NegItem>, low: Bound, high: Bound, cut: nat)
    requires ValidItems(items) && ValidBound(high) && Less(low, high)
    requires Cut(items, low) < cut <= Cut(items, high)
    ensures var b := BucketBound(items, cut, Cut(items, high), high);
            && Cut(items, b) == cut && ValidBound(b) && Less(low, b)
            && (if cut < Cut(items, high) then Less(b, high) else b == high)
  {
    var upper := Cut(items, high);
    var b := BucketBound(items, cut, upper, high);
    CutSeparates(items, low);
    CutSeparates(items, high);
    if cut < upper {
      var prev, curr := items[cut - 1], items[cut];
      SortedPairs(items);
      MinimalBoundSeparates(prev, curr);
      CutSeparates(items, b);
      assert cut <= Cut(items, b) by {
        assert cut - 1 < Cut(items, b);
      }
      LessAboveThen(low, prev, b);
      LessTotal(b, curr);
      LessBelow(b, curr, high);
    }
  }

  lemma LessAboveThen(low: NegItem, prev: NegItem, b: NegItem)
    requires !Less(prev, low) && Less(prev, b)
    ensures Less(low, b)
  {
    LessUpward(low, prev, b);
  }

  /** Bucket ranges that tile from low up to the cut. */
  ghost predicate TilesTo(hash: Hash, items: seq<NegItem>, low: Bound, high: Bound, cut: nat, ranges: seq<Range>) {
    && Tiles(hash, items, low, ranges) && NoSkip(ranges)
    && Cut(items, Last(low, ranges)) == cut
    && (cut == Cut(items, high) ==> Last(low, ranges) == high)
  }

  lemma {:induction false} BucketsTile(hash: Hash, items: seq<NegItem>, low: Bound, high: Bound, cuts: seq<nat>, k: nat)
    requires ValidItems(items) && ValidBound(high) && Less(low, high)
    requires k < |cuts| && Rising(cuts) && cuts[0] == Cut(items, low) < Cut(items, high) && cuts[k] <= Cut(items, high)
    ensures TilesTo(hash, items, low, high, cuts[k], Buckets(hash, items, cuts, Cut(items, high), high, k))
  {
    if k > 0 {
      BucketsTile(hash, items, low, high, cuts, k - 1);
      NextBucket(hash, items, low, high, cuts[k - 1], cuts[k], Buckets(hash, items, cuts, Cut(items, high), high, k - 1));
    }
  }

  lemma NextBucket(hash: Hash, items: seq<NegItem>, low: Bound, high: Bound, from: nat, to: nat, before: seq<Range>)
    requires ValidItems(items) && ValidBound(high) && Less(low, high)
    requires Cut(items, low) <= from < to <= Cut(items, high)
    requires TilesTo(hash, items, low, high, from, before)
    ensures TilesTo(hash, items, low, high, to, before + [Bucket(hash, items, from, to, Cut(items, high), high)])
  {
    BucketBoundCuts(items, low, high, to);
    var r := Bucket(hash, items, from, to, Cut(items, high), high);
    CutOrders(items, Last(low, before), r.bound);
    assert Slice(items, Last(low, before), r.bound) == items[from..to];
    TilesSnoc(hash, items, low, before, r);
  }

  lemma CutOrders(items: seq<NegItem>, a: Bound, b: Bound)
    requires Sorted(items) && Cut(items, a) < Cut(items, b)
    ensures Less(a, b)
  {
    CutSeparates(items, a);
    CutSeparates(items, b);
    var x := items[Cut(items, a)];
    LessUpward(a, x, b);
  }

  /** What a side sends about its items of an interval tiles exactly that interval, with no skip. */
  lemma SplitTiles(hash: Hash, items: seq<NegItem>, low: Bound, high: Bound)
    requires ValidItems(items) && ValidBound(high) && Less(low, high)
    ensures Cut(items, low) <= Cut(items, high)
    ensures var ranges := Split(hash, items, Cut(items, low), Cut(items, high), high);
            Tiles(hash, items, low, ranges) && Last(low, ranges) == high && NoSkip(ranges)
  {
    LessTotal(low, high);
    CutFromCut(items, low, high);
    var lower, upper := Cut(items, low), Cut(items, high);
    if upper - lower < ID_LIST_THRESHOLD {
      IdsTile(hash, items, low, high);
    } else {
      CutsTile(lower, upper);
      BucketsTile(hash, items, low, high, Cuts(lower, upper), BUCKETS);
    }
  }

  /** The ids of an interval, listed as one range, tile it. */
  lemma IdsTile(hash: Hash, items: seq<NegItem>, low: Bound, high: Bound)
    requires ValidBound(high) && Less(low, high) && Cut(items, low) <= Cut(items, high)
    ensures var ranges := [Range(high, IdList(Ids(items[Cut(items, low)..Cut(items, high)])))];
            Tiles(hash, items, low, ranges) && Last(low, ranges) == high && NoSkip(ranges)
  {
    var r := Range(high, IdList(Ids(items[Cut(items, low)..Cut(items, high)])));
    TilesSnoc(hash, items, low, [], r);
    assert [] + [r] == [r];
  }

  /** Ranges without a skip leave no item of their interval uncovered. */
  lemma {:induction false} OpenThroughout(hash: Hash, items: seq<NegItem>, low: Bound, ranges: seq<Range>, x: NegItem)
    requires Tiles(hash, items, low, ranges)
    requires NoSkip(ranges)
    requires Within(low, Last(low, ranges), x)
    ensures Open(low, ranges, x)
  {
    if ranges != [] {
      var before := ranges[..|ranges| - 1];
      if Less(x, Last(low, before)) {
        OpenThroughout(hash, items, low, before, x);
      }
    }
  }

  /** Ranges that tile can be put on the wire. */
  lemma {:induction false} TilesSendable(hash: Hash, items: seq<NegItem>, ranges: seq<Range>)
    requires ValidItems(items) && Tiles(hash, items, START, ranges)
    ensures Sendable(ranges)
    ensures ValidBound(Last(START, ranges)) && Last(START, ranges).timestamp == LastTimestamp(ranges)
  {
    if ranges != [] {
      var before, r := ranges[..|ranges| - 1], ranges[|ranges| - 1];
      TilesSendable(hash, items, before);
      var low := Last(START, before);
      assert low.timestamp <= r.bound.timestamp;
      match r.payload
      case Skip =>
      case Fingerprint(digest) =>
      case IdList(ids) =>
        forall id | id in ids
          ensures |id| == ID_SIZE
        {
          var i :| 0 <= i < |ids| && ids[i] == id;
          var x := Slice(items, low, r.bound)[i];
          assert x in Slice(items, low, r.bound);
          SliceMembers(items, low, r.bound, x);
        }
    }
  }
}
