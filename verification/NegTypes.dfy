/**
 * Items, bounds and ranges of the NIP-77 protocol, and the order they are sorted by
 * (src/nips/nip77.ts). A timestamp is an integer; INFINITY is the number the source reserves for
 * the bound above every item.
 */
module NegTypes {
  import opened Octets

  /** What a hash function returns: 32 bytes. */
  type Digest = d: Bytes | |d| == 32 witness seq(32, _ => 0)

  /** SHA-256, left uninterpreted. */
  type Hash = Bytes -> Digest

  const MAX_SAFE_INTEGER: int := 0x1F_FFFF_FFFF_FFFF
  /** Number.MAX_VALUE, that is (2^53 - 1) * 2^971. */
  const INFINITY: int :=
    0xFFFF_FFFF_FFFF_F800_0000_0000_0000_0000_0000_0000_0000_0000_0000_0000_0000_0000_0000_0000_0000_0000_0000_0000_0000_0000_0000_0000_0000_0000_0000_0000_0000_0000_0000_0000_0000_0000_0000_0000_0000_0000_0000_0000_0000_0000_0000_0000_0000_0000_0000_0000_0000_0000_0000_0000_0000_0000_0000_0000_0000_0000_0000_0000_0000_0000
  const PROTOCOL_VERSION: Byte := 0x61
  const MAX_NEG_ROUNDS: nat := 1024
  /** An array holds no more elements than this. */
  const MAX_ARRAY_LENGTH: nat := 0xFFFF_FFFF
  const ID_SIZE: nat := 32
  const FINGERPRINT_SIZE: nat := 16
  const BUCKETS: nat := 16
  const ID_LIST_THRESHOLD: nat := BUCKETS * 2

  datatype NegError =
    | ParseEndsPrematurely
    | VarintTooLarge
    | VarintUnsafe
    | NotSealed
    | AlreadySealed
    | ReservedInfinity
    | InvalidId
    | ArrayFull
    | DuplicateItem
    | BadRange
    | FrameLimitTooSmall
    | InvalidVersion
    | UnsupportedVersion
    | BoundKeyTooLong
    | UnexpectedMode
    | TooManyRounds

  /** A stored item, and also a range bound: the id of a bound may be any prefix of an id. */
  datatype NegItem = NegItem(timestamp: int, id: Bytes)

  type Bound = NegItem

  datatype Payload =
    | Skip
    | Fingerprint(digest: Bytes)
    | IdList(ids: seq<Bytes>)

  /** One range of a message; it starts where the previous range ends. */
  datatype Range = Range(bound: Bound, payload: Payload)

  /** Where the first range of a message starts. */
  const START: Bound := NegItem(0, [])

  // ---- the order of ids and items ----

  function CompareBytes(a: Bytes, b: Bytes): int {
    if a == [] then (if b == [] then 0 else -1)
    else if b == [] then 1
    else if a[0] < b[0] then -1
    else if a[0] > b[0] then 1
    else CompareBytes(a[1..], b[1..])
  }

  function CompareItems(a: NegItem, b: NegItem): int {
    if a.timestamp != b.timestamp then a.timestamp - b.timestamp else CompareBytes(a.id, b.id)
  }

  predicate Less(a: NegItem, b: NegItem) {
    CompareItems(a, b) < 0
  }

  lemma {:induction false} CompareBytesTotal(a: Bytes, b: Bytes)
    ensures CompareBytes(a, b) == 0 <==> a == b
    ensures CompareBytes(a, b) == -CompareBytes(b, a)
    ensures -1 <= CompareBytes(a, b) <= 1
  {
    if a != [] && b != [] && a[0] == b[0] {
      CompareBytesTotal(a[1..], b[1..]);
      assert a == [a[0]] + a[1..] && b == [b[0]] + b[1..];
    }
  }

  lemma {:induction false} CompareBytesTransitive(a: Bytes, b: Bytes, c: Bytes)
    requires CompareBytes(a, b) < 0 && CompareBytes(b, c) <= 0
    ensures CompareBytes(a, c) < 0
  {
    if b == c {
    } else {
      CompareBytesTotal(b, c);
      if a != [] && b != [] && c != [] && a[0] == b[0] == c[0] {
        CompareBytesTransitive(a[1..], b[1..], c[1..]);
      }
    }
  }

  /** The order of items is total: exactly one of less, equal and greater holds. */
  lemma LessTotal(a: NegItem, b: NegItem)
    ensures !(Less(a, b) && Less(b, a))
    ensures Less(a, b) || Less(b, a) || a == b
    ensures !Less(a, a)
  {
    CompareBytesTotal(a.id, b.id);
    CompareBytesTotal(a.id, a.id);
  }

  lemma LessTransitive(a: NegItem, b: NegItem, c: NegItem)
    requires Less(a, b) && !Less(c, b)
    ensures Less(a, c)
  {
    CompareBytesTotal(b.id, c.id);
    if a.timestamp == b.timestamp == c.timestamp {
      CompareBytesTransitive(a.id, b.id, c.id);
    }
  }

  /** The source's loop over the common length, then over the lengths. */
  method CompareBytesLoop(a: Bytes, b: Bytes) returns (c: int)
    ensures c == CompareBytes(a, b)
  {
    var n := if |a| <= |b| then |a| else |b|;
    for i := 0 to n
      invariant CompareBytes(a, b) == CompareBytes(a[i..], b[i..])
    {
      if a[i] < b[i] {
        return -1;
      }
      if a[i] > b[i] {
        return 1;
      }
      assert a[i..][1..] == a[i + 1..] && b[i..][1..] == b[i + 1..];
    }
    if |a| > |b| {
      return 1;
    }
    if |a| < |b| {
      return -1;
    }
    return 0;
  }

  method CompareItemsMethod(a: NegItem, b: NegItem) returns (c: int)
    ensures c == CompareItems(a, b)
  {
    if a.timestamp != b.timestamp {
      return a.timestamp - b.timestamp;
    }
    c := CompareBytesLoop(a.id, b.id);
  }

  // ---- sorted vectors ----

  /** Every item is below the next one. */
  predicate Sorted(items: seq<NegItem>) {
    |items| < 2 ||
    (Sorted(items[..|items| - 1]) && Less(items[|items| - 2], items[|items| - 1]))
  }

  lemma {:induction false} SortedPairs(items: seq<NegItem>)
    ensures Sorted(items) <==> forall i, j :: 0 <= i < j < |items| ==> Less(items[i], items[j])
  {
    if |items| >= 2 {
      var n := |items| - 1;
      SortedPairs(items[..n]);
      if Sorted(items) {
        forall i | 0 <= i < n
          ensures Less(items[i], items[n])
        {
          if i < n - 1 {
            assert items[..n][i] == items[i] && items[..n][n - 1] == items[n - 1];
            LessTotal(items[n - 1], items[n]);
            LessTransitive(items[i], items[n - 1], items[n]);
          }
        }
      }
    }
  }

  /** Sorted, but equal items may sit side by side. */
  predicate WeaklySorted(items: seq<NegItem>) {
    |items| < 2 ||
    (WeaklySorted(items[..|items| - 1]) && !Less(items[|items| - 1], items[|items| - 2]))
  }

  lemma {:induction false} WeaklySortedPairs(items: seq<NegItem>)
    ensures WeaklySorted(items) <==> forall i, j :: 0 <= i < j < |items| ==> !Less(items[j], items[i])
  {
    if |items| >= 2 {
      var n := |items| - 1;
      WeaklySortedPairs(items[..n]);
      if WeaklySorted(items) {
        forall i | 0 <= i < n
          ensures !Less(items[n], items[i])
        {
          if i < n - 1 && Less(items[n], items[i]) {
            assert items[..n][i] == items[i] && items[..n][n - 1] == items[n - 1];
            LessTotal(items[i], items[n - 1]);
            LessTransitive(items[n], items[i], items[n - 1]);
          }
        }
      }
    }
  }

  function Ids(items: seq<NegItem>): (r: seq<Bytes>)
    ensures |r| == |items|
    ensures forall i :: 0 <= i < |items| ==> r[i] == items[i].id
  {
    seq(|items|, i requires 0 <= i < |items| => items[i].id)
  }

  /** The first index from `from` on whose item is not below the bound. */
  function LowerBound(items: seq<NegItem>, from: nat, bound: Bound): (r: nat)
    requires from <= |items|
    ensures from <= r <= |items|
    decreases |items| - from
  {
    if from < |items| && Less(items[from], bound) then LowerBound(items, from + 1, bound) else from
  }

  lemma {:induction false} LowerBoundIsFirst(items: seq<NegItem>, from: nat, bound: Bound)
    requires from <= |items|
    ensures var r := LowerBound(items, from, bound);
            && (forall i :: from <= i < r ==> Less(items[i], bound))
            && (r < |items| ==> !Less(items[r], bound))
    decreases |items| - from
  {
    if from < |items| && Less(items[from], bound) {
      LowerBoundIsFirst(items, from + 1, bound);
    }
  }

  lemma {:induction false} LowerBoundUnique(items: seq<NegItem>, from: nat, bound: Bound, at: nat)
    requires from <= at <= |items|
    requires forall i :: from <= i < at ==> Less(items[i], bound)
    requires at < |items| ==> !Less(items[at], bound)
    ensures LowerBound(items, from, bound) == at
    decreases |items| - from
  {
    if from < at {
      LowerBoundUnique(items, from + 1, bound, at);
    }
  }

  /** How many items lie below the bound. */
  function Cut(items: seq<NegItem>, bound: Bound): nat {
    LowerBound(items, 0, bound)
  }

  /** In a sorted vector the cut separates the items below the bound from the rest. */
  lemma CutSeparates(items: seq<NegItem>, bound: Bound)
    requires Sorted(items)
    ensures forall i :: 0 <= i < |items| ==> (i < Cut(items, bound) <==> Less(items[i], bound))
  {
    SortedPairs(items);
    LowerBoundIsFirst(items, 0, bound);
    var c := Cut(items, bound);
    forall i | c < i < |items|
      ensures !Less(items[i], bound)
    {
      if Less(items[i], bound) {
        LessTotal(bound, items[i]);
        LessTransitive(items[c], items[i], bound);
      }
    }
  }

  /** Searching from the cut of a lower bound finds the cut itself: both sides stay aligned. */
  lemma CutFromCut(items: seq<NegItem>, low: Bound, high: Bound)
    requires Sorted(items) && !Less(high, low)
    ensures Cut(items, low) <= Cut(items, high)
    ensures LowerBound(items, Cut(items, low), high) == Cut(items, high)
  {
    CutSeparates(items, low);
    CutSeparates(items, high);
    var c := Cut(items, low);
    if c > 0 {
      LessTransitive(items[c - 1], low, high);
    }
    LowerBoundUnique(items, c, high, Cut(items, high));
  }

  /** The items from one bound up to the next. */
  function Slice(items: seq<NegItem>, low: Bound, high: Bound): seq<NegItem> {
    if Cut(items, low) <= Cut(items, high) then items[Cut(items, low)..Cut(items, high)] else []
  }

  lemma SliceMembers(items: seq<NegItem>, low: Bound, high: Bound, x: NegItem)
    requires Sorted(items)
    ensures x in Slice(items, low, high) <==> x in items && !Less(x, low) && Less(x, high)
  {
    CutSeparates(items, low);
    CutSeparates(items, high);
    if x in items && !Less(x, low) && Less(x, high) {
      var i :| 0 <= i < |items| && items[i] == x;
      assert Cut(items, low) <= i < Cut(items, high);
      assert x == Slice(items, low, high)[i - Cut(items, low)];
    }
  }
}
