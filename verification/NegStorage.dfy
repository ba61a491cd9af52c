/**
 * The fingerprint accumulator and the sealed item vector of NIP-77 (src/nips/nip77.ts).
 */
module NegStorage {
  import opened Results
  import opened NegTypes
  import opened Octets
  import opened NegCodec
  import opened Arithmetic

  // ---- little-endian numbers ----

  function Power256(n: nat): (p: nat)
    ensures p > 0
  {
    if n == 0 then 1 else 256 * Power256(n - 1)
  }

  /** The number a byte string spells, least significant byte first. */
  function Value(b: Bytes): nat {
    if b == [] then 0 else b[0] as int + 256 * Value(b[1..])
  }

  /** The n-byte spelling of v modulo 256^n. */
  function Spell(v: nat, n: nat): (b: Bytes)
    ensures |b| == n
  {
    if n == 0 then [] else [(v % 256) as Byte] + Spell(v / 256, n - 1)
  }

  lemma {:induction false} ValueSplit(a: Bytes, b: Bytes)
    ensures Value(a + b) == Value(a) + Power256(|a|) * Value(b)
  {
    if a == [] {
      assert a + b == b;
    } else {
      assert (a + b)[1..] == a[1..] + b;
      ValueSplit(a[1..], b);
      assert 256 * (Power256(|a| - 1) * Value(b)) == Power256(|a|) * Value(b);
    }
  }

  lemma {:induction false} ValueBelow(b: Bytes)
    ensures Value(b) < Power256(|b|)
  {
    if b != [] {
      ValueBelow(b[1..]);
    }
  }

  /** A byte string is the spelling of its own value. */
  lemma {:induction false} SpellValue(b: Bytes)
    ensures Spell(Value(b), |b|) == b
  {
    if b != [] {
      SpellValue(b[1..]);
      assert b == [b[0]] + b[1..];
    }
  }

  lemma PowerFour()
    ensures Power256(4) == 0x1_0000_0000
  {
    assert Power256(2) == 65536;
  }

  lemma {:induction false} PowerAdd(m: nat, n: nat)
    ensures Power256(m + n) == Power256(m) * Power256(n)
  {
    if m > 0 {
      PowerAdd(m - 1, n);
      assert 256 * (Power256(m - 1) * Power256(n)) == Power256(m) * Power256(n);
    }
  }

  // ---- the accumulator ----

  /** Sum of ids as 256-bit little-endian numbers, with carry, over a 32-byte buffer. */
  class Accumulator {
    const buf: array<Byte>

    ghost predicate Valid() {
      buf.Length == ID_SIZE
    }

    constructor ()
      ensures Valid() && fresh(buf) && Value(buf[..]) == 0
    {
      buf := new Byte[ID_SIZE](_ => 0);
      new;
      ZeroValue(buf[..]);
    }

    /** Writes a 32-bit word, least significant byte first. */
    method SetUint32(offset: nat, word: nat)
      requires Valid() && offset + 4 <= ID_SIZE && word < 0x1_0000_0000
      modifies buf
      ensures buf[..offset + 4] == old(buf[..offset]) + Spell(word, 4)
      ensures forall k :: offset + 4 <= k < ID_SIZE ==> buf[k] == old(buf[k])
    {
      var spelt := Spell(word, 4);
      buf[offset], buf[offset + 1], buf[offset + 2], buf[offset + 3] := spelt[0], spelt[1], spelt[2], spelt[3];
      assert buf[..offset + 4] == old(buf[..offset]) + spelt;
    }

    /** Adds the word at an offset and the carry from below; returns the carry that goes on. */
    method AddUint32(other: Bytes, offset: nat, carry: nat, ghost was: Bytes) returns (next: nat)
      requires Valid() && |other| == |was| == ID_SIZE && offset + 4 <= ID_SIZE && carry <= 1
      requires forall k :: offset <= k < ID_SIZE ==> buf[k] == was[k]
      requires Added(buf[..offset], was[..offset], other[..offset], carry)
      modifies buf
      ensures next <= 1
      ensures forall k :: offset + 4 <= k < ID_SIZE ==> buf[k] == was[k]
      ensures Added(buf[..offset + 4], was[..offset + 4], other[..offset + 4], next)
    {
      ghost var done := buf[..offset];
      var ours := GetUint32(buf[..], offset);
      assert ours == GetUint32(was, offset) by {
        assert buf[..][offset..offset + 4] == was[offset..offset + 4];
      }
      var sum := ours + carry + GetUint32(other, offset);
      next := if sum > 0xFFFF_FFFF then 1 else 0;
      var word := sum % 0x1_0000_0000;
      assert sum == word + next * 0x1_0000_0000;
      SetUint32(offset, word);
      AddWord(was, other, offset, done, carry, sum, word, next);
    }

    method Add(other: Bytes)
      requires Valid() && |other| == ID_SIZE
      modifies buf
      ensures Value(buf[..]) == (old(Value(buf[..])) + Value(other)) % Power256(buf.Length)
    {
      hide Added, Value, Power256;
      ghost var was := buf[..];
      NothingAdded();
      var carry := 0;
      for i := 0 to 8
        invariant 0 <= carry <= 1
        invariant forall k :: 4 * i <= k < ID_SIZE ==> buf[k] == was[k]
        invariant Added(buf[..4 * i], was[..4 * i], other[..4 * i], carry)
      {
        carry := AddUint32(other, i * 4, carry, was);
      }
      assert buf[..4 * 8] == buf[..] && was[..4 * 8] == was && other[..4 * 8] == other;
      SumWraps(buf[..], was, other, carry);
    }

    method Fingerprint(hash: Hash, n: nat) returns (r: Result<Bytes, NegError>)
      requires Valid()
      ensures r == if n > MAX_SAFE_INTEGER then Err(VarintUnsafe)
                   else Ok(hash(buf[..] + VarInt(n))[..FINGERPRINT_SIZE])
    {
      var input := new EncodedBuf.Empty();
      input.Extend(buf[..]);
      var size :- EncodeVarIntMethod(n);
      input.Extend(size);
      var bytes := input.Unwrap();
      assert bytes == buf[..] + VarInt(n);
      r := Ok(hash(bytes)[..FINGERPRINT_SIZE]);
    }
  }

  /** The little-endian 32-bit word at an offset. */
  function GetUint32(b: Bytes, offset: nat): (word: nat)
    requires offset + 4 <= |b|
    ensures word < 0x1_0000_0000
  {
    PowerFour();
    ValueBelow(b[offset..offset + 4]);
    Value(b[offset..offset + 4])
  }

  /** The low bytes of a sum, with the carry that goes on. */
  ghost predicate Added(low: Bytes, a: Bytes, b: Bytes, carry: nat) {
    Value(low) + carry * Power256(|low|) == Value(a) + Value(b)
  }

  lemma NothingAdded()
    ensures Added([], [], [], 0)
  {
  }

  lemma SumWraps(now: Bytes, was: Bytes, other: Bytes, carry: nat)
    requires Added(now, was, other, carry)
    ensures Value(now) == (Value(was) + Value(other)) % Power256(|now|)
  {
    ValueBelow(now);
    RemainderUnique(Value(was) + Value(other), carry, Value(now), Power256(|now|));
  }

  lemma ZeroValue(b: Bytes)
    requires forall i :: 0 <= i < |b| ==> b[i] == 0
    ensures Value(b) == 0
  {
  }

  lemma ValueOfSpell(v: nat, n: nat)
    requires v < Power256(n)
    ensures Value(Spell(v, n)) == v
  {
    if n > 0 {
      ValueOfSpell(v / 256, n - 1);
    }
  }

  /** One round of the carry loop. */
  lemma AddWord(was: Bytes, other: Bytes, offset: nat, done: Bytes, carried: nat, next: nat, word: nat, carry: nat)
    requires |was| == |other| == ID_SIZE && offset + 4 <= ID_SIZE && |done| == offset
    requires Added(done, was[..offset], other[..offset], carried)
    requires next == GetUint32(was, offset) + carried + GetUint32(other, offset)
    requires next == word + carry * 0x1_0000_0000 && word < 0x1_0000_0000
    ensures Added(done + Spell(word, 4), was[..offset + 4], other[..offset + 4], carry)
  {
    PowerFour();
    var p := Power256(offset);
    PowerAdd(offset, 4);
    ValueSplit(done, Spell(word, 4));
    ValueOfSpell(word, 4);
    assert was[..offset + 4] == was[..offset] + was[offset..offset + 4];
    ValueSplit(was[..offset], was[offset..offset + 4]);
    assert other[..offset + 4] == other[..offset] + other[offset..offset + 4];
    ValueSplit(other[..offset], other[offset..offset + 4]);
    Distribute(p, word, carry, GetUint32(was, offset), carried, GetUint32(other, offset));
  }

  lemma Distribute(p: nat, word: nat, carry: nat, a: nat, carried: nat, b: nat)
    requires word + carry * 0x1_0000_0000 == a + carried + b
    ensures p * word + carry * (p * 0x1_0000_0000) == p * a + carried * p + p * b
  {
    calc {
      p * word + carry * (p * 0x1_0000_0000);
      p * (word + carry * 0x1_0000_0000);
      p * (a + carried + b);
      p * a + carried * p + p * b;
    }
  }

  // ---- fingerprints of id lists ----

  function Sum(ids: seq<Bytes>): nat {
    if ids == [] then 0 else Sum(ids[..|ids| - 1]) + Value(ids[|ids| - 1])
  }

  /** What is hashed of a list of ids: their sum modulo 2^256, and their number. */
  function Summary(ids: seq<Bytes>): Bytes {
    Spell(Sum(ids), ID_SIZE) + VarInt(|ids|)
  }

  /** The 16-byte digest of a list of ids. */
  function FingerprintOf(hash: Hash, ids: seq<Bytes>): Bytes {
    hash(Summary(ids))[..FINGERPRINT_SIZE]
  }

  const WRAP: nat := 0x1_0000_0000_0000_0000_0000_0000_0000_0000_0000_0000_0000_0000_0000_0000_0000_0000

  lemma PowerFull()
    ensures Power256(ID_SIZE) == WRAP
  {
    PowerFour();
    PowerAdd(4, 4);
    PowerAdd(8, 8);
    PowerAdd(16, 16);
  }

  lemma SpellTells(v: nat, w: nat)
    ensures Spell(v, ID_SIZE) == Spell(w, ID_SIZE) <==> v % WRAP == w % WRAP
  {
    hide Spell, Power256, Value;
    PowerFull();
    SpellWraps(v, ID_SIZE);
    SpellWraps(w, ID_SIZE);
    ValueOfSpell(v % WRAP, ID_SIZE);
    ValueOfSpell(w % WRAP, ID_SIZE);
  }

  /** What is hashed tells the sum modulo 2^256 and the number of the ids. */
  lemma SummaryTells(a: seq<Bytes>, b: seq<Bytes>)
    requires |a| <= MAX_SAFE_INTEGER && |b| <= MAX_SAFE_INTEGER
    ensures Summary(a) == Summary(b) <==> Sum(a) % WRAP == Sum(b) % WRAP && |a| == |b|
  {
    hide Sum, VarInt, Spell;
    SpellTells(Sum(a), Sum(b));
    var x, y := Summary(a), Summary(b);
    assert x[..ID_SIZE] == Spell(Sum(a), ID_SIZE) && x[ID_SIZE..] == VarInt(|a|);
    assert y[..ID_SIZE] == Spell(Sum(b), ID_SIZE) && y[ID_SIZE..] == VarInt(|b|);
    VarIntRoundTrip(|a|, []);
    VarIntRoundTrip(|b|, []);
  }

  /** An id is the number that it spells. */
  lemma ValueTells(x: Bytes, y: Bytes)
    requires |x| == |y| == ID_SIZE
    ensures Value(x) < WRAP && Value(y) < WRAP && (Value(x) == Value(y) <==> x == y)
  {
    hide Value, Spell, Power256;
    PowerFull();
    ValueBelow(x);
    ValueBelow(y);
    SpellValue(x);
    SpellValue(y);
  }

  /** The least significant byte comes first: a byte at `i` counts 256^i. */
  lemma {:induction false} LittleEndian(b: Bytes, i: nat)
    requires i < |b| && forall j :: 0 <= j < |b| && j != i ==> b[j] == 0
    ensures Value(b) == Power256(i) * b[i] as int
  {
    if i == 0 {
      ZeroValue(b[1..]);
    } else {
      LittleEndian(b[1..], i - 1);
      assert 256 * (Power256(i - 1) * b[i] as int) == Power256(i) * b[i] as int;
    }
  }

  /** Lists that differ in one id have different sums, even modulo 2^256. */
  lemma OneDiffers(common: seq<Bytes>, x: Bytes, y: Bytes)
    requires |x| == |y| == ID_SIZE && x != y
    ensures Sum(common + [x]) % WRAP != Sum(common + [y]) % WRAP
  {
    hide Value;
    ValueTells(x, y);
    SumSplit(common, [x]);
    SumSplit(common, [y]);
    assert [x][..0] == [] && [y][..0] == [];
    hide Sum;
    var s := Sum(common);
    if (s + Value(x)) % WRAP == (s + Value(y)) % WRAP {
      SameRemainder(s + Value(x), s + Value(y));
    }
  }

  lemma SameRemainder(a: nat, b: nat)
    requires a % WRAP == b % WRAP && a < b + WRAP && b < a + WRAP
    ensures a == b
  {
  }

  lemma {:induction false} SumSplit(a: seq<Bytes>, b: seq<Bytes>)
    ensures Sum(a + b) == Sum(a) + Sum(b)
  {
    if b == [] {
      assert a + b == a;
    } else {
      var n := |b| - 1;
      assert (a + b)[..|a| + n] == a + b[..n];
      SumSplit(a, b[..n]);
    }
  }

  lemma {:induction false} SumPermuted(a: seq<Bytes>, b: seq<Bytes>)
    requires multiset(a) == multiset(b)
    ensures Sum(a) == Sum(b) && |a| == |b|
  {
    assert |a| == |multiset(a)| == |multiset(b)| == |b|;
    if a != [] {
      assert a[0] in multiset(b);
      var i :| 0 <= i < |b| && b[i] == a[0];
      var rest := b[..i] + b[i + 1..];
      assert a == [a[0]] + a[1..];
      assert b == b[..i] + [b[i]] + b[i + 1..];
      assert multiset(a[1..]) == multiset(a) - multiset{a[0]} == multiset(rest);
      SumPermuted(a[1..], rest);
      SumSplit([a[0]], a[1..]);
      SumSplit(b[..i] + [b[i]], b[i + 1..]);
      SumSplit(b[..i], [b[i]]);
      SumSplit(b[..i], b[i + 1..]);
    }
  }

  /** A fingerprint depends on which ids are listed, not on their order. */
  lemma FingerprintOrderFree(hash: Hash, a: seq<Bytes>, b: seq<Bytes>)
    requires multiset(a) == multiset(b)
    ensures FingerprintOf(hash, a) == FingerprintOf(hash, b)
  {
    SumPermuted(a, b);
  }

  lemma {:induction false} SpellWraps(v: nat, n: nat)
    ensures Spell(v % Power256(n), n) == Spell(v, n)
  {
    if n > 0 {
      var p := Power256(n - 1);
      HalveWrapped(v, p);
      SpellWraps(v / 256, n - 1);
    }
  }

  /** Dropping the low byte commutes with wrapping. */
  lemma HalveWrapped(v: nat, p: nat)
    requires p > 0
    ensures (v % (256 * p)) % 256 == v % 256
    ensures (v % (256 * p)) / 256 == (v / 256) % p
  {
    var u, b := v / 256, v % 256;
    var q, w := u / p, u % p;
    assert u == p * q + w;
    var low := 256 * w + b;
    assert v == q * (256 * p) + low by {
      assert v == 256 * (p * q + w) + b;
      assert 256 * (p * q) == q * (256 * p);
    }
    RemainderUnique(v, q, low, 256 * p);
    RemainderUnique(low, w, b, 256);
  }

  // ---- the vector ----

  /** Where a new item goes among items already in order: behind those not above it. */
  function InsertSorted(items: seq<NegItem>, x: NegItem): seq<NegItem> {
    if items == [] then [x]
    else if Less(x, items[0]) then [x] + items
    else [items[0]] + InsertSorted(items[1..], x)
  }

  /** Stands for Array.prototype.sort: only SortedByOrder below is used of it. */
  function Sort(items: seq<NegItem>): seq<NegItem> {
    if items == [] then [] else InsertSorted(Sort(items[..|items| - 1]), items[|items| - 1])
  }

  /** Weakly sorted, said of every pair. */
  ghost predicate InOrder(items: seq<NegItem>) {
    forall i, j :: 0 <= i < j < |items| ==> !Less(items[j], items[i])
  }

  lemma {:induction false} InsertKeepsOrder(items: seq<NegItem>, x: NegItem)
    requires InOrder(items)
    ensures InOrder(InsertSorted(items, x))
    ensures multiset(InsertSorted(items, x)) == multiset(items) + multiset{x}
  {
    if items == [] {
    } else if Less(x, items[0]) {
      forall i | 0 <= i < |items|
        ensures !Less(items[i], x)
      {
        if Less(items[i], x) {
          LessTotal(x, items[0]);
          LessTotal(items[0], items[i]);
          LessTransitive(items[i], x, items[0]);
        }
      }
    } else {
      InsertKeepsOrder(items[1..], x);
      var r := InsertSorted(items[1..], x);
      assert items == [items[0]] + items[1..];
      forall i | 0 <= i < |r|
        ensures !Less(r[i], items[0])
      {
        assert r[i] in multiset(r);
        assert r[i] == x || r[i] in items[1..];
      }
    }
  }

  lemma {:induction false} SortInOrder(items: seq<NegItem>)
    ensures InOrder(Sort(items)) && multiset(Sort(items)) == multiset(items)
  {
    if items != [] {
      var n := |items| - 1;
      SortInOrder(items[..n]);
      InsertKeepsOrder(Sort(items[..n]), items[n]);
      assert items == items[..n] + [items[n]];
    }
  }

  lemma SortedByOrder(items: seq<NegItem>)
    ensures WeaklySorted(Sort(items)) && multiset(Sort(items)) == multiset(items)
  {
    SortInOrder(items);
    WeaklySortedPairs(Sort(items));
  }

  predicate Shaped(x: NegItem) {
    |x.id| == ID_SIZE && x.timestamp != INFINITY
  }

  lemma SortKeepsShape(items: seq<NegItem>)
    requires forall i :: 0 <= i < |items| ==> Shaped(items[i])
    ensures |Sort(items)| == |items|
    ensures forall i :: 0 <= i < |Sort(items)| ==> Shaped(Sort(items)[i])
  {
    SortedByOrder(items);
    assert |Sort(items)| == |multiset(Sort(items))| == |multiset(items)| == |items|;
    forall i | 0 <= i < |Sort(items)|
      ensures Shaped(Sort(items)[i])
    {
      assert Sort(items)[i] in multiset(Sort(items));
    }
  }

  predicate TwinAt(items: seq<NegItem>, i: nat)
    requires 1 <= i < |items|
  {
    CompareItems(items[i - 1], items[i]) == 0
  }

  predicate HasTwin(items: seq<NegItem>) {
    exists i :: 1 <= i < |items| && TwinAt(items, i)
  }

  lemma NoTwinIsStrict(items: seq<NegItem>)
    requires WeaklySorted(items) && !HasTwin(items)
    ensures Sorted(items)
  {
    WeaklySortedPairs(items);
    forall i, j | 0 <= i < j < |items|
      ensures Less(items[i], items[j])
    {
      LessTotal(items[i], items[i + 1]);
      CompareBytesTotal(items[i].id, items[i + 1].id);
      assert !TwinAt(items, i + 1);
      assert Less(items[i], items[i + 1]);
      if i + 1 < j {
        LessTransitive(items[i], items[i + 1], items[j]);
      }
    }
    SortedPairs(items);
  }

  /** Compares every item with its neighbour. */
  method FindTwin(items: seq<NegItem>) returns (twin: bool)
    ensures twin <==> HasTwin(items)
  {
    var i := 1;
    while i < |items|
      invariant i >= 1 && forall k :: 1 <= k < i && k < |items| ==> !TwinAt(items, k)
    {
      var c := CompareItemsMethod(items[i - 1], items[i]);
      if c == 0 {
        assert TwinAt(items, i);
        return true;
      }
      i := i + 1;
    }
    return false;
  }

  class NegentropyStorageVector {
    const hash: Hash
    var items: seq<NegItem>
    var isSealed: bool

    ghost predicate Valid()
      reads this
    {
      && (forall i :: 0 <= i < |items| ==> Shaped(items[i]))
      && |items| <= MAX_ARRAY_LENGTH
      && (isSealed ==> WeaklySorted(items))
    }

    constructor (hash: Hash)
      ensures Valid() && items == [] && !isSealed && this.hash == hash
    {
      this.hash := hash;
      items, isSealed := [], false;
    }

    method Insert(timestamp: int, id: Bytes) returns (r: Result<(), NegError>)
      requires Valid()
      modifies this
      ensures Valid() && isSealed == old(isSealed)
      ensures r == if isSealed then Err(AlreadySealed)
                   else if timestamp == INFINITY then Err(ReservedInfinity)
                   else if |id| != ID_SIZE then Err(InvalidId)
                   else if |old(items)| == MAX_ARRAY_LENGTH then Err(ArrayFull)
                   else Ok(())
      ensures items == if r.Ok? then old(items) + [NegItem(timestamp, id)] else old(items)
    {
      if isSealed {
        return Err(AlreadySealed);
      }
      if timestamp == INFINITY {
        return Err(ReservedInfinity);
      }
      if |id| != ID_SIZE {
        return Err(InvalidId);
      }
      if |items| == MAX_ARRAY_LENGTH {
        return Err(ArrayFull);
      }
      items := items + [NegItem(timestamp, id)];
      r := Ok(());
    }

    /** Sorts and freezes; a duplicate fails the call after the vector is already sealed. */
    method Seal() returns (r: Result<(), NegError>)
      requires Valid()
      modifies this
      ensures Valid()
      ensures old(isSealed) ==> r == Err(AlreadySealed) && isSealed && items == old(items)
      ensures !old(isSealed) ==> isSealed && multiset(items) == multiset(old(items))
      ensures !old(isSealed) ==> r == if HasTwin(items) then Err(DuplicateItem) else Ok(())
      ensures r.Ok? ==> Sorted(items)
    {
      if isSealed {
        return Err(AlreadySealed);
      }
      isSealed := true;
      SortedByOrder(items);
      SortKeepsShape(items);
      items := Sort(items);
      var twin := FindTwin(items);
      if twin {
        return Err(DuplicateItem);
      }
      NoTwinIsStrict(items);
      r := Ok(());
    }

    function Size(): Result<nat, NegError>
      reads this
    {
      if isSealed then Ok(|items|) else Err(NotSealed)
    }

    function CheckRange(begin: nat, end: nat): Result<(), NegError>
      reads this
    {
      if !isSealed then Err(NotSealed)
      else if begin > end || end > |items| then Err(BadRange)
      else Ok(())
    }

    /** Binary search for the first item not below the bound. */
    method FindLowerBound(begin: nat, end: nat, bound: Bound) returns (r: Result<nat, NegError>)
      requires Valid()
      ensures CheckRange(begin, end).Err? ==> r == Err(CheckRange(begin, end).error)
      ensures CheckRange(begin, end).Ok? ==> r == Ok(LowerBound(items[..end], begin, bound))
    {
      var _ :- CheckRange(begin, end);
      WeaklySortedPairs(items);
      var first := begin;
      var count := end - begin;
      while count > 0
        invariant begin <= first <= first + count <= end
        invariant forall i :: begin <= i < first ==> Less(items[i], bound)
        invariant forall i :: first + count <= i < end ==> !Less(items[i], bound)
      {
        var step := count / 2;
        var it := first + step;
        var c := CompareItemsMethod(items[it], bound);
        if c < 0 {
          forall i | begin <= i <= it
            ensures Less(items[i], bound)
          {
            if i < it {
              LessUpward(items[i], items[it], bound);
            }
          }
          first := it + 1;
          count := count - (step + 1);
        } else {
          forall i | it <= i < end
            ensures !Less(items[i], bound)
          {
            if i > it && Less(items[i], bound) {
              LessUpward(items[it], items[i], bound);
            }
          }
          count := step;
        }
      }
      LowerBoundUnique(items[..end], begin, bound, first);
      r := Ok(first);
    }

    method FingerprintRange(begin: nat, end: nat) returns (r: Result<Bytes, NegError>)
      requires Valid()
      ensures CheckRange(begin, end).Err? ==> r == Err(CheckRange(begin, end).error)
      ensures CheckRange(begin, end).Ok? ==>
                r == Ok(FingerprintOf(hash, Ids(items[begin..end])))
    {
      hide Value, Sum, Power256, Spell, WeaklySorted;
      var acc := new Accumulator();
      var _ :- CheckRange(begin, end);
      ghost var all, m := Ids(items[begin..end]), Power256(acc.buf.Length);
      SumNothing(ID_SIZE);
      assert all[..0] == [];
      for i := begin to end
        invariant fresh(acc.buf) && acc.Valid()
        invariant Value(acc.buf[..]) == Sum(all[..i - begin]) % m
      {
        ghost var v := Value(acc.buf[..]);
        acc.Add(items[i].id);
        SumStep(all, i - begin, m, v, Value(acc.buf[..]));
      }
      assert all[..end - begin] == all;
      SpellSum(acc.buf[..], Sum(all), ID_SIZE);
      r := acc.Fingerprint(hash, end - begin);
    }
  }

  lemma SumNothing(n: nat)
    ensures Sum([]) % Power256(n) == 0
  {
    hide Power256;
    var m := Power256(n);
    assert 0 % m == 0;
  }

  lemma SumStep(ids: seq<Bytes>, k: nat, m: nat, v: nat, v': nat)
    requires k < |ids| && m > 0
    requires v == Sum(ids[..k]) % m && v' == (v + Value(ids[k])) % m
    ensures v' == Sum(ids[..k + 1]) % m
  {
    assert ids[..k + 1][..k] == ids[..k];
    RemainderAdds(Sum(ids[..k]), Value(ids[k]), m);
  }

  lemma SpellSum(b: Bytes, sum: nat, n: nat)
    requires |b| == n && Value(b) == sum % Power256(n)
    ensures b == Spell(sum, n)
  {
    SpellWraps(sum, n);
    SpellValue(b);
  }

  lemma LessUpward(a: NegItem, b: NegItem, bound: NegItem)
    requires !Less(b, a) && Less(b, bound)
    ensures Less(a, bound)
  {
    LessTotal(a, b);
    if a != b {
      LessTotal(b, bound);
      LessTransitive(a, b, bound);
    }
  }
}
