/**
 * The padding of NIP-44 plaintexts (src/nips/nip44.ts): the padded length, the two forms of the length prefix,
 * and the way back.
 */
module Padding {
  import opened Results
  import opened Arithmetic
  import opened Octets

  datatype PadError = BadLength | BadSize | BadPadding | TooShort

  const MIN_PLAINTEXT := 1
  const MAX_PLAINTEXT := 0xffff_ffff
  const EXTENDED := 0x1_0000
  const MAX_SAFE := 0x1f_ffff_ffff_ffff

  // ---- the padded length ----

  function Pow2(k: nat): nat {
    if k == 0 then 1 else 2 * Pow2(k - 1)
  }

  /** The whole part of the binary logarithm. */
  function Log2(n: nat): nat
    requires n > 0
  {
    if n == 1 then 0 else 1 + Log2(n / 2)
  }

  function NextPower(len: nat): nat
    requires len > 1
  {
    Pow2(Log2(len - 1) + 1)
  }

  function Chunk(len: nat): nat
    requires len > 1
  {
    if NextPower(len) <= 256 then 32 else NextPower(len) / 8
  }

  lemma {:induction false} Log2Bounds(n: nat)
    requires n > 0
    ensures Pow2(Log2(n)) <= n < Pow2(Log2(n) + 1)
  {
    if n > 1 {
      Log2Bounds(n / 2);
    }
  }

  lemma {:induction false} Pow2Grows(i: nat, j: nat)
    requires i <= j
    ensures Pow2(i) <= Pow2(j) && 0 < Pow2(i)
    decreases j
  {
    if i < j {
      Pow2Grows(i, j - 1);
    } else if i > 0 {
      Pow2Grows(i - 1, i - 1);
    }
  }

  lemma Log2Unique(n: nat, k: nat)
    requires n > 0 && Pow2(k) <= n < Pow2(k + 1)
    ensures Log2(n) == k
  {
    Log2Bounds(n);
    if Log2(n) < k {
      Pow2Grows(Log2(n) + 1, k);
    } else if k < Log2(n) {
      Pow2Grows(k + 1, Log2(n));
    }
  }

  /** The next power is a small multiple of the chunk, and not twice the length. */
  lemma ChunkDivides(len: nat) returns (c: nat)
    requires len > 32
    ensures 0 < Chunk(len) && 0 < c <= 8 && NextPower(len) == Chunk(len) * c
    ensures NextPower(len) < 2 * len && len <= NextPower(len)
    ensures len > 256 ==> NextPower(len) == 8 * Chunk(len)
  {
    var k := Log2(len - 1);
    Log2Bounds(len - 1);
    assert Pow2(6) == 64 && Pow2(7) == 128 && Pow2(8) == 256 by {
      assert Pow2(3) == 8;
      assert Pow2(6) == 8 * Pow2(3);
    }
    assert Pow2(5) == 32;
    if k < 5 {
      Pow2Grows(k + 1, 5);
    }
    if k > 7 {
      Pow2Grows(9, k + 1);
      assert Pow2(9) == 512;
      assert Pow2(k + 1) == 8 * Pow2(k - 2);
      c := 8;
    } else {
      c := if k == 5 then 2 else if k == 6 then 4 else 8;
    }
  }

  /** calcPaddedLen, on the lengths for which it does not throw. */
  function Padded(len: nat): nat
    requires len > 0
  {
    if len <= 32 then 32
    else
      var c := Chunk(len);
      if c == 0 then 0 else c * ((len - 1) / c + 1)
  }

  function CalcPaddedLen(len: int): Result<nat, PadError> {
    if len < 1 || MAX_SAFE < len then Err(BadLength) else Ok(Padded(len))
  }

  /** The least multiple of `m` that is not below `len`. */
  lemma RoundUp(len: nat, m: nat, c: nat)
    requires 0 < len <= m * c && 0 < m
    ensures len <= m * ((len - 1) / m + 1) < len + m
    ensures m * ((len - 1) / m + 1) <= m * c
  {
    var q := (len - 1) / m;
    assert m * (q + 1) == m * q + m;
    if q < c {
      MultipleGrows(m, q + 1, c);
    } else {
      MultipleGrows(m, c, q);
    }
  }

  lemma PaddedFits(len: nat)
    requires len > 0
    ensures len <= Padded(len) && 32 <= Padded(len)
    ensures len > 32 ==> Padded(len) - len < Chunk(len) && Padded(len) <= NextPower(len)
  {
    hide Chunk, NextPower;
    if len > 32 {
      var c := ChunkDivides(len);
      RoundUp(len, Chunk(len), c);
    }
  }

  lemma MultipleGrows(m: nat, a: nat, b: nat)
    requires a <= b
    ensures m * a <= m * b
  {
    assert m * b == m * a + m * (b - a);
  }

  /** Above 256 bytes the padding is less than a quarter of the length. */
  lemma PaddedOverhead(len: nat)
    requires len > 256
    ensures 4 * (Padded(len) - len) < len
  {
    PaddedFits(len);
    var c := ChunkDivides(len);
  }

  /** A longer plaintext is not padded to less. */
  lemma PaddedMonotone(a: nat, b: nat)
    requires 0 < a <= b
    ensures Padded(a) <= Padded(b)
  {
    hide Log2, Pow2, Chunk, NextPower;
    PaddedFits(b);
    if a > 32 {
      LogGrows(a - 1, b - 1);
      if Log2(a - 1) == Log2(b - 1) {
        MonotoneWithin(a, b);
      } else {
        MonotoneAcross(a, b);
      }
    }
  }

  lemma LogGrows(a: nat, b: nat)
    requires 0 < a <= b
    ensures Log2(a) <= Log2(b)
  {
    Log2Bounds(a);
    Log2Bounds(b);
    if Log2(b) < Log2(a) {
      Pow2Grows(Log2(b) + 1, Log2(a));
    }
  }

  /** Between two powers of two the chunks are equal. */
  lemma MonotoneWithin(a: nat, b: nat)
    requires 32 < a <= b && Log2(a - 1) == Log2(b - 1)
    ensures Padded(a) <= Padded(b)
  {
    hide Log2, Pow2;
    var c := ChunkDivides(a);
    QuotientGrows(a - 1, b - 1, Chunk(a));
    MultipleGrows(Chunk(a), (a - 1) / Chunk(a) + 1, (b - 1) / Chunk(a) + 1);
  }

  /** Beyond the next power of two, everything is longer. */
  lemma MonotoneAcross(a: nat, b: nat)
    requires 32 < a <= b && Log2(a - 1) < Log2(b - 1)
    ensures Padded(a) <= Padded(b)
  {
    hide Log2, Padded;
    PaddedFits(a);
    PaddedFits(b);
    Log2Bounds(b - 1);
    Pow2Grows(Log2(a - 1) + 1, Log2(b - 1));
  }

  lemma QuotientGrows(a: nat, b: nat, m: nat)
    requires a <= b && m > 0
    ensures a / m <= b / m
  {
    if b / m < a / m {
      QuotientOrder(b / m, b % m, a / m, a % m, m);
    }
  }

  /** The least multiple of the unit that is not below the length. */
  predicate LeastMultiple(p: nat, unit: nat, len: nat) {
    unit > 0 && p % unit == 0 && len <= p < len + unit
  }

  lemma ChunksUp(len: nat, m: nat)
    requires len > 0 && m > 0
    ensures LeastMultiple(m * ((len - 1) / m + 1), m, len)
  {
    var q := (len - 1) / m;
    assert m * (q + 1) == m * q + m;
    RemainderUnique(m * (q + 1), q + 1, 0, m);
  }

  /** Up to 256 bytes the length is rounded up to a multiple of 32. */
  lemma PaddedShort(len: nat)
    requires 0 < len <= 256
    ensures LeastMultiple(Padded(len), 32, len)
  {
    if len > 32 {
      Log2Bounds(len - 1);
      assert Pow2(3) == 8 && Pow2(6) == 8 * Pow2(3) && Pow2(8) == 4 * Pow2(6);
      if Log2(len - 1) >= 8 {
        Pow2Grows(8, Log2(len - 1));
      }
      Pow2Grows(Log2(len - 1) + 1, 8);
      assert Chunk(len) == 32;
      ChunksUp(len, 32);
    }
  }

  /** Above that, up to a multiple of a quarter of the power of two below it: so in steps of 64, then 128, and so on. */
  lemma PaddedLong(len: nat, k: nat)
    requires 8 <= k && Pow2(k) < len <= Pow2(k + 1)
    ensures LeastMultiple(Padded(len), Pow2(k - 2), len) && 4 * Pow2(k - 2) == Pow2(k) && Pow2(8) == 256
  {
    assert Pow2(3) == 8 && Pow2(6) == 8 * Pow2(3) && Pow2(8) == 4 * Pow2(6);
    Pow2Grows(8, k);
    Log2Unique(len - 1, k);
    Pow2Grows(0, k - 2);
    assert Pow2(k + 1) == 8 * Pow2(k - 2) && Chunk(len) == Pow2(k - 2);
    ChunksUp(len, Pow2(k - 2));
  }

  /** A padded length is padded to itself. */
  lemma PaddedIdempotent(len: nat)
    requires len > 0
    ensures 0 < Padded(len) && Padded(Padded(len)) == Padded(len)
  {
    PaddedFits(len);
    if len > 32 {
      var c := ChunkDivides(len);
      var chunk, p := Chunk(len), Padded(len);
      Log2Bounds(len - 1);
      Log2Unique(p - 1, Log2(len - 1));
      assert Chunk(p) == chunk;
      var q := (len - 1) / chunk;
      assert p - 1 == q * chunk + (chunk - 1);
      RemainderUnique(p - 1, q, chunk - 1, chunk);
    }
  }

  /** So the padded length is the least one that is not below the length: it tells no more than that. */
  lemma PaddedLeast(len: nat, other: nat)
    requires len > 0 && other > 0 && len <= Padded(other)
    ensures Padded(len) <= Padded(other)
  {
    PaddedIdempotent(other);
    PaddedMonotone(len, Padded(other));
  }

  // ---- bytes ----

  function U16(n: nat): Bytes
    requires n < 0x1_0000
  {
    [(n / 0x100) as Byte, (n % 0x100) as Byte]
  }

  function U32(n: nat): Bytes
    requires n < 0x1_0000_0000
  {
    U16(n / 0x1_0000) + U16(n % 0x1_0000)
  }

  function GetU16(b: Bytes, at: nat): nat
    requires at + 2 <= |b|
  {
    b[at] as nat * 0x100 + b[at + 1] as nat
  }

  function GetU32(b: Bytes, at: nat): nat
    requires at + 4 <= |b|
  {
    GetU16(b, at) * 0x1_0000 + GetU16(b, at + 2)
  }

  function Zeros(n: nat): Bytes {
    seq(n, i => 0)
  }

  /** The length prefix: two bytes, or two zeros and four bytes. */
  function Prefix(n: nat): Bytes
    requires n <= MAX_PLAINTEXT
  {
    if n >= EXTENDED then [0, 0] + U32(n) else U16(n)
  }

  predicate GoodSize(n: int) {
    MIN_PLAINTEXT <= n <= MAX_PLAINTEXT
  }

  /** pad, on the bytes of the plaintext. */
  function Pad(plain: Bytes): Result<Bytes, PadError> {
    if !GoodSize(|plain|) then Err(BadSize)
    else
      PaddedFits(|plain|);
      Ok(Prefix(|plain|) + plain + Zeros(Padded(|plain|) - |plain|))
  }

  function Slice(b: Bytes, from: nat, to: nat): Bytes
    requires from <= to
  {
    if |b| <= from then [] else if |b| <= to then b[from..] else b[from..to]
  }

  /** unpad, to the bytes of the plaintext. */
  function Unpad(padded: Bytes): Result<Bytes, PadError> {
    if |padded| < 2 then Err(TooShort)
    else
      var firstTwo := GetU16(padded, 0);
      if firstTwo == 0 && |padded| < 6 then Err(TooShort)
      else if firstTwo == 0 && GetU32(padded, 2) < EXTENDED then Err(BadPadding)
      else
        var n, at := if firstTwo == 0 then GetU32(padded, 2) else firstTwo, if firstTwo == 0 then 6 else 2;
        var plain, length := Slice(padded, at, at + n), CalcPaddedLen(n);
        if !GoodSize(n) || |plain| != n || length.Err? || |padded| != at + length.value then Err(BadPadding)
        else Ok(plain)
  }

  lemma U16RoundTrip(n: nat, b: Bytes, at: nat)
    requires n < 0x1_0000 && at + 2 <= |b|
    ensures GetU16(b, at) == n <==> b[at..at + 2] == U16(n)
  {
    assert b[at..at + 2] == [b[at], b[at + 1]];
    if GetU16(b, at) == n {
      RemainderUnique(n, b[at] as nat, b[at + 1] as nat, 0x100);
    }
    if b[at..at + 2] == U16(n) {
      assert b[at] == U16(n)[0] && b[at + 1] == U16(n)[1];
    }
  }

  lemma U32RoundTrip(n: nat, b: Bytes, at: nat)
    requires n < 0x1_0000_0000 && at + 4 <= |b|
    ensures GetU32(b, at) == n <==> b[at..at + 4] == U32(n)
  {
    var high, low := n / 0x1_0000, n % 0x1_0000;
    U16RoundTrip(high, b, at);
    U16RoundTrip(low, b, at + 2);
    assert b[at..at + 4] == b[at..at + 2] + b[at + 2..at + 4];
    assert b[at..at + 4][..2] == b[at..at + 2] && b[at..at + 4][2..] == b[at + 2..at + 4];
    if GetU32(b, at) == n {
      RemainderUnique(n, GetU16(b, at), GetU16(b, at + 2), 0x1_0000);
    }
    if b[at..at + 4] == U32(n) {
      assert U32(n)[..2] == U16(high) && U32(n)[2..] == U16(low);
    }
  }

  /** What a padded plaintext says of its length. */
  lemma PrefixReads(padded: Bytes, n: nat)
    requires GoodSize(n) && |Prefix(n)| <= |padded|
    ensures Prefix(n) <= padded <==>
      if n >= EXTENDED then |padded| >= 6 && GetU16(padded, 0) == 0 && GetU32(padded, 2) == n
      else GetU16(padded, 0) == n
  {
    if n >= EXTENDED {
      U16RoundTrip(0, padded, 0);
      U32RoundTrip(n, padded, 2);
      assert U16(0) == [0, 0];
      assert padded[..6] == padded[0..2] + padded[2..6];
      assert Prefix(n) <= padded <==> padded[..6] == Prefix(n);
      assert Prefix(n)[..2] == [0, 0] && Prefix(n)[2..] == U32(n);
    } else {
      U16RoundTrip(n, padded, 0);
      assert Prefix(n) <= padded <==> padded[..2] == Prefix(n);
    }
  }

  /**
   * unpad gives a plaintext back if and only if the payload is that plaintext padded, whatever the bytes of the
   * padding are: they are not looked at.
   */
  lemma UnpadExactly(padded: Bytes, plain: Bytes)
    ensures Unpad(padded) == Ok(plain) <==>
      && GoodSize(|plain|)
      && |padded| == |Prefix(|plain|)| + Padded(|plain|)
      && Prefix(|plain|) + plain <= padded
  {
    var n := |plain|;
    if GoodSize(n) && |padded| == |Prefix(n)| + Padded(n) {
      var at := |Prefix(n)|;
      PaddedFits(n);
      PrefixReads(padded, n);
      HeadSplits(padded, Prefix(n), plain);
      hide Padded, Prefix, GetU16, GetU32;
    }
  }

  lemma HeadSplits(b: Bytes, head: Bytes, tail: Bytes)
    requires |head| + |tail| <= |b|
    ensures head + tail <= b <==> head <= b && Slice(b, |head|, |head| + |tail|) == tail
  {
    if head + tail <= b {
      assert b[..|head|] == (head + tail)[..|head|];
      assert b[|head|..|head| + |tail|] == (head + tail)[|head|..];
    } else if head <= b {
      assert b[..|head| + |tail|] == b[..|head|] + b[|head|..|head| + |tail|];
    }
  }

  /** unpad undoes pad for every plaintext that pad takes, in both forms of the prefix. */
  lemma PadRoundTrip(plain: Bytes)
    ensures GoodSize(|plain|) <==> Pad(plain).Ok?
    ensures GoodSize(|plain|) ==> Unpad(Pad(plain).value) == Ok(plain)
  {
    if GoodSize(|plain|) {
      PaddedFits(|plain|);
      UnpadExactly(Pad(plain).value, plain);
    }
  }

  /**
   * Where the bytes of a padded plaintext are: its length, most significant byte first, in two bytes or behind two
   * zeros in four, then the plaintext, then zeros.
   */
  lemma PadLayout(plain: Bytes)
    requires GoodSize(|plain|)
    ensures
      && var b, n := Pad(plain).value, |plain|;
      && var at := if n < 65536 then 2 else 6;
      && |b| == at + Padded(n) && n <= Padded(n)
      && (n < 65536 ==> b[0] as int * 256 + b[1] as int == n)
      && (n >= 65536 ==>
            && b[0] == b[1] == 0
            && b[2] as int * 16777216 + b[3] as int * 65536 + b[4] as int * 256 + b[5] as int == n)
      && b[at..at + n] == plain
      && forall i :: at + n <= i < |b| ==> b[i] == 0
  {
    hide Padded;
    PaddedFits(|plain|);
    var b, n := Pad(plain).value, |plain|;
    if n >= EXTENDED {
      var high, low := n / 0x1_0000, n % 0x1_0000;
      assert b[2..6] == U32(n) && U32(n)[..2] == U16(high) && U32(n)[2..] == U16(low);
      assert b[2] == U16(high)[0] && b[3] == U16(high)[1] && b[4] == U16(low)[0] && b[5] == U16(low)[1];
      assert high == b[2] as int * 256 + b[3] as int && low == b[4] as int * 256 + b[5] as int;
    } else {
      assert b[0] == U16(n)[0] && b[1] == U16(n)[1];
    }
  }

  lemma OneMultiple(p: nat, q: nat, unit: nat, len: nat)
    requires LeastMultiple(p, unit, len) && LeastMultiple(q, unit, len)
    ensures p == q
  {
    QuotientUnique(p / unit, q - len, q / unit, p - len, unit);
  }

  lemma ShortIs(len: nat, p: nat)
    requires 0 < len <= 256 && LeastMultiple(p, 32, len)
    ensures Padded(len) == p
  {
    hide Padded;
    PaddedShort(len);
    OneMultiple(Padded(len), p, 32, len);
  }

  lemma LongIs(len: nat, k: nat, p: nat)
    requires 8 <= k && Pow2(k) < len <= Pow2(k + 1) && LeastMultiple(p, Pow2(k - 2), len)
    ensures Padded(len) == p
  {
    hide Padded, Pow2;
    PaddedLong(len, k);
    OneMultiple(Padded(len), p, Pow2(k - 2), len);
  }

  /** Lengths from the test vectors of NIP-44. */
  lemma PaddedVectors()
    ensures Padded(16) == 32 && Padded(32) == 32 && Padded(33) == 64 && Padded(64) == 64 && Padded(65) == 96
    ensures Padded(100) == 128 && Padded(111) == 128 && Padded(200) == 224 && Padded(250) == 256
    ensures Padded(320) == 320 && Padded(383) == 384 && Padded(400) == 448 && Padded(500) == 512
    ensures Padded(515) == 640 && Padded(700) == 768 && Padded(900) == 1024 && Padded(65536) == 65536
  {
    hide Padded;
    ShortIs(16, 32);
    ShortIs(32, 32);
    ShortIs(33, 64);
    ShortIs(64, 64);
    ShortIs(65, 96);
    ShortIs(100, 128);
    ShortIs(111, 128);
    ShortIs(200, 224);
    ShortIs(250, 256);
    PowersUp();
    hide Pow2;
    LongIs(320, 8, 320);
    LongIs(383, 8, 384);
    LongIs(400, 8, 448);
    LongIs(500, 8, 512);
    LongIs(515, 9, 640);
    LongIs(700, 9, 768);
    LongIs(900, 9, 1024);
    LongIs(65536, 15, 65536);
  }

  lemma PowersUp()
    ensures Pow2(6) == 64 && Pow2(7) == 128 && Pow2(8) == 256 && Pow2(9) == 512 && Pow2(10) == 1024
    ensures Pow2(13) == 8192 && Pow2(15) == 32768 && Pow2(16) == 65536
  {
    assert Pow2(3) == 8 && Pow2(6) == 8 * Pow2(3);
    assert Pow2(9) == 8 * Pow2(6) && Pow2(12) == 8 * Pow2(9) && Pow2(15) == 8 * Pow2(12);
  }

  // ---- the buffers ----

  /** DataView.setUint16, most significant byte first. */
  method SetUint16(a: array<Byte>, at: nat, num: nat)
    requires at + 2 <= a.Length && num < 0x1_0000
    modifies a
    ensures a[..] == old(a[..at]) + U16(num) + old(a[at + 2..])
  {
    a[at] := (num / 0x100) as Byte;
    a[at + 1] := (num % 0x100) as Byte;
  }

  /** DataView.setUint32, most significant byte first. */
  method SetUint32(a: array<Byte>, at: nat, num: nat)
    requires at + 4 <= a.Length && num < 0x1_0000_0000
    modifies a
    ensures a[..] == old(a[..at]) + U32(num) + old(a[at + 4..])
  {
    SetUint16(a, at, num / 0x1_0000);
    assert a[..at] == old(a[..at]) && a[at..at + 2] == U16(num / 0x1_0000) && a[at + 4..] == old(a[at + 4..]);
    SetUint16(a, at + 2, num % 0x1_0000);
  }

  method WriteU16BE(num: int) returns (r: Result<Bytes, PadError>)
    ensures r == if MIN_PLAINTEXT <= num <= 0xffff then Ok(U16(num)) else Err(BadSize)
  {
    if num < MIN_PLAINTEXT || num > 0xffff {
      return Err(BadSize);
    }
    var a := new Byte[2];
    SetUint16(a, 0, num);
    assert a[..] == U16(num);
    r := Ok(a[..]);
  }

  method WriteU32BE(num: int) returns (r: Result<Bytes, PadError>)
    ensures r == if EXTENDED <= num <= MAX_PLAINTEXT then Ok(U32(num)) else Err(BadSize)
  {
    if num < EXTENDED || num > MAX_PLAINTEXT {
      return Err(BadSize);
    }
    var a := new Byte[4];
    SetUint32(a, 0, num);
    assert a[..] == U32(num);
    r := Ok(a[..]);
  }

  /** pad. */
  method PadBytes(plain: Bytes) returns (r: Result<Bytes, PadError>)
    ensures r == Pad(plain)
    ensures r.Ok? ==> Unpad(r.value) == Ok(plain)
  {
    PadRoundTrip(plain);
    hide Unpad;
    var n := |plain|;
    if n < MIN_PLAINTEXT || n > MAX_PLAINTEXT {
      return Err(BadSize);
    }
    PaddedFits(n);
    var prefix: Bytes;
    if n >= EXTENDED {
      var four := WriteU32BE(n);
      prefix := [0, 0] + four.value;
    } else {
      var two := WriteU16BE(n);
      prefix := two.value;
    }
    r := Ok(prefix + plain + Zeros(Padded(n) - n));
  }
}
