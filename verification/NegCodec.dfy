/**
 * The wire form of NIP-77 (src/nips/nip77.ts): the byte buffer, variable-length integers,
 * delta-coded bounds and ranges. Each buffer method is proved against a function on byte
 * sequences; the functions are then proved to round-trip.
 */
module NegCodec {
  import opened Results
  import opened Sequences
  import opened NegTypes
  import opened Octets

  // ---- the buffer ----

  /** Append target or read cursor over a byte array that grows on demand. */
  /** Bytes are written behind `end`, and nothing before it changes. */
  lemma Behind(was: Bytes, now: Bytes, pos: nat, end: nat, bytes: Bytes)
    requires pos <= end && end + |bytes| <= |now| == |was|
    requires (forall i :: 0 <= i < end ==> now[i] == was[i]) && forall i :: 0 <= i < |bytes| ==> now[end + i] == bytes[i]
    ensures now[pos..end + |bytes|] == was[pos..end] + bytes
  {
  }

  class EncodedBuf {
    var raw: array<Byte>
    var pos: nat
    var end: nat

    ghost predicate Valid()
      reads this, raw
    {
      pos <= end <= raw.Length
    }

    /** The bytes ahead of the read position: those written, or those still to be read. */
    function Unwrap(): Bytes
      requires Valid()
      reads this, raw
    {
      raw[pos..end]
    }

    function Length(): nat
      requires Valid()
      reads this, raw
    {
      end - pos
    }

    constructor Empty()
      ensures Valid() && fresh(raw) && Unwrap() == []
    {
      raw := new Byte[512](_ => 0);
      pos, end := 0, 0;
    }

    constructor Of(buffer: Bytes)
      ensures Valid() && fresh(raw) && Unwrap() == buffer
    {
      raw := new Byte[|buffer|](i requires 0 <= i < |buffer| => buffer[i]);
      pos, end := 0, |buffer|;
    }

    /** Moves to a larger array; the contents stay. */
    method Grow(size: nat)
      requires Valid() && raw.Length <= size
      modifies this
      ensures Valid() && fresh(raw) && raw.Length == size
      ensures pos == old(pos) && end == old(end) && Unwrap() == old(Unwrap())
    {
      var next := new Byte[size](_ => 0);
      forall i | 0 <= i < raw.Length {
        next[i] := raw[i];
      }
      assert next[pos..end] == raw[pos..end];
      raw := next;
    }

    /** Appends, moving to an array of at least twice the capacity when the bytes do not fit. */
    method Extend(bytes: Bytes)
      requires Valid()
      modifies this, raw
      ensures Valid() && (raw == old(raw) || fresh(raw))
      ensures pos == old(pos) && Unwrap() == old(Unwrap()) + bytes
    {
      var targetSize := |bytes| + end;
      if raw.Length < targetSize {
        Grow(if raw.Length * 2 > targetSize then raw.Length * 2 else targetSize);
      }
      Set(bytes);
      end := end + |bytes|;
    }

    /** Writes the bytes behind the end without moving it. */
    method Set(bytes: Bytes)
      requires Valid() && end + |bytes| <= raw.Length
      modifies raw
      ensures raw[pos..end + |bytes|] == old(Unwrap()) + bytes
    {
      ghost var was := raw[..];
      forall i | end <= i < end + |bytes| {
        raw[i] := bytes[i - end];
      }
      Behind(was, raw[..], pos, end, bytes);
    }

    method Read() returns (r: Result<Byte, NegError>)
      requires Valid()
      modifies this
      ensures Valid() && raw == old(raw)
      ensures old(Unwrap()) == [] ==> r == Err(ParseEndsPrematurely)
      ensures old(Unwrap()) != [] ==> r == Ok(old(Unwrap())[0]) && Unwrap() == old(Unwrap())[1..]
    {
      if Length() == 0 {
        return Err(ParseEndsPrematurely);
      }
      r := Ok(raw[pos]);
      pos := pos + 1;
    }

    method ReadN(n: nat) returns (r: Result<Bytes, NegError>)
      requires Valid()
      modifies this
      ensures Valid() && raw == old(raw)
      ensures |old(Unwrap())| < n ==> r == Err(ParseEndsPrematurely)
      ensures n <= |old(Unwrap())| ==>
                r == Ok(old(Unwrap())[..n]) && Unwrap() == old(Unwrap())[n..]
    {
      if Length() < n {
        return Err(ParseEndsPrematurely);
      }
      r := Ok(raw[pos..pos + n]);
      assert raw[pos..pos + n] == Unwrap()[..n] && raw[pos + n..end] == Unwrap()[n..];
      pos := pos + n;
    }
  }

  // ---- variable-length integers ----

  /** Base-128 digits of n, most significant first, all with the continuation bit. */
  function Continued(n: nat): Bytes {
    if n == 0 then [] else Continued(n / 128) + [(n % 128 + 128) as Byte]
  }

  function VarInt(n: nat): Bytes {
    Continued(n / 128) + [(n % 128) as Byte]
  }

  function EncodeVarInt(n: int): Result<Bytes, NegError> {
    if 0 <= n <= MAX_SAFE_INTEGER then Ok(VarInt(n)) else Err(VarintUnsafe)
  }

  /** The value of a varint that starts the bytes, given the digits already read, and the rest. */
  function DecodeVarInt(bytes: Bytes, acc: nat := 0): (r: Result<(int, Bytes), NegError>)
    ensures r.Ok? ==> 0 <= r.value.0 <= MAX_SAFE_INTEGER && |r.value.1| < |bytes|
  {
    if bytes == [] then Err(ParseEndsPrematurely)
    else
      var res := acc * 128 + bytes[0] as int % 128;
      if res > MAX_SAFE_INTEGER then Err(VarintTooLarge)
      else if bytes[0] < 128 then Ok((res, bytes[1..]))
      else DecodeVarInt(bytes[1..], res)
  }

  lemma {:induction false} DecodeContinued(n: nat, rest: Bytes)
    requires n <= MAX_SAFE_INTEGER
    ensures DecodeVarInt(Continued(n) + rest) == DecodeVarInt(rest, n)
  {
    if n == 0 {
      assert Continued(n) + rest == rest;
    } else {
      var last := [(n % 128 + 128) as Byte];
      assert Continued(n) + rest == Continued(n / 128) + (last + rest);
      DecodeContinued(n / 128, last + rest);
      assert (last + rest)[1..] == rest;
    }
  }

  /** Every safe integer survives encoding, whatever bytes follow it. */
  lemma VarIntRoundTrip(n: nat, rest: Bytes)
    requires n <= MAX_SAFE_INTEGER
    ensures DecodeVarInt(VarInt(n) + rest) == Ok((n, rest))
  {
    assert VarInt(n) + rest == Continued(n / 128) + ([(n % 128) as Byte] + rest);
    DecodeContinued(n / 128, [(n % 128) as Byte] + rest);
    assert ([(n % 128) as Byte] + rest)[1..] == rest;
  }

  /** The number that digits in base 128 spell, most significant first; the high bits of the bytes do not count. */
  function Base128(b: Bytes): nat {
    if b == [] then 0 else Base128(b[..|b| - 1]) * 128 + b[|b| - 1] as int % 128
  }

  lemma {:induction false} ContinuedSpells(n: nat)
    ensures Base128(Continued(n)) == n && forall i :: 0 <= i < |Continued(n)| ==> Continued(n)[i] >= 128
    ensures if n == 0 then Continued(n) == [] else Continued(n) != [] && Continued(n)[0] != 128
  {
    if n > 0 {
      ContinuedSpells(n / 128);
      assert Continued(n) == Continued(n / 128) + [(n % 128 + 128) as Byte];
      assert Continued(n)[..|Continued(n)| - 1] == Continued(n / 128);
    }
  }

  /** A varint spells its number in base 128, without a leading zero; the last byte alone has no high bit. */
  lemma VarIntSpells(n: nat)
    ensures
      && var b := VarInt(n);
      && |b| > 0 && Base128(b) == n && b[|b| - 1] < 128
      && (forall i :: 0 <= i < |b| - 1 ==> b[i] >= 128)
      && (|b| > 1 ==> b[0] != 128)
  {
    hide Continued;
    ContinuedSpells(n / 128);
    assert VarInt(n)[..|VarInt(n)| - 1] == Continued(n / 128);
  }

  /** The digits, least significant first, as the bytes sent: all but the last are marked. */
  function MarkedReverse(digits: seq<Byte>): Bytes
    requires forall i :: 0 <= i < |digits| ==> digits[i] < 128
  {
    seq(|digits|, i requires 0 <= i < |digits| =>
      var d := digits[|digits| - 1 - i];
      if i == |digits| - 1 then d else d + 128)
  }

  method EncodeVarIntMethod(n: int) returns (r: Result<Bytes, NegError>)
    ensures r == EncodeVarInt(n)
  {
    if n < 0 || n > MAX_SAFE_INTEGER {
      return Err(VarintUnsafe);
    }
    if n == 0 {
      assert Continued(0) + [0] == [0];
      return Ok([0]);
    }
    var digits: seq<Byte> := [];
    var value := n;
    while value != 0
      invariant value >= 0
      invariant forall i :: 0 <= i < |digits| ==> digits[i] < 128
      invariant digits == [] ==> value == n
      invariant digits != [] ==> Continued(value) + MarkedReverse(digits) == VarInt(n)
    {
      ghost var before, was := digits, value;
      digits := digits + [(value % 128) as Byte];
      value := value / 128;
      if before != [] {
        assert MarkedReverse(digits) == [(was % 128 + 128) as Byte] + MarkedReverse(before);
      } else {
        assert MarkedReverse(digits) == [(was % 128) as Byte];
      }
    }
    assert Continued(0) + MarkedReverse(digits) == MarkedReverse(digits);
    r := Ok(MarkedReverse(digits));
  }

  method DecodeVarIntMethod(buf: EncodedBuf) returns (r: Result<nat, NegError>)
    requires buf.Valid()
    modifies buf
    ensures buf.Valid() && buf.raw == old(buf.raw)
    ensures match DecodeVarInt(old(buf.Unwrap()))
            case Ok((n, rest)) => r == Ok(n) && buf.Unwrap() == rest
            case Err(e) => r == Err(e)
  {
    var res: nat := 0;
    while true
      invariant buf.Valid() && buf.raw == old(buf.raw)
      invariant DecodeVarInt(old(buf.Unwrap())) == DecodeVarInt(buf.Unwrap(), res)
      decreases |buf.Unwrap()|
    {
      var byte :- buf.Read();
      res := res * 128 + byte as int % 128;
      if res > MAX_SAFE_INTEGER {
        return Err(VarintTooLarge);
      }
      if byte < 128 {
        break;
      }
    }
    r := Ok(res);
  }

  // ---- bounds ----

  /** A bound as sent after a bound with timestamp `last`: timestamp delta plus one, 0 for infinity. */
  function EncodeBound(b: Bound, last: int): Result<Bytes, NegError> {
    var time :- EncodeVarInt(if b.timestamp == INFINITY then 0 else b.timestamp - last + 1);
    var size :- EncodeVarInt(|b.id|);
    Ok(time + size + b.id)
  }

  function DecodeTimestamp(bytes: Bytes, last: int): (r: Result<(int, Bytes), NegError>)
    ensures r.Ok? ==> |r.value.1| < |bytes|
  {
    var (n, rest) :- DecodeVarInt(bytes);
    Ok((if n == 0 || last == INFINITY then INFINITY else n - 1 + last, rest))
  }

  function DecodeBound(bytes: Bytes, last: int): (r: Result<(Bound, Bytes), NegError>)
    ensures r.Ok? ==> |r.value.1| < |bytes|
  {
    var (timestamp, rest) :- DecodeTimestamp(bytes, last);
    var (size, rest') :- DecodeVarInt(rest);
    if size > ID_SIZE then Err(BoundKeyTooLong)
    else if |rest'| < size then Err(ParseEndsPrematurely)
    else Ok((NegItem(timestamp, rest'[..size]), rest'[size..]))
  }

  /** What a bound must be to follow a bound with timestamp `last` on the wire. */
  predicate SendableBound(b: Bound, last: int) {
    && |b.id| <= ID_SIZE
    && (b.timestamp == INFINITY || (last != INFINITY && last <= b.timestamp < last + MAX_SAFE_INTEGER))
  }

  /** A bound that can be sent is read back exactly, with the reader's timestamp state mirrored. */
  lemma BoundRoundTrip(b: Bound, last: int, rest: Bytes)
    requires SendableBound(b, last)
    ensures EncodeBound(b, last).Ok?
    ensures DecodeBound(EncodeBound(b, last).value + rest, last) == Ok((b, rest))
  {
    var n := if b.timestamp == INFINITY then 0 else b.timestamp - last + 1;
    var tail := VarInt(|b.id|) + (b.id + rest);
    assert EncodeBound(b, last).value + rest == VarInt(n) + tail;
    VarIntRoundTrip(n, tail);
    VarIntRoundTrip(|b.id|, b.id + rest);
    assert (b.id + rest)[..|b.id|] == b.id && (b.id + rest)[|b.id|..] == rest;
  }

  // ---- ranges ----

  function Concat(ids: seq<Bytes>): Bytes {
    if ids == [] then [] else ids[0] + Concat(ids[1..])
  }

  lemma {:induction false} ConcatAppend(ids: seq<Bytes>, more: seq<Bytes>)
    ensures Concat(ids + more) == Concat(ids) + Concat(more)
  {
    if ids == [] {
      assert ids + more == more;
    } else {
      assert (ids + more)[1..] == ids[1..] + more;
      ConcatAppend(ids[1..], more);
    }
  }

  function EncodePayload(p: Payload): Result<Bytes, NegError> {
    match p
    case Skip => Ok(VarInt(0))
    case Fingerprint(digest) => Ok(VarInt(1) + digest)
    case IdList(ids) =>
      var size :- EncodeVarInt(|ids|);
      Ok(VarInt(2) + size + Concat(ids))
  }

  function EncodeRange(r: Range, last: int): Result<Bytes, NegError> {
    var bound :- EncodeBound(r.bound, last);
    var payload :- EncodePayload(r.payload);
    Ok(bound + payload)
  }

  /** Ids of 32 bytes lie one behind the other. */
  lemma {:induction false} ConcatAt(ids: seq<Bytes>, i: nat)
    requires i < |ids| && forall k :: 0 <= k < |ids| ==> |ids[k]| == ID_SIZE
    ensures |Concat(ids)| == ID_SIZE * |ids| && Concat(ids)[ID_SIZE * i..ID_SIZE * (i + 1)] == ids[i]
  {
    assert Concat(ids) == ids[0] + Concat(ids[1..]);
    if |ids| > 1 {
      ConcatAt(ids[1..], if i == 0 then 0 else i - 1);
    }
    if i > 0 {
      var rest := Concat(ids[1..]);
      assert Concat(ids)[ID_SIZE * i..ID_SIZE * (i + 1)] == rest[ID_SIZE * (i - 1)..ID_SIZE * i];
    }
  }

  /** The byte of the mode, and what follows it. */
  lemma PayloadBytes(p: Payload)
    requires EncodePayload(p).Ok?
    ensures EncodePayload(p).value ==
      match p
      case Skip => [0]
      case Fingerprint(digest) => [1] + digest
      case IdList(ids) => [2] + VarInt(|ids|) + Concat(ids)
  {
    assert Continued(0) + [0] == [0] && Continued(0) + [1] == [1] && Continued(0) + [2] == [2];
  }

  /** A range on the wire: 0 for infinity or one more than the time since the last bound, the id prefix, the payload. */
  lemma RangeBytes(r: Range, last: int)
    requires EncodeRange(r, last).Ok?
    ensures
      && EncodePayload(r.payload).Ok?
      && (r.bound.timestamp == INFINITY || r.bound.timestamp >= last - 1)
      && var time := if r.bound.timestamp == INFINITY then 0 else r.bound.timestamp - last + 1;
      && EncodeRange(r, last).value ==
           VarInt(time) + VarInt(|r.bound.id|) + r.bound.id + EncodePayload(r.payload).value
  {
    hide VarInt;
  }

  /** The timestamp the next delta is taken from, when the first one is taken from start. */
  function LastTimestamp(ranges: seq<Range>, start: int := 0): int {
    if ranges == [] then start else ranges[|ranges| - 1].bound.timestamp
  }

  function EncodeRanges(ranges: seq<Range>, start: int := 0): Result<Bytes, NegError> {
    if ranges == [] then Ok([])
    else
      var before := ranges[..|ranges| - 1];
      var head :- EncodeRanges(before, start);
      var tail :- EncodeRange(ranges[|ranges| - 1], LastTimestamp(before, start));
      Ok(head + tail)
  }

  /** Two lists of ranges sent one after the other. */
  function EncodeBoth(head: Result<Bytes, NegError>, tail: Result<Bytes, NegError>): Result<Bytes, NegError> {
    if head.Err? then head else if tail.Err? then tail else Ok(head.value + tail.value)
  }

  lemma EncodeSnoc(before: seq<Range>, r: Range, start: int)
    ensures EncodeRanges(before + [r], start) ==
            EncodeBoth(EncodeRanges(before, start), EncodeRange(r, LastTimestamp(before, start)))
    ensures LastTimestamp(before + [r], start) == r.bound.timestamp
  {
    assert (before + [r])[..|before|] == before;
  }

  lemma {:induction false} EncodeAppend(a: seq<Range>, b: seq<Range>, start: int)
    ensures EncodeRanges(a + b, start) ==
            EncodeBoth(EncodeRanges(a, start), EncodeRanges(b, LastTimestamp(a, start)))
    ensures LastTimestamp(a + b, start) == LastTimestamp(b, LastTimestamp(a, start))
  {
    if b == [] {
      assert a + b == a;
      assert EncodeRanges(a, start).Ok? ==> EncodeRanges(a, start).value + [] == EncodeRanges(a, start).value;
    } else {
      var before, r := b[..|b| - 1], b[|b| - 1];
      EncodeAppend(a, before, start);
      assert a + b == (a + before) + [r] && b == before + [r];
      EncodeSnoc(a + before, r, start);
      EncodeSnoc(before, r, LastTimestamp(a, start));
      BothAssociates(EncodeRanges(a, start), EncodeRanges(before, LastTimestamp(a, start)),
                     EncodeRange(r, LastTimestamp(a + before, start)));
    }
  }

  lemma BothAssociates(a: Result<Bytes, NegError>, b: Result<Bytes, NegError>, c: Result<Bytes, NegError>)
    ensures EncodeBoth(EncodeBoth(a, b), c) == EncodeBoth(a, EncodeBoth(b, c))
  {
    if a.Ok? && b.Ok? && c.Ok? {
      assert (a.value + b.value) + c.value == a.value + (b.value + c.value);
    }
  }

  function DecodeIds(bytes: Bytes, n: nat): (r: Result<(seq<Bytes>, Bytes), NegError>)
    ensures r.Ok? ==> |r.value.1| <= |bytes|
  {
    if n == 0 then Ok(([], bytes))
    else if |bytes| < ID_SIZE then Err(ParseEndsPrematurely)
    else
      var (ids, rest) :- DecodeIds(bytes[ID_SIZE..], n - 1);
      Ok(([bytes[..ID_SIZE]] + ids, rest))
  }

  /** The ids of an IdList payload: their number, and 32 bytes each. */
  function DecodeIdList(bytes: Bytes): (r: Result<(seq<Bytes>, Bytes), NegError>)
    ensures r.Ok? ==> |r.value.1| < |bytes|
  {
    var (n, rest) :- DecodeVarInt(bytes);
    DecodeIds(rest, n)
  }

  function DecodePayload(bytes: Bytes): (r: Result<(Payload, Bytes), NegError>)
    ensures r.Ok? ==> |r.value.1| < |bytes|
  {
    var (mode, rest) :- DecodeVarInt(bytes);
    if mode == 0 then Ok((Skip, rest))
    else if mode == 1 then
      if |rest| < FINGERPRINT_SIZE then Err(ParseEndsPrematurely)
      else Ok((Fingerprint(rest[..FINGERPRINT_SIZE]), rest[FINGERPRINT_SIZE..]))
    else if mode == 2 then
      var (ids, rest') :- DecodeIdList(rest);
      Ok((IdList(ids), rest'))
    else Err(UnexpectedMode)
  }

  /** The first range of the bytes, and the bytes after it. */
  function DecodeRange(bytes: Bytes, last: int): (r: Result<(Range, Bytes), NegError>)
    ensures r.Ok? ==> |r.value.1| < |bytes|
  {
    var (bound, rest) :- DecodeBound(bytes, last);
    var (payload, rest') :- DecodePayload(rest);
    Ok((Range(bound, payload), rest'))
  }

  /** All ranges of a message body. */
  function DecodeRanges(bytes: Bytes, last: int): Result<seq<Range>, NegError>
    decreases |bytes|
  {
    if bytes == [] then Ok([])
    else
      var (r, rest) :- DecodeRange(bytes, last);
      var more :- DecodeRanges(rest, r.bound.timestamp);
      Ok([r] + more)
  }

  predicate SendablePayload(p: Payload) {
    match p
    case Skip => true
    case Fingerprint(digest) => |digest| == FINGERPRINT_SIZE
    case IdList(ids) => |ids| <= MAX_SAFE_INTEGER && forall id :: id in ids ==> |id| == ID_SIZE
  }

  lemma {:induction false} IdsRoundTrip(ids: seq<Bytes>, rest: Bytes)
    requires forall id :: id in ids ==> |id| == ID_SIZE
    ensures DecodeIds(Concat(ids) + rest, |ids|) == Ok((ids, rest))
  {
    if ids == [] {
      assert Concat(ids) + rest == rest;
    } else {
      var bytes := Concat(ids) + rest;
      assert bytes == ids[0] + (Concat(ids[1..]) + rest);
      assert bytes[..ID_SIZE] == ids[0] && bytes[ID_SIZE..] == Concat(ids[1..]) + rest;
      IdsRoundTrip(ids[1..], rest);
      assert [ids[0]] + ids[1..] == ids;
    }
  }

  lemma IdListRoundTrip(ids: seq<Bytes>, rest: Bytes)
    requires SendablePayload(IdList(ids))
    ensures EncodePayload(IdList(ids)).Ok?
    ensures DecodePayload(EncodePayload(IdList(ids)).value + rest) == Ok((IdList(ids), rest))
  {
    var body := Concat(ids) + rest;
    var sized := VarInt(|ids|) + body;
    assert EncodePayload(IdList(ids)).value + rest == VarInt(2) + sized;
    VarIntRoundTrip(2, sized);
    VarIntRoundTrip(|ids|, body);
    IdsRoundTrip(ids, rest);
  }

  lemma PayloadRoundTrip(p: Payload, rest: Bytes)
    requires SendablePayload(p)
    ensures EncodePayload(p).Ok?
    ensures DecodePayload(EncodePayload(p).value + rest) == Ok((p, rest))
  {
    match p
    case Skip =>
      VarIntRoundTrip(0, rest);
    case Fingerprint(digest) =>
      assert EncodePayload(p).value + rest == VarInt(1) + (digest + rest);
      VarIntRoundTrip(1, digest + rest);
      assert (digest + rest)[..FINGERPRINT_SIZE] == digest && (digest + rest)[FINGERPRINT_SIZE..] == rest;
    case IdList(ids) =>
      IdListRoundTrip(ids, rest);
  }

  lemma RangeRoundTrip(r: Range, last: int, rest: Bytes)
    requires SendableBound(r.bound, last) && SendablePayload(r.payload)
    ensures EncodeRange(r, last).Ok?
    ensures DecodeRange(EncodeRange(r, last).value + rest, last) == Ok((r, rest))
  {
    PayloadRoundTrip(r.payload, rest);
    var payload := EncodePayload(r.payload).value;
    BoundRoundTrip(r.bound, last, payload + rest);
    Associates(EncodeBound(r.bound, last).value, payload, rest);
  }

  /** What a message body must be to be sent: timestamps never fall, and infinity only repeats. */
  predicate Sendable(ranges: seq<Range>) {
    ranges == [] ||
    var before, r := ranges[..|ranges| - 1], ranges[|ranges| - 1];
    Sendable(before) && SendableBound(r.bound, LastTimestamp(before)) && SendablePayload(r.payload)
  }

  /** Reading `bytes` in front of anything yields the ranges and leaves the rest to be read next. */
  ghost predicate ReadsAs(bytes: Bytes, last: int, ranges: seq<Range>, rest: Bytes, last': int) {
    match DecodeRanges(rest, last')
    case Ok(more) => DecodeRanges(bytes + rest, last) == Ok(ranges + more)
    case Err(e) => DecodeRanges(bytes + rest, last) == Err(e)
  }

  lemma ReadsOne(r: Range, last: int, rest: Bytes)
    requires SendableBound(r.bound, last) && SendablePayload(r.payload)
    ensures EncodeRange(r, last).Ok?
    ensures ReadsAs(EncodeRange(r, last).value, last, [r], rest, r.bound.timestamp)
  {
    RangeRoundTrip(r, last, rest);
  }

  lemma ReadsNothing(rest: Bytes, last: int)
    ensures ReadsAs([], last, [], rest, last)
  {
    assert [] + rest == rest;
    var more := DecodeRanges(rest, last);
    assert more.Ok? ==> [] + more.value == more.value;
  }

  lemma ReadsBoth(a: Bytes, b: Bytes, before: seq<Range>, after: seq<Range>, last: int, last': int, last'': int,
                  rest: Bytes)
    requires ReadsAs(a, last, before, b + rest, last')
    requires ReadsAs(b, last', after, rest, last'')
    ensures ReadsAs(a + b, last, before + after, rest, last'')
  {
    assert (a + b) + rest == a + (b + rest);
    var more := DecodeRanges(rest, last'');
    assert more.Ok? ==> before + (after + more.value) == (before + after) + more.value;
  }

  /**
   * A sent message body is read back exactly, and what follows it is read as if the reader had
   * sent the body itself: the delta state of the two sides agrees.
   */
  lemma {:induction false} MessageRoundTrip(ranges: seq<Range>, rest: Bytes)
    requires Sendable(ranges)
    ensures EncodeRanges(ranges).Ok?
    ensures ReadsAs(EncodeRanges(ranges).value, 0, ranges, rest, LastTimestamp(ranges))
  {
    if ranges == [] {
      ReadsNothing(rest, 0);
    } else {
      var before, r := ranges[..|ranges| - 1], ranges[|ranges| - 1];
      var last := LastTimestamp(before);
      assert ranges == before + [r];
      ReadsOne(r, last, rest);
      var tail := EncodeRange(r, last).value;
      MessageRoundTrip(before, tail + rest);
      ReadsBoth(EncodeRanges(before).value, tail, before, [r], 0, last, r.bound.timestamp, rest);
    }
  }

  /** A whole sent body decodes to what was sent. */
  lemma BodyRoundTrip(ranges: seq<Range>)
    requires Sendable(ranges)
    ensures EncodeRanges(ranges).Ok? && DecodeRanges(EncodeRanges(ranges).value, 0) == Ok(ranges)
  {
    MessageRoundTrip(ranges, []);
    assert EncodeRanges(ranges).value + [] == EncodeRanges(ranges).value;
    assert ranges + [] == ranges;
  }

  // ---- the codec on buffers ----

  method DecodeTimestampMethod(buf: EncodedBuf, last: int) returns (r: Result<int, NegError>)
    requires buf.Valid()
    modifies buf
    ensures buf.Valid() && buf.raw == old(buf.raw)
    ensures match DecodeTimestamp(old(buf.Unwrap()), last)
            case Ok((t, rest)) => r == Ok(t) && buf.Unwrap() == rest
            case Err(e) => r == Err(e)
  {
    var timestamp: int :- DecodeVarIntMethod(buf);
    timestamp := if timestamp == 0 then INFINITY else timestamp - 1;
    if last == INFINITY || timestamp == INFINITY {
      return Ok(INFINITY);
    }
    r := Ok(timestamp + last);
  }

  method DecodeBoundMethod(buf: EncodedBuf, last: int) returns (r: Result<Bound, NegError>)
    requires buf.Valid()
    modifies buf
    ensures buf.Valid() && buf.raw == old(buf.raw)
    ensures match DecodeBound(old(buf.Unwrap()), last)
            case Ok((b, rest)) => r == Ok(b) && buf.Unwrap() == rest
            case Err(e) => r == Err(e)
  {
    var timestamp: int :- DecodeTimestampMethod(buf, last);
    var size :- DecodeVarIntMethod(buf);
    if size > ID_SIZE {
      return Err(BoundKeyTooLong);
    }
    var id :- buf.ReadN(size);
    r := Ok(NegItem(timestamp, id));
  }

  method EncodeBoundMethod(b: Bound, last: int) returns (r: Result<Bytes, NegError>)
    ensures r == EncodeBound(b, last)
  {
    var output := new EncodedBuf.Empty();
    var n := 0;
    if b.timestamp != INFINITY {
      var delta := b.timestamp - last;
      n := delta + 1;
    }
    var time :- EncodeVarIntMethod(n);
    output.Extend(time);
    var size :- EncodeVarIntMethod(|b.id|);
    output.Extend(size);
    output.Extend(b.id);
    var bytes := output.Unwrap();
    assert [] + time == time;
    r := Ok(bytes);
  }
}
