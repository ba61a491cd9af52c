/**
 * The stateful protocol object and the session loop of NIP-77 (src/nips/nip77.ts). Each method is
 * proved to compute its function of NegProtocol; the session loop is proved exact for any two
 * stores.
 */
module NegSession {
  import opened Results
  import opened Sequences
  import opened NegTypes
  import opened Octets
  import opened NegCodec
  import opened NegStorage
  import opened NegProtocol
  import opened NegExact
  import opened NegRounds
  import opened NegWire

  /** Some ranges written behind a buffer's contents, or the error that writing them ends with. */
  ghost predicate Wrote(r: Result<(), NegError>, before: Bytes, after: Bytes, ranges: seq<Range>, last: int,
                        last': int) {
    match EncodeRanges(ranges, last)
    case Ok(bytes) => r == Ok(()) && after == before + bytes && last' == LastTimestamp(ranges, last)
    case Err(e) => r == Err(e)
  }

  lemma WroteOne(r: Range, last: int)
    ensures EncodeRanges([r], last) == EncodeRange(r, last)
    ensures LastTimestamp([r], last) == r.bound.timestamp
  {
    assert [r][..0] == [];
    EncodeSnoc([], r, last);
    assert [] + [r] == [r];
    if EncodeRange(r, last).Ok? {
      assert [] + EncodeRange(r, last).value == EncodeRange(r, last).value;
    }
  }

  /** The bucket a split puts at place i takes the items [curr, next). */
  lemma BucketHere(hash: Hash, items: seq<NegItem>, lower: nat, upper: nat, upperBound: Bound, all: seq<Range>,
                   i: nat, curr: nat, next: nat)
    requires lower + ID_LIST_THRESHOLD <= upper <= |items| && i < BUCKETS
    requires all == Split(hash, items, lower, upper, upperBound)
    requires curr == lower + BucketStart(upper - lower, i) && next == curr + BucketSize(upper - lower, i)
    ensures |all| == BUCKETS && curr < next <= upper && next == lower + BucketStart(upper - lower, i + 1)
    ensures all[i] == Bucket(hash, items, curr, next, upper, upperBound)
  {
    var cuts := Cuts(lower, upper);
    CutsTile(lower, upper);
    assert cuts[i] == curr && cuts[i + 1] == next;
    assert i + 1 < BUCKETS ==> cuts[i + 1] < cuts[BUCKETS];
    BucketAt(hash, items, cuts, upper, upperBound, BUCKETS, i);
  }

  class Negentropy {
    const storage: NegentropyStorageVector
    const frameSizeLimit: nat
    var initiator: bool
    var lastTimestampIn: int
    var lastTimestampOut: int

    constructor (storage: NegentropyStorageVector, frameSizeLimit: nat)
      requires frameSizeLimit == 0 || frameSizeLimit >= 4096
      ensures this.storage == storage && this.frameSizeLimit == frameSizeLimit
      ensures !initiator && lastTimestampIn == 0 && lastTimestampOut == 0
    {
      this.storage, this.frameSizeLimit := storage, frameSizeLimit;
      initiator, lastTimestampIn, lastTimestampOut := false, 0, 0;
    }

    /** The constructor behind its check of the frame size limit. */
    static method Create(storage: NegentropyStorageVector,
                         frameSizeLimit: nat) returns (r: Result<Negentropy, NegError>)
      ensures r.Err? <==> frameSizeLimit != 0 && frameSizeLimit < 4096
      ensures r.Err? ==> r.error == FrameLimitTooSmall
      ensures r.Ok? ==> fresh(r.value) && r.value.storage == storage && r.value.frameSizeLimit == frameSizeLimit
      ensures r.Ok? ==> !r.value.initiator && r.value.lastTimestampOut == 0
    {
      if frameSizeLimit != 0 && frameSizeLimit < 4096 {
        return Err(FrameLimitTooSmall);
      }
      var neg := new Negentropy(storage, frameSizeLimit);
      r := Ok(neg);
    }

    function AsSide(): Side
      reads this, storage
    {
      Side(storage.hash, storage.items, storage.isSealed, initiator, frameSizeLimit)
    }

    /** Writes a bound against the timestamp state. */
    method WriteBound(o: EncodedBuf, b: Bound) returns (r: Result<(), NegError>)
      requires o.Valid()
      modifies this`lastTimestampOut, o, o.raw
      ensures o.Valid() && (o.raw == old(o.raw) || fresh(o.raw))
      ensures match EncodeBound(b, old(lastTimestampOut))
              case Ok(bytes) =>
                r == Ok(()) && o.Unwrap() == old(o.Unwrap()) + bytes && lastTimestampOut == b.timestamp
              case Err(e) => r == Err(e)
    {
      var bytes :- EncodeBoundMethod(b, lastTimestampOut);
      lastTimestampOut := b.timestamp;
      o.Extend(bytes);
      r := Ok(());
    }

    method WriteVarInt(o: EncodedBuf, n: nat)
      requires o.Valid() && n <= MAX_SAFE_INTEGER
      modifies o, o.raw
      ensures o.Valid() && (o.raw == old(o.raw) || fresh(o.raw))
      ensures o.Unwrap() == old(o.Unwrap()) + VarInt(n)
    {
      var bytes := EncodeVarIntMethod(n);
      o.Extend(bytes.value);
    }

    method EncodeSkipInto(o: EncodedBuf, bound: Bound) returns (r: Result<(), NegError>)
      requires o.Valid()
      modifies this`lastTimestampOut, o, o.raw
      ensures o.Valid() && (o.raw == old(o.raw) || fresh(o.raw))
      ensures Wrote(r, old(o.Unwrap()), o.Unwrap(), [Range(bound, Skip)], old(lastTimestampOut), lastTimestampOut)
    {
      WroteOne(Range(bound, Skip), lastTimestampOut);
      ghost var before, head := o.Unwrap(), EncodeBound(bound, lastTimestampOut);
      var _ :- WriteBound(o, bound);
      WriteVarInt(o, 0);
      Associates(before, head.value, VarInt(0));
      r := Ok(());
    }

    /** Writes a fingerprint range. */
    method WriteFingerprint(o: EncodedBuf, bound: Bound, digest: Bytes) returns (r: Result<(), NegError>)
      requires o.Valid()
      modifies this`lastTimestampOut, o, o.raw
      ensures o.Valid() && (o.raw == old(o.raw) || fresh(o.raw))
      ensures Wrote(r, old(o.Unwrap()), o.Unwrap(), [Range(bound, Fingerprint(digest))], old(lastTimestampOut), lastTimestampOut)
    {
      WroteOne(Range(bound, Fingerprint(digest)), lastTimestampOut);
      ghost var before, head := o.Unwrap(), EncodeBound(bound, lastTimestampOut);
      var _ :- WriteBound(o, bound);
      WriteVarInt(o, 1);
      o.Extend(digest);
      AssociatesAll(before, head.value, VarInt(1), digest, []);
      r := Ok(());
    }

    /** Writes the ids of the items [lower, upper) one after the other. */
    method WriteIds(o: EncodedBuf, lower: nat, upper: nat)
      requires o.Valid() && storage.Valid() && lower <= upper <= |storage.items|
      modifies o, o.raw
      ensures o.Valid() && (o.raw == old(o.raw) || fresh(o.raw))
      ensures o.Unwrap() == old(o.Unwrap()) + Concat(Ids(storage.items[lower..upper]))
    {
      ghost var before, ids := o.Unwrap(), Ids(storage.items[lower..upper]);
      for i := lower to upper
        invariant o.Valid() && (o.raw == old(o.raw) || fresh(o.raw))
        invariant o.Unwrap() == before + Concat(ids[..i - lower])
      {
        o.Extend(storage.items[i].id);
        ConcatSnoc(ids, i - lower);
        Associates(before, Concat(ids[..i - lower]), ids[i - lower]);
      }
      assert ids[..upper - lower] == ids;
    }

    /** Writes what follows the bound in a range of the ids of [lower, upper). */
    method WriteIdPayload(o: EncodedBuf, lower: nat, upper: nat)
      requires o.Valid() && storage.Valid() && lower <= upper <= |storage.items|
      modifies o, o.raw
      ensures o.Valid() && (o.raw == old(o.raw) || fresh(o.raw))
      ensures EncodePayload(IdList(Ids(storage.items[lower..upper]))).Ok?
      ensures o.Unwrap() == old(o.Unwrap()) + EncodePayload(IdList(Ids(storage.items[lower..upper]))).value
    {
      ghost var before, ids := o.Unwrap(), Ids(storage.items[lower..upper]);
      WriteVarInt(o, 2);
      WriteVarInt(o, upper - lower);
      WriteIds(o, lower, upper);
      AssociatesAll(before, [], VarInt(2), VarInt(upper - lower), Concat(ids));
      assert before + [] == before;
      assert [] + (VarInt(2) + VarInt(upper - lower) + Concat(ids)) == VarInt(2) + VarInt(upper - lower) + Concat(ids);
    }

    /** Writes the items [lower, upper) as one range of ids. */
    method WriteIdList(o: EncodedBuf, bound: Bound, lower: nat, upper: nat) returns (r: Result<(), NegError>)
      requires o.Valid() && storage.Valid() && lower <= upper <= |storage.items|
      modifies this`lastTimestampOut, o, o.raw
      ensures o.Valid() && (o.raw == old(o.raw) || fresh(o.raw))
      ensures Wrote(r, old(o.Unwrap()), o.Unwrap(), [Range(bound, IdList(Ids(storage.items[lower..upper])))],
                    old(lastTimestampOut), lastTimestampOut)
    {
      ghost var range := Range(bound, IdList(Ids(storage.items[lower..upper])));
      ghost var before, last := o.Unwrap(), lastTimestampOut;
      WroteOne(range, last);
      var _ :- WriteBound(o, bound);
      WriteIdPayload(o, lower, upper);
      Associates(before, EncodeBound(bound, last).value, EncodePayload(range.payload).value);
      r := Ok(());
    }

    method FindMinimalBound(prev: NegItem, curr: NegItem) returns (b: Bound)
      requires |prev.id| == |curr.id| == ID_SIZE
      ensures b == MinimalBound(prev, curr)
    {
      if curr.timestamp != prev.timestamp {
        return NegItem(curr.timestamp, []);
      }
      var shared := 0;
      for i := 0 to ID_SIZE
        invariant shared == i && prev.id[..i] == curr.id[..i]
      {
        if curr.id[i] != prev.id[i] {
          break;
        }
        shared := shared + 1;
      }
      SharedIs(prev.id, curr.id, shared);
      b := NegItem(curr.timestamp, if shared < ID_SIZE then curr.id[..shared + 1] else curr.id);
    }

    /** The bound behind the item before index `cut`. */
    method BoundAt(cut: nat, upper: nat, upperBound: Bound) returns (b: Bound)
      requires storage.Valid() && 0 < cut <= upper <= |storage.items|
      ensures b == BucketBound(storage.items, cut, upper, upperBound)
    {
      if cut == upper {
        b := upperBound;
      } else {
        b := FindMinimalBound(storage.items[cut - 1], storage.items[cut]);
      }
    }

    /** Writes the fingerprint of one bucket. */
    method WriteBucket(o: EncodedBuf, from: nat, to: nat, upper: nat, upperBound: Bound, ghost bucket: Range)
      returns (r: Result<(), NegError>)
      requires o.Valid() && storage.Valid() && storage.isSealed && from < to <= upper <= |storage.items|
      requires bucket == Bucket(storage.hash, storage.items, from, to, upper, upperBound)
      modifies this`lastTimestampOut, o, o.raw
      ensures o.Valid() && (o.raw == old(o.raw) || fresh(o.raw))
      ensures Wrote(r, old(o.Unwrap()), o.Unwrap(), [bucket], old(lastTimestampOut), lastTimestampOut)
    {
      var ourFingerprint := storage.FingerprintRange(from, to);
      var nextBound := BoundAt(to, upper, upperBound);
      r := WriteFingerprint(o, nextBound, ourFingerprint.value);
    }

    method SplitRange(lower: nat, upper: nat, upperBound: Bound, o: EncodedBuf) returns (r: Result<(), NegError>)
      requires o.Valid() && storage.Valid() && storage.isSealed && lower <= upper <= |storage.items|
      modifies this`lastTimestampOut, o, o.raw
      ensures o.Valid() && (o.raw == old(o.raw) || fresh(o.raw))
      ensures Wrote(r, old(o.Unwrap()), o.Unwrap(), Split(storage.hash, storage.items, lower, upper, upperBound),
                    old(lastTimestampOut), lastTimestampOut)
    {
      var numElems := upper - lower;
      if numElems < ID_LIST_THRESHOLD {
        r := WriteIdList(o, upperBound, lower, upper);
        return;
      }
      r := WriteBuckets(lower, upper, upperBound, o, Split(storage.hash, storage.items, lower, upper, upperBound));
    }

    /** The bucket loop of a split. */
    method WriteBuckets(lower: nat, upper: nat, upperBound: Bound, o: EncodedBuf, ghost all: seq<Range>)
      returns (r: Result<(), NegError>)
      requires o.Valid() && storage.Valid() && storage.isSealed && lower + ID_LIST_THRESHOLD <= upper <= |storage.items|
      requires all == Split(storage.hash, storage.items, lower, upper, upperBound)
      modifies this`lastTimestampOut, o, o.raw
      ensures o.Valid() && (o.raw == old(o.raw) || fresh(o.raw))
      ensures Wrote(r, old(o.Unwrap()), o.Unwrap(), all, old(lastTimestampOut), lastTimestampOut)
    {
      hide Split, EncodeRanges, NegTypes.Sorted, Wrote, EncodedBuf.Valid, EncodedBuf.Unwrap;
      FirstStart(upper - lower);
      var itemsPerBucket := (upper - lower) / 16;
      var bucketsWithExtra := (upper - lower) % 16;
      var curr := lower;
      ghost var before, last := o.Unwrap(), lastTimestampOut;
      ghost var hash, items := storage.hash, storage.items;
      r := Ok(());
      WroteNone(before, all, last);
      SplitCount(hash, items, lower, upper, upperBound);
      for i := 0 to BUCKETS
        invariant o.Valid() && (o.raw == old(o.raw) || fresh(o.raw))
        invariant storage.hash == hash && storage.items == items && storage.isSealed && storage.Valid()
        invariant curr == lower + BucketStart(upper - lower, i)
        invariant r == Ok(()) && Wrote(r, before, o.Unwrap(), all[..i], last, lastTimestampOut)
      {
        var bucketSize := itemsPerBucket + if i < bucketsWithExtra then 1 else 0;
        var next := curr + bucketSize;
        BucketHere(hash, items, lower, upper, upperBound, all, i, curr, next);
        ghost var middle, middleLast := o.Unwrap(), lastTimestampOut;
        r := WriteBucket(o, curr, next, upper, upperBound, all[i]);
        curr := next;
        WroteNext(before, middle, o.Unwrap(), all, i, last, middleLast, lastTimestampOut, r);
        if r.Err? {
          return;
        }
      }
      assert all[..BUCKETS] == all;
    }

    /** Reads a list of ids into a map keyed by id: repeats keep their first place. */
    method ReadIds(query: EncodedBuf, n: nat) returns (r: Result<seq<Bytes>, NegError>)
      requires query.Valid()
      modifies query
      ensures query.Valid() && query.raw == old(query.raw)
      ensures match DecodeIds(old(query.Unwrap()), n)
              case Ok((ids, rest)) => r == Ok(Distinct(ids)) && query.Unwrap() == rest
              case Err(e) => r == Err(e)
    {
      var theirElems: seq<Bytes> := [];
      ghost var ids: seq<Bytes> := [];
      ghost var whole := DecodeIds(query.Unwrap(), n);
      assert whole.Ok? ==> [] + whole.value.0 == whole.value.0;
      for i := 0 to n
        invariant query.Valid() && query.raw == old(query.raw)
        invariant theirElems == Distinct(ids)
        invariant ReadsIds(old(query.Unwrap()), n, ids, query.Unwrap(), n - i)
      {
        ghost var rest := query.Unwrap();
        var e :- query.ReadN(ID_SIZE);
        ReadsOneId(old(query.Unwrap()), n, ids, rest, n - i);
        DistinctSnoc(ids, e);
        ids := ids + [e];
        if e !in theirElems {
          theirElems := theirElems + [e];
        }
      }
      assert ids + [] == ids;
      r := Ok(theirElems);
    }

    /** Our ids of [lower, upper) that the peer did not list, and the listed ids that are not ours. */
    method MatchAgainst(lower: nat, upper: nat, theirs: seq<Bytes>) returns (have: seq<Bytes>, need: seq<Bytes>)
      requires lower <= upper <= |storage.items|
      ensures (have, need) == MatchIds(Ids(storage.items[lower..upper]), theirs)
    {
      var theirElems := theirs;
      have := [];
      ghost var ids := Ids(storage.items[lower..upper]);
      for i := lower to upper
        invariant (have, theirElems) == MatchIds(ids[..i - lower], theirs)
      {
        var id := storage.items[i].id;
        assert ids[..i + 1 - lower][..i - lower] == ids[..i - lower];
        if id in theirElems {
          theirElems := Without(theirElems, id);
        } else {
          have := have + [id];
        }
      }
      assert ids[..upper - lower] == ids;
      need := theirElems;
    }

    /** Writes the pending skip, if there is one. */
    method FlushSkip(o: EncodedBuf, skip: bool, prevBound: Bound) returns (r: Result<(), NegError>)
      requires o.Valid()
      modifies this`lastTimestampOut, o, o.raw
      ensures o.Valid() && (o.raw == old(o.raw) || fresh(o.raw))
      ensures Wrote(r, old(o.Unwrap()), o.Unwrap(), Pending(skip, prevBound), old(lastTimestampOut), lastTimestampOut)
    {
      if skip {
        r := EncodeSkipInto(o, prevBound);
      } else {
        assert o.Unwrap() + [] == o.Unwrap();
        r := Ok(());
      }
    }

    method AnswerFingerprint(query: EncodedBuf, o: EncodedBuf, prevBound: Bound, skip: bool, lower: nat, upper: nat,
                             currBound: Bound)
      returns (r: Result<bool, NegError>)
      requires query.Valid() && o.Valid() && query != o && query.raw != o.raw && o.Unwrap() == []
      requires storage.Valid() && storage.isSealed && lower <= upper <= |storage.items|
      modifies this`lastTimestampOut, query, o, o.raw
      ensures query.Valid() && query.raw == old(query.raw) && o.Valid() && (o.raw == old(o.raw) || fresh(o.raw))
      ensures |old(query.Unwrap())| < FINGERPRINT_SIZE ==> r == Err(ParseEndsPrematurely)
      ensures |old(query.Unwrap())| >= FINGERPRINT_SIZE ==>
                var equal := old(query.Unwrap())[..FINGERPRINT_SIZE] == DigestOf(storage.hash, storage.items[lower..upper]);
                var ranges := if equal then [] else
                    Pending(skip, prevBound) + Split(storage.hash, storage.items, lower, upper, currBound);
                && Sent(r, o.Unwrap(), ranges, old(lastTimestampOut), lastTimestampOut)
                && (r.Ok? ==> r == Ok(equal) && query.Unwrap() == old(query.Unwrap())[FINGERPRINT_SIZE..])
    {
      var theirFingerprint :- query.ReadN(FINGERPRINT_SIZE);
      var ourFingerprint := storage.FingerprintRange(lower, upper);
      if theirFingerprint == ourFingerprint.value {
        return Ok(true);
      }
      ghost var last := lastTimestampOut;
      var flushed := FlushSkip(o, skip, prevBound);
      ghost var middle, last' := o.Unwrap(), lastTimestampOut;
      SentBoth(flushed, middle, Pending(skip, prevBound), Split(storage.hash, storage.items, lower, upper, currBound), last, last');
      var _ :- flushed;
      var written := SplitRange(lower, upper, currBound, o);
      SentMore(written, middle, o.Unwrap(), Pending(skip, prevBound),
               Split(storage.hash, storage.items, lower, upper, currBound), last, last', lastTimestampOut);
      var _ :- written;
      r := Ok(false);
    }

    method AnswerIdList(query: EncodedBuf, o: EncodedBuf, prevBound: Bound, skip: bool, lower: nat, upper: nat,
                        currBound: Bound)
      returns (r: Result<(bool, seq<Bytes>, seq<Bytes>), NegError>)
      requires query.Valid() && o.Valid() && query != o && query.raw != o.raw && o.Unwrap() == []
      requires storage.Valid() && storage.isSealed && lower <= upper <= |storage.items|
      modifies this`lastTimestampOut, query, o, o.raw
      ensures query.Valid() && query.raw == old(query.raw) && o.Valid() && (o.raw == old(o.raw) || fresh(o.raw))
      ensures match DecodeIdList(old(query.Unwrap()))
              case Err(e) => r == Err(e)
              case Ok((ids, rest)) =>
                var ours := Ids(storage.items[lower..upper]);
                var (have, need) := if initiator then MatchIds(ours, Distinct(ids)) else ([], []);
                var ranges := if initiator then [] else Pending(skip, prevBound) + [Range(currBound, IdList(ours))];
                && Sent(r, o.Unwrap(), ranges, old(lastTimestampOut), lastTimestampOut)
                && (r.Ok? ==> r == Ok((initiator, have, need)) && query.Unwrap() == rest)
    {
      hide WeaklySorted, Pending, MatchIds, EncodeRanges, LastTimestamp;
      var numIds :- DecodeVarIntMethod(query);
      var theirElems :- ReadIds(query, numIds);
      if initiator {
        var have, need := MatchAgainst(lower, upper, theirElems);
        r := Ok((true, have, need));
        NothingSent(r, lastTimestampOut);
        return;
      }
      ghost var last, list := lastTimestampOut, [Range(currBound, IdList(Ids(storage.items[lower..upper])))];
      var flushed := FlushSkip(o, skip, prevBound);
      ghost var middle, last' := o.Unwrap(), lastTimestampOut;
      SentBoth(flushed, middle, Pending(skip, prevBound), list, last, last');
      var _ :- flushed;
      var written := WriteIdList(o, currBound, lower, upper);
      SentMore(written, middle, o.Unwrap(), Pending(skip, prevBound), list, last, last', lastTimestampOut);
      var _ :- written;
      r := Ok((false, [], []));
    }

    /** Reads the payload of a range and writes what answers it. */
    method AnswerPayload(query: EncodedBuf, o: EncodedBuf, prevBound: Bound, prevIndex: nat, skip: bool,
                         currBound: Bound)
      returns (r: Result<Reaction, NegError>)
      requires query.Valid() && o.Valid() && query != o && query.raw != o.raw && o.Unwrap() == []
      requires storage.Valid() && storage.isSealed && prevIndex <= |storage.items|
      modifies this`lastTimestampOut, query, o, o.raw
      ensures query.Valid() && query.raw == old(query.raw) && o.Valid() && (o.raw == old(o.raw) || fresh(o.raw))
      ensures match DecodePayload(old(query.Unwrap()))
              case Err(e) => r == Err(e)
              case Ok((payload, rest)) =>
                var a := React(old(AsSide()), prevBound, prevIndex, skip, Range(currBound, payload));
                && Sent(r, o.Unwrap(), a.out, old(lastTimestampOut), lastTimestampOut)
                && (r.Ok? ==> r == Ok(a.(out := [])) && query.Unwrap() == rest)
    {
      hide Split, MatchIds, DecodeIdList, DigestOf, WeaklySorted, Pending;
      var mode :- DecodeVarIntMethod(query);
      assert storage.items[..|storage.items|] == storage.items;
      var found := storage.FindLowerBound(prevIndex, |storage.items|, currBound);
      var lower, upper := prevIndex, found.value;
      if mode == 0 {
        r := Ok(Reaction(currBound, upper, true, [], [], []));
      } else if mode == 1 {
        var equal :- AnswerFingerprint(query, o, prevBound, skip, lower, upper, currBound);
        r := Ok(Reaction(currBound, upper, equal, [], [], []));
      } else if mode == 2 {
        var listed :- AnswerIdList(query, o, prevBound, skip, lower, upper, currBound);
        r := Ok(Reaction(currBound, upper, listed.0, [], listed.1, listed.2));
      } else {
        r := Err(UnexpectedMode);
      }
    }

    /** Reads one range of the query and writes what answers it. */
    method AnswerRange(query: EncodedBuf, o: EncodedBuf, prevBound: Bound, prevIndex: nat, skip: bool)
      returns (r: Result<Reaction, NegError>)
      requires query.Valid() && o.Valid() && query != o && query.raw != o.raw && o.Unwrap() == []
      requires storage.Valid() && storage.isSealed && prevIndex <= |storage.items|
      modifies this`lastTimestampIn, this`lastTimestampOut, query, o, o.raw
      ensures query.Valid() && query.raw == old(query.raw) && o.Valid() && (o.raw == old(o.raw) || fresh(o.raw))
      ensures match DecodeRange(old(query.Unwrap()), old(lastTimestampIn))
              case Err(e) => r == Err(e)
              case Ok((range, rest)) =>
                var a := React(old(AsSide()), prevBound, prevIndex, skip, range);
                && Sent(r, o.Unwrap(), a.out, old(lastTimestampOut), lastTimestampOut)
                && (r.Ok? ==> r == Ok(a.(out := [])) && query.Unwrap() == rest && lastTimestampIn == range.bound.timestamp)
    {
      var currBound :- DecodeBoundMethod(query, lastTimestampIn);
      lastTimestampIn := currBound.timestamp;
      r := AnswerPayload(query, o, prevBound, prevIndex, skip, currBound);
    }

    /** Writes the fingerprint of everything from an index on, up to infinity. */
    method WriteRemaining(o: EncodedBuf, from: nat, ghost out: seq<Range>)
      requires o.Valid() && storage.Valid() && storage.isSealed && from <= |storage.items|
      requires EncodeRanges(out).Ok? && o.Unwrap() == [PROTOCOL_VERSION] + EncodeRanges(out).value
      modifies this`lastTimestampOut, o, o.raw
      ensures o.Valid() && (o.raw == old(o.raw) || fresh(o.raw))
      ensures var sent := EncodeRanges(out + [Remaining(storage.hash, storage.items, from)]);
              sent.Ok? && o.Unwrap() == [PROTOCOL_VERSION] + sent.value
    {
      var remainingFingerprint := storage.FingerprintRange(from, |storage.items|);
      assert storage.items[from..|storage.items|] == storage.items[from..];
      RemainingSent(Remaining(storage.hash, storage.items, from), out, lastTimestampOut);
      var _ := WriteFingerprint(o, NegItem(INFINITY, []), remainingFingerprint.value);
    }

    /** Puts the answer to a range behind the output, unless that fills the frame. */
    method PutAnswer(full: EncodedBuf, bytes: Bytes, upper: nat, ghost out: seq<Range>) returns (done: bool)
      requires full.Valid() && storage.Valid() && storage.isSealed && upper <= |storage.items|
      requires EncodeRanges(out).Ok? && full.Unwrap() == [PROTOCOL_VERSION] + EncodeRanges(out).value
      modifies this`lastTimestampOut, full, full.raw
      ensures full.Valid() && (full.raw == old(full.raw) || fresh(full.raw))
      ensures done == ExceedsFrame(frameSizeLimit, 1 + |EncodeRanges(out).value + bytes|)
      ensures done ==>
                var sent := EncodeRanges(out + [Remaining(storage.hash, storage.items, upper)]);
                sent.Ok? && full.Unwrap() == [PROTOCOL_VERSION] + sent.value
      ensures !done ==> full.Unwrap() == [PROTOCOL_VERSION] + (EncodeRanges(out).value + bytes) && lastTimestampOut == old(lastTimestampOut)
    {
      hide EncodeRanges, Remaining;
      if ExceedsFrame(frameSizeLimit, full.Length() + |bytes|) {
        WriteRemaining(full, upper, out);
        return true;
      }
      full.Extend(bytes);
      Associates([PROTOCOL_VERSION], EncodeRanges(out).value, bytes);
      return false;
    }

    /** Answers one range into a buffer of its own; p is the progress so far. */
    method AnswerApart(query: EncodedBuf, prevBound: Bound, prevIndex: nat, skip: bool, ghost p: Progress)
      returns (r: Result<(Reaction, Bytes), NegError>)
      requires query.Valid() && storage.Valid() && storage.isSealed && prevIndex <= |storage.items|
      requires p.prevBound == prevBound && p.prevIndex == prevIndex && p.skip == skip
      requires EncodeRanges(p.out).Ok? && lastTimestampOut == LastTimestamp(p.out)
      modifies this`lastTimestampIn, this`lastTimestampOut, query
      ensures query.Valid() && query.raw == old(query.raw)
      ensures Answering(r, lastTimestampOut, query.Unwrap(), lastTimestampIn, AsSide(), p,
                        NextTurn(old(AsSide()), old(query.Unwrap()), old(lastTimestampIn), p))
    {
      ghost var unread, last := query.Unwrap(), lastTimestampIn;
      var o := new EncodedBuf.Empty();
      var a := AnswerRange(query, o, prevBound, prevIndex, skip);
      NextRange(AsSide(), unread, last, p, a, o.Unwrap(), lastTimestampOut, query.Unwrap(), lastTimestampIn);
      r := if a.Err? then Err(a.error) else Ok((a.value, o.Unwrap()));
    }

    /** Answers one range and puts the answer, or the final fingerprint, behind the output so far. */
    method TakeTurn(query: EncodedBuf, full: EncodedBuf, prevBound: Bound, prevIndex: nat, skip: bool,
                    ghost p: Progress)
      returns (r: Result<(Reaction, bool), NegError>)
      requires query.Valid() && full.Valid() && query != full && query.raw != full.raw
      requires storage.Valid() && storage.isSealed && prevIndex <= |storage.items|
      requires p.prevBound == prevBound && p.prevIndex == prevIndex && p.skip == skip
      requires Wrote(Ok(()), [PROTOCOL_VERSION], full.Unwrap(), p.out, 0, lastTimestampOut)
      modifies this`lastTimestampIn, this`lastTimestampOut, query, full, full.raw
      ensures query.Valid() && full.Valid() && query.raw == old(query.raw) && (full.raw == old(full.raw) || fresh(full.raw))
      ensures Turned(r, full.Unwrap(), lastTimestampOut, query.Unwrap(), lastTimestampIn, p,
                     NextTurn(old(AsSide()), old(query.Unwrap()), old(lastTimestampIn), p))
    {
      var answered :- AnswerApart(query, prevBound, prevIndex, skip, p);
      var done := PutAnswer(full, answered.1, answered.0.index, p.out);
      r := Ok((answered.0, done));
    }

    /** The range loop of `reconcile`; `full` takes the output. */
    method ReconcileRanges(query: EncodedBuf, full: EncodedBuf) returns (r: Result<(seq<Bytes>, seq<Bytes>), NegError>)
      requires query.Valid() && full.Valid() && query != full && query.raw != full.raw
      requires storage.Valid() && storage.isSealed
      requires full.Unwrap() == [PROTOCOL_VERSION] && lastTimestampIn == 0 && lastTimestampOut == 0
      modifies this`lastTimestampIn, this`lastTimestampOut, query, full, full.raw
      ensures full.Valid()
      ensures Reconciled(r, full.Unwrap(), ReconcileBody(old(AsSide()), old(query.Unwrap()), 0, NOTHING_YET))
    {
      ghost var side, all, p := AsSide(), query.Unwrap(), NOTHING_YET;
      var prevBound, prevIndex: nat, skip := START, 0, false;
      var have: seq<Bytes>, need: seq<Bytes> := [], [];
      assert [PROTOCOL_VERSION] + [] == [PROTOCOL_VERSION];
      while query.Length() > 0
        invariant query.Valid() && full.Valid() && query != full && query.raw != full.raw
        invariant query.raw == old(query.raw) && (full.raw == old(full.raw) || fresh(full.raw))
        invariant AsSide() == side
        invariant p == Progress(prevBound, prevIndex, skip, p.out, have, need) && prevIndex <= |storage.items|
        invariant Wrote(Ok(()), [PROTOCOL_VERSION], full.Unwrap(), p.out, 0, lastTimestampOut)
        invariant ReconcileBody(side, all, 0, NOTHING_YET) == ReconcileBody(side, query.Unwrap(), lastTimestampIn, p)
        decreases |query.Unwrap()|
      {
        ghost var turn := NextTurn(side, query.Unwrap(), lastTimestampIn, p);
        var taken :- TakeTurn(query, full, prevBound, prevIndex, skip, p);
        var a, done := taken.0, taken.1;
        have, need := have + a.have, need + a.need;
        if done {
          return Ok((have, need));
        }
        prevBound, prevIndex, skip := a.bound, a.index, a.skip;
        p := turn.value.p;
      }
      r := Ok((have, need));
    }

    /** Answers a message: reports differences, and says what to send next, if anything. */
    method Reconcile(queryMsg: Bytes) returns (r: Result<Outcome, NegError>)
      requires storage.Valid()
      modifies this`lastTimestampIn, this`lastTimestampOut
      ensures r == NegProtocol.Reconcile(AsSide(), queryMsg)
    {
      var query := new EncodedBuf.Of(queryMsg);
      lastTimestampIn, lastTimestampOut := 0, 0;
      var full := new EncodedBuf.Empty();
      full.Extend([PROTOCOL_VERSION]);
      assert [] + [PROTOCOL_VERSION] == [PROTOCOL_VERSION];
      var protocolVersion :- query.Read();
      if protocolVersion < 0x60 || protocolVersion > 0x6f {
        return Err(InvalidVersion);
      }
      if protocolVersion != PROTOCOL_VERSION {
        if initiator {
          return Err(UnsupportedVersion);
        }
        return Ok(Outcome([], [], Some([PROTOCOL_VERSION])));
      }
      var _ :- storage.Size();
      var found :- ReconcileRanges(query, full);
      var bytes := full.Unwrap();
      r := Ok(Outcome(found.0, found.1, if |bytes| == 1 then None else Some(bytes)));
    }

    /** Opens a session. */
    method Initiate() returns (r: Result<Bytes, NegError>)
      requires storage.Valid()
      modifies this
      ensures initiator && AsSide() == old(AsSide()).(initiator := true)
      ensures r == NegProtocol.Initiate(AsSide(), old(lastTimestampOut))
    {
      initiator := true;
      var output := new EncodedBuf.Empty();
      output.Extend([PROTOCOL_VERSION]);
      assert [] + [PROTOCOL_VERSION] == [PROTOCOL_VERSION];
      var size :- storage.Size();
      var _ :- SplitRange(0, size, NegItem(INFINITY, []), output);
      var bytes := output.Unwrap();
      r := Ok(bytes);
    }
  }

  // ---- the session ----

  /**
   * Drives a session against a responder until there is nothing left to send. A responder with
   * nothing to send answers with the bare version byte.
   */
  method RunNegSession(storage: NegentropyStorageVector, frameSizeLimit: nat, responder: Negentropy)
    returns (r: Result<(set<Bytes>, set<Bytes>), NegError>)
    requires storage.Valid() && responder.storage.Valid()
    modifies responder
    ensures var me := Side(storage.hash, storage.items, storage.isSealed, true, frameSizeLimit);
            Honest(me, old(responder.AsSide())) ==>
              r == Ok((IdSet(storage.items) - IdSet(responder.storage.items),
                       IdSet(responder.storage.items) - IdSet(storage.items)))
  {
    hide Honest, InSession, NegProtocol.Reconcile, NegProtocol.Initiate;
    HonestLimit(Side(storage.hash, storage.items, storage.isSealed, true, frameSizeLimit), responder.AsSide());
    var neg :- Negentropy.Create(storage, frameSizeLimit);
    ghost var me, peer := neg.AsSide().(initiator := true), responder.AsSide();
    if Honest(me, peer) {
      SessionOpens(me, peer);
    }
    var message :- neg.Initiate();
    var have: set<Bytes>, need: set<Bytes> := {}, {};
    for round := 0 to MAX_NEG_ROUNDS
      invariant neg.AsSide() == me && responder.AsSide() == peer
      invariant Honest(me, peer) ==> InSession(me, peer, round, message, have, need)
    {
      if Honest(me, peer) {
        SessionRound(me, peer, round, message, have, need);
      }
      var replied :- responder.Reconcile(message);
      var reply := if replied.nextMessage.None? then [PROTOCOL_VERSION] else replied.nextMessage.value;
      var out :- neg.Reconcile(reply);
      have, need := have + (set id | id in out.have), need + (set id | id in out.need);
      if out.nextMessage.None? {
        return Ok((have, need));
      }
      message := out.nextMessage.value;
    }
    if Honest(me, peer) {
      SessionShort(me, peer, MAX_NEG_ROUNDS, message, have, need);
    }
    r := Err(TooManyRounds);
  }

  /** No message of the session fills the frame of its sender. */
  ghost predicate Roomy(me: Side, peer: Side) {
    forall rounds: nat ::
      && var reply := Answer(peer, After(me, peer, rounds).message).out;
      && Fits(peer, reply) && Fits(me, Answer(me, reply).out)
  }

  /** Two sealed sides, the first of which opens the session, with limits that their messages do not reach. */
  ghost predicate Honest(me: Side, peer: Side) {
    && Parties(me, peer) && me.initiator
    && me.isSealed && peer.isSealed
    && (me.frameSizeLimit == 0 || me.frameSizeLimit >= 4096) && Roomy(me, peer)
  }

  lemma HonestLimit(me: Side, peer: Side)
    ensures Honest(me, peer) ==> me.frameSizeLimit == 0 || me.frameSizeLimit >= 4096
  {
  }

  /** Without limits there is room for every message. */
  lemma UnlimitedRoomy(me: Side, peer: Side)
    requires me.frameSizeLimit == 0 && peer.frameSizeLimit == 0
    ensures Roomy(me, peer)
  {
    hide Answer, After, Packet;
  }

  /** The state of the session loop: a message that is not empty yet, and what is reported so far. */
  ghost predicate InSession(me: Side, peer: Side, rounds: nat, message: Bytes, have: set<Bytes>, need: set<Bytes>) {
    var s := After(me, peer, rounds);
    s.message != [] && message == Packet(s.message) && s.report == Report(have, need)
  }

  lemma SessionOpens(me: Side, peer: Side)
    requires Honest(me, peer)
    ensures NegProtocol.Initiate(me).Ok?
    ensures InSession(me, peer, 0, NegProtocol.Initiate(me).value, {}, {})
  {
    InitiateOpens(me, peer);
    OpeningNotEmpty(me);
  }

  lemma OpeningNotEmpty(me: Side)
    ensures Opening(me).message != []
  {
  }

  /** What the next message of the responder to a packet is, as the session loop receives it. */
  function Reply(peer: Side, message: Bytes): Result<Bytes, NegError> {
    var out :- NegProtocol.Reconcile(peer, message);
    Ok(if out.nextMessage.None? then [PROTOCOL_VERSION] else out.nextMessage.value)
  }

  /** A round of the loop is a round of the session, and a loop that ends has the exact report. */
  lemma SessionRound(me: Side, peer: Side, rounds: nat, message: Bytes, have: set<Bytes>, need: set<Bytes>)
    requires Honest(me, peer) && InSession(me, peer, rounds, message, have, need)
    ensures Reply(peer, message).Ok?
    ensures var out := NegProtocol.Reconcile(me, Reply(peer, message).value);
            && out.Ok?
            && var have', need' := have + (set id | id in out.value.have), need + (set id | id in out.value.need);
               if out.value.nextMessage.Some?
               then InSession(me, peer, rounds + 1, out.value.nextMessage.value, have', need')
               else have' == IdSet(me.items) - IdSet(peer.items) && need' == IdSet(peer.items) - IdSet(me.items)
  {
    var s := After(me, peer, rounds);
    AfterInFlight(me, peer, rounds);
    ReconcileAnswers(peer, me, s.report, s.message);
    var reply := Answer(peer, s.message).out;
    assert Fits(peer, reply) && Fits(me, Answer(me, reply).out);
    RoundInFlight(me, peer, s);
    assert Packet([]) == [PROTOCOL_VERSION];
    assert Reply(peer, message) == Ok(Packet(reply));
    ReconcileAnswers(me, peer, s.report, reply);
    AfterInFlight(me, peer, rounds + 1);
    if After(me, peer, rounds + 1).message == [] {
      NothingInFlight(me, peer, After(me, peer, rounds + 1).report);
    }
  }

  /** A session that still has something to send is in one of its first rounds. */
  lemma SessionShort(me: Side, peer: Side, rounds: nat, message: Bytes, have: set<Bytes>, need: set<Bytes>)
    requires Honest(me, peer) && InSession(me, peer, rounds, message, have, need)
    ensures rounds < MaxRounds(me, peer) <= 14
  {
    SessionExact(me, peer);
    RoundsFew(me, peer);
    if MaxRounds(me, peer) <= rounds {
      StaysEmpty(me, peer, MaxRounds(me, peer), rounds);
    }
  }

  lemma {:induction false} StaysEmpty(me: Side, peer: Side, k: nat, n: nat)
    requires k <= n && After(me, peer, k).message == []
    ensures After(me, peer, n).message == []
    decreases n - k
  {
    if k < n {
      EmptyRound(me, peer, After(me, peer, k));
      StaysEmpty(me, peer, k + 1, n);
    }
  }

  lemma EmptyRound(me: Side, peer: Side, s: Session)
    requires s.message == []
    ensures Round(me, peer, s).message == []
  {
  }

  function Remaining(hash: Hash, items: seq<NegItem>, from: nat): Range
    requires from <= |items|
  {
    Range(NegItem(INFINITY, []), Fingerprint(DigestOf(hash, items[from..])))
  }

  /** A range answered apart: its reaction and bytes, for the turn it amounts to. */
  ghost predicate Answering(r: Result<(Reaction, Bytes), NegError>, lastOut: int, unread: Bytes, lastIn: int,
                            side: Side, p: Progress, t: Result<Turn, NegError>)
    requires EncodeRanges(p.out).Ok?
  {
    match t
    case Err(e) => r == Err(e)
    case Ok(turn) =>
      && r.Ok? && r.value.0.index <= |side.items|
      && unread == turn.rest && lastIn == turn.last
      && turn.p == Progress(r.value.0.bound, r.value.0.index, r.value.0.skip, turn.p.out,
                            p.have + r.value.0.have, p.need + r.value.0.need)
      && turn.full == ExceedsFrame(side.frameSizeLimit, 1 + |EncodeRanges(p.out).value + r.value.1|)
      && (if turn.full then turn.p.out == p.out + [Remaining(side.hash, side.items, r.value.0.index)]
          else EncodeRanges(turn.p.out) == Ok(EncodeRanges(p.out).value + r.value.1)
               && LastTimestamp(turn.p.out) == lastOut)
  }

  /** Result, output and read state of a turn, for the turn it stands for. */
  ghost predicate Turned(r: Result<(Reaction, bool), NegError>, bytes: Bytes, lastOut: int, unread: Bytes, lastIn: int,
                         p: Progress, t: Result<Turn, NegError>) {
    match t
    case Err(e) => r == Err(e)
    case Ok(turn) =>
      && r.Ok? && r.value.1 == turn.full
      && turn.p == Progress(r.value.0.bound, r.value.0.index, r.value.0.skip, turn.p.out,
                            p.have + r.value.0.have, p.need + r.value.0.need)
      && (!turn.full ==> unread == turn.rest && lastIn == turn.last && lastOut == LastTimestamp(turn.p.out))
      && EncodeRanges(turn.p.out).Ok? && bytes == [PROTOCOL_VERSION] + EncodeRanges(turn.p.out).value
  }

  /** Result and output of the range loop, for the progress it stands for. */
  ghost predicate Reconciled(r: Result<(seq<Bytes>, seq<Bytes>), NegError>, bytes: Bytes,
                             p: Result<Progress, NegError>) {
    match p
    case Err(e) => r == Err(e)
    case Ok(q) =>
      match EncodeRanges(q.out)
      case Err(e) => r == Err(e)
      case Ok(body) => r == Ok((q.have, q.need)) && bytes == [PROTOCOL_VERSION] + body
  }

  /** What the next round of the range loop does to the progress and the output. */
  lemma NextRange(side: Side, unread: Bytes, last: int, p: Progress, r: Result<Reaction, NegError>, o: Bytes,
                  lastOut: int,
                  rest: Bytes, lastIn: int)
    requires p.prevIndex <= |side.items| && EncodeRanges(p.out).Ok?
    requires match DecodeRange(unread, last)
             case Err(e) => r == Err(e)
             case Ok((range, _)) =>
               var a := React(side, p.prevBound, p.prevIndex, p.skip, range);
               Sent(r, o, a.out, LastTimestamp(p.out), lastOut) && (r.Ok? ==> r == Ok(a.(out := [])))
    requires r.Ok? ==> rest == DecodeRange(unread, last).value.1 && lastIn == DecodeRange(unread, last).value.0.bound.timestamp
    ensures Answering(if r.Err? then Err(r.error) else Ok((r.value, o)), lastOut, rest, lastIn, side, p, NextTurn(side, unread, last, p))
  {
    var d := DecodeRange(unread, last);
    if d.Ok? {
      EncodeAppend(p.out, React(side, p.prevBound, p.prevIndex, p.skip, d.value.0).out, 0);
    }
  }

  /** An infinite bound is sent the same way, without an error, whatever was sent before. */
  lemma RemainingSent(r: Range, out: seq<Range>, last: int)
    requires r.bound == NegItem(INFINITY, []) && r.payload.Fingerprint? && EncodeRanges(out).Ok?
    ensures EncodeRanges([r], last).Ok? && EncodeRanges(out + [r]).Ok?
    ensures [PROTOCOL_VERSION] + EncodeRanges(out + [r]).value
            == [PROTOCOL_VERSION] + EncodeRanges(out).value + EncodeRanges([r], last).value
  {
    WroteOne(r, last);
    EncodeSnoc(out, r, 0);
    Associates([PROTOCOL_VERSION], EncodeRanges(out).value, EncodeRange(r, last).value);
  }

  /** Ranges written to an empty buffer, or the error of writing them. */
  ghost predicate Sent<T>(r: Result<T, NegError>, bytes: Bytes, ranges: seq<Range>, last: int, last': int) {
    match EncodeRanges(ranges, last)
    case Ok(sent) => r.Ok? && bytes == sent && last' == LastTimestamp(ranges, last)
    case Err(e) => r == Err(e)
  }

  lemma NothingSent<T>(r: Result<T, NegError>, last: int)
    requires r.Ok?
    ensures Sent(r, [], [], last, last)
  {
  }

  lemma SentBoth(r: Result<(), NegError>, bytes: Bytes, a: seq<Range>, b: seq<Range>, last: int, last': int)
    requires Wrote(r, [], bytes, a, last, last')
    ensures r.Err? ==> EncodeRanges(a + b, last) == Err(r.error)
  {
    EncodeAppend(a, b, last);
  }

  lemma SentMore(r: Result<(), NegError>, middle: Bytes, bytes: Bytes, a: seq<Range>, b: seq<Range>, last: int,
                 last': int, last'': int)
    requires Wrote(Ok(()), [], middle, a, last, last')
    requires Wrote(r, middle, bytes, b, last', last'')
    ensures Sent(r, bytes, a + b, last, last'')
  {
    EncodeAppend(a, b, last);
    if EncodeRanges(a, last).Ok? {
      assert [] + EncodeRanges(a, last).value == EncodeRanges(a, last).value;
    }
  }

  /** The first ids are read; `left` more are to come from `rest`. */
  ghost predicate ReadsIds(bytes: Bytes, n: nat, ids: seq<Bytes>, rest: Bytes, left: nat) {
    match DecodeIds(rest, left)
    case Ok((more, rest')) => DecodeIds(bytes, n) == Ok((ids + more, rest'))
    case Err(e) => DecodeIds(bytes, n) == Err(e)
  }

  lemma ReadsOneId(bytes: Bytes, n: nat, ids: seq<Bytes>, rest: Bytes, left: nat)
    requires left > 0 && ReadsIds(bytes, n, ids, rest, left)
    ensures |rest| >= ID_SIZE ==> ReadsIds(bytes, n, ids + [rest[..ID_SIZE]], rest[ID_SIZE..], left - 1)
  {
    if |rest| >= ID_SIZE {
      var d := DecodeIds(rest[ID_SIZE..], left - 1);
      if d.Ok? {
        Associates(ids, [rest[..ID_SIZE]], d.value.0);
      }
    }
  }

  lemma DistinctSnoc(ids: seq<Bytes>, e: Bytes)
    ensures Distinct(ids + [e]) == if e in Distinct(ids) then Distinct(ids) else Distinct(ids) + [e]
  {
    assert (ids + [e])[..|ids|] == ids;
  }

  lemma {:induction false} SharedIs(a: Bytes, b: Bytes, n: nat)
    requires n <= |a| == |b| && a[..n] == b[..n] && (n < |a| ==> a[n] != b[n])
    ensures Shared(a, b) == n
  {
    if n > 0 {
      assert a[0] == a[..n][0] == b[..n][0] == b[0];
      assert a[1..][..n - 1] == a[..n][1..] && b[1..][..n - 1] == b[..n][1..];
      SharedIs(a[1..], b[1..], n - 1);
    }
  }

  lemma WroteNone(before: Bytes, all: seq<Range>, last: int)
    ensures Wrote(Ok(()), before, before, all[..0], last, last)
  {
    assert all[..0] == [] && before + [] == before;
  }

  lemma FirstStart(n: nat)
    ensures BucketStart(n, 0) == 0
  {
  }

  lemma SplitCount(hash: Hash, items: seq<NegItem>, lower: nat, upper: nat, upperBound: Bound)
    requires lower + ID_LIST_THRESHOLD <= upper <= |items|
    ensures |Split(hash, items, lower, upper, upperBound)| == BUCKETS
  {
  }

  lemma {:induction false} BucketAt(hash: Hash, items: seq<NegItem>, cuts: seq<nat>, upper: nat, upperBound: Bound,
                                    k: nat, i: nat)
    requires i < k < |cuts| && Rising(cuts) && cuts[k] <= upper <= |items|
    ensures Buckets(hash, items, cuts, upper, upperBound, k)[i] == Bucket(hash, items, cuts[i], cuts[i + 1], upper, upperBound)
  {
    if i < k - 1 {
      BucketAt(hash, items, cuts, upper, upperBound, k - 1, i);
    }
  }

  /** One range more is written, or the error of writing it is the error of writing them all. */
  lemma WroteNext(before: Bytes, middle: Bytes, after: Bytes, all: seq<Range>, i: nat, last: int, last': int,
                  last'': int, r: Result<(), NegError>)
    requires i < |all|
    requires Wrote(Ok(()), before, middle, all[..i], last, last')
    requires Wrote(r, middle, after, [all[i]], last', last'')
    ensures r.Ok? ==> Wrote(r, before, after, all[..i + 1], last, last'')
    ensures r.Err? ==> EncodeRanges(all, last) == Err(r.error) && Wrote(r, before, after, all, last, last'')
  {
    assert all[..i + 1] == all[..i] + [all[i]];
    EncodeAppend(all[..i], [all[i]], last);
    if r.Ok? {
      Associates(before, EncodeRanges(all[..i], last).value, EncodeRanges([all[i]], last').value);
    } else {
      assert all == all[..i + 1] + all[i + 1..];
      EncodeAppend(all[..i + 1], all[i + 1..], last);
    }
  }

  lemma ConcatSnoc(ids: seq<Bytes>, k: nat)
    requires k < |ids|
    ensures Concat(ids[..k + 1]) == Concat(ids[..k]) + ids[k]
  {
    assert ids[..k + 1] == ids[..k] + [ids[k]];
    ConcatAppend(ids[..k], [ids[k]]);
    assert [ids[k]][1..] == [];
    assert ids[k] + [] == ids[k];
  }
}
