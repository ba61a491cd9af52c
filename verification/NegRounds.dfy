/**
 * Termination of NIP-77 reconciliation (src/nips/nip77.ts): each time a side splits a range, the
 * number of its own items per range falls sixteenfold, and ranges of few items are listed. The
 * rounds are counted, and the report is exact when they end.
 */
module NegRounds {
  import opened NegTypes
  import opened NegProtocol
  import opened NegTiling
  import opened NegExact
  import opened Sequences

  /** Every fingerprint range covers at most m of the items. */
  predicate DigestsWithin(items: seq<NegItem>, low: Bound, ranges: seq<Range>, m: nat) {
    ranges == [] ||
    var before, r := ranges[..|ranges| - 1], ranges[|ranges| - 1];
    && DigestsWithin(items, low, before, m)
    && (r.payload.Fingerprint? ==> |Slice(items, Last(low, before), r.bound)| <= m)
  }

  predicate NoDigests(ranges: seq<Range>) {
    ranges == [] || (NoDigests(ranges[..|ranges| - 1]) && !ranges[|ranges| - 1].payload.Fingerprint?)
  }

  lemma {:induction false} NoDigestsAppend(a: seq<Range>, b: seq<Range>)
    ensures NoDigests(a + b) <==> NoDigests(a) && NoDigests(b)
  {
    if b == [] {
      assert a + b == a;
    } else {
      var n := |b| - 1;
      NoDigestsAppend(a, b[..n]);
      assert (a + b)[..|a + b| - 1] == a + b[..n];
    }
  }

  lemma {:induction false} DigestsAppend(items: seq<NegItem>, low: Bound, a: seq<Range>, b: seq<Range>, m: nat)
    ensures DigestsWithin(items, low, a + b, m) <==> DigestsWithin(items, low, a, m) && DigestsWithin(items, Last(low, a), b, m)
  {
    if b == [] {
      assert a + b == a;
    } else {
      var n := |b| - 1;
      DigestsAppend(items, low, a, b[..n], m);
      assert (a + b)[..|a + b| - 1] == a + b[..n];
      assert Last(low, a + b[..n]) == Last(Last(low, a), b[..n]);
    }
  }

  lemma {:induction false} DigestsWeaken(items: seq<NegItem>, low: Bound, ranges: seq<Range>, m: nat, m': nat)
    requires DigestsWithin(items, low, ranges, m) && m <= m'
    ensures DigestsWithin(items, low, ranges, m')
  {
    if ranges != [] {
      DigestsWeaken(items, low, ranges[..|ranges| - 1], m, m');
    }
  }

  lemma {:induction false} NoDigestsWithin(items: seq<NegItem>, low: Bound, ranges: seq<Range>, m: nat)
    requires NoDigests(ranges)
    ensures DigestsWithin(items, low, ranges, m)
  {
    if ranges != [] {
      NoDigestsWithin(items, low, ranges[..|ranges| - 1], m);
    }
  }

  /** A smaller interval holds fewer items. */
  lemma SliceShrinks(items: seq<NegItem>, low: Bound, high: Bound, a: Bound, b: Bound)
    requires Sorted(items) && !Less(a, low) && !Less(high, b)
    ensures |Slice(items, a, b)| <= |Slice(items, low, high)|
  {
    CutFromCut(items, low, a);
    CutFromCut(items, b, high);
  }

  /** Ranges within an interval cover no more items, of either side, than the interval. */
  lemma {:induction false} TilesWithin(items: seq<NegItem>, hash: Hash, sender: seq<NegItem>, low: Bound,
                                       ranges: seq<Range>)
    requires Sorted(items) && Tiles(hash, sender, low, ranges)
    ensures DigestsWithin(items, low, ranges, |Slice(items, low, Last(low, ranges))|)
  {
    if ranges != [] {
      var before, r := ranges[..|ranges| - 1], ranges[|ranges| - 1];
      var last := Last(low, before);
      TilesRise(hash, sender, low, before, START);
      LessTotal(low, low);
      LessTotal(last, r.bound);
      LessTotal(r.bound, r.bound);
      TilesWithin(items, hash, sender, low, before);
      SliceShrinks(items, low, r.bound, low, last);
      DigestsWeaken(items, low, before, |Slice(items, low, last)|, |Slice(items, low, r.bound)|);
      SliceShrinks(items, low, r.bound, last, r.bound);
    }
  }

  // ---- splitting shrinks ----

  function Sixteenth(n: nat): nat {
    (n + 15) / 16
  }

  lemma {:induction false} BucketsShrink(hash: Hash, items: seq<NegItem>, low: Bound, high: Bound, cuts: seq<nat>,
                                         k: nat, m: nat)
    requires ValidItems(items) && ValidBound(high) && Less(low, high)
    requires k < |cuts| && Rising(cuts) && cuts[0] == Cut(items, low) < Cut(items, high) && cuts[k] <= Cut(items, high)
    requires forall i :: 0 <= i < k ==> cuts[i + 1] <= cuts[i] + m
    ensures DigestsWithin(items, low, Buckets(hash, items, cuts, Cut(items, high), high, k), m)
  {
    if k > 0 {
      var before := Buckets(hash, items, cuts, Cut(items, high), high, k - 1);
      BucketsShrink(hash, items, low, high, cuts, k - 1, m);
      BucketsTile(hash, items, low, high, cuts, k - 1);
      BucketsTile(hash, items, low, high, cuts, k);
      assert cuts[k - 1 + 1] <= cuts[k - 1] + m;
      var ranges := Buckets(hash, items, cuts, Cut(items, high), high, k);
      assert ranges[..|ranges| - 1] == before;
      assert Last(low, ranges) == ranges[k - 1].bound;
    }
  }

  lemma SizeIsSixteenth(n: nat, i: nat)
    ensures BucketSize(n, i) <= Sixteenth(n)
  {
  }

  /** A split of at most m own items has fingerprints of at most m/16 of them, and none below 32. */
  lemma SplitShrinks(hash: Hash, items: seq<NegItem>, low: Bound, high: Bound, m: nat)
    requires ValidItems(items) && ValidBound(high) && Less(low, high)
    requires Cut(items, low) <= Cut(items, high) <= Cut(items, low) + m
    ensures var ranges := Split(hash, items, Cut(items, low), Cut(items, high), high);
            && DigestsWithin(items, low, ranges, Sixteenth(m))
            && (m < ID_LIST_THRESHOLD ==> NoDigests(ranges))
  {
    var lower, upper := Cut(items, low), Cut(items, high);
    var ranges := Split(hash, items, lower, upper, high);
    if upper - lower < ID_LIST_THRESHOLD {
      assert ranges[..0] == [];
      NoDigestsWithin(items, low, ranges, Sixteenth(m));
    } else {
      var cuts, s := Cuts(lower, upper), Sixteenth(upper - lower);
      CutsTile(lower, upper);
      forall i | 0 <= i < BUCKETS
        ensures cuts[i + 1] <= cuts[i] + s
      {
        SizeIsSixteenth(upper - lower, i);
      }
      BucketsShrink(hash, items, low, high, cuts, BUCKETS, s);
      DigestsWeaken(items, low, ranges, s, Sixteenth(m));
    }
  }

  // ---- answering shrinks ----

  /** How far the output of a side has shrunk, given bounds m and n on the incoming ranges. */
  ghost predicate Shrunk(me: Side, peer: Side, out: seq<Range>, m: nat, n: nat) {
    && DigestsWithin(me.items, START, out, Sixteenth(m))
    && DigestsWithin(peer.items, START, out, n)
    && (m < ID_LIST_THRESHOLD ==> NoDigests(out))
  }

  lemma EmitShrinks(me: Side, peer: Side, p: Progress, ranges: seq<Range>, m: nat, n: nat)
    requires Shrunk(me, peer, p.out, m, n)
    requires !p.skip ==> Last(START, p.out) == p.prevBound
    requires DigestsWithin(me.items, p.prevBound, ranges, Sixteenth(m))
    requires DigestsWithin(peer.items, p.prevBound, ranges, n)
    requires m < ID_LIST_THRESHOLD ==> NoDigests(ranges)
    ensures Shrunk(me, peer, Emit(p, ranges), m, n)
  {
    var skip := Pending(p.skip, p.prevBound);
    var head := p.out + skip;
    Associates(p.out, skip, ranges);
    assert Last(START, head) == p.prevBound;
    assert NoDigests(skip) by {
      if p.skip {
        assert skip[..0] == [];
      }
    }
    NoDigestsWithin(me.items, Last(START, p.out), skip, Sixteenth(m));
    NoDigestsWithin(peer.items, Last(START, p.out), skip, n);
    DigestsAppend(me.items, START, p.out, skip, Sixteenth(m));
    DigestsAppend(peer.items, START, p.out, skip, n);
    NoDigestsAppend(p.out, skip);
    NoDigestsAppend(head, ranges);
    DigestsAppend(me.items, START, head, ranges, Sixteenth(m));
    DigestsAppend(peer.items, START, head, ranges, n);
  }

  lemma StepShrinks(me: Side, peer: Side, report: Report, p: Progress, r: Range, m: nat, n: nat)
    requires Parties(me, peer) && Answered(me, peer, report, p) && Incoming(me, peer, report, p, r)
    requires Shrunk(me, peer, p.out, m, n)
    requires r.payload.Fingerprint? ==> |Slice(me.items, p.prevBound, r.bound)| <= m && |Slice(peer.items, p.prevBound, r.bound)| <= n
    ensures Shrunk(me, peer, Step(me, p, r).out, m, n)
  {
    var low, high := p.prevBound, r.bound;
    LessTotal(low, high);
    CutFromCut(me.items, low, high);
    assert me.items[p.prevIndex..Cut(me.items, high)] == Slice(me.items, low, high);
    NothingAdded(p);
    match r.payload
    case Skip =>
    case Fingerprint(digest) =>
      if digest != DigestOf(me.hash, Slice(me.items, low, high)) {
        var ranges := Split(me.hash, me.items, p.prevIndex, Cut(me.items, high), high);
        SplitTiles(me.hash, me.items, low, high);
        SplitShrinks(me.hash, me.items, low, high, m);
        TilesWithin(peer.items, me.hash, me.items, low, ranges);
        DigestsWeaken(peer.items, low, ranges, |Slice(peer.items, low, high)|, n);
        EmitShrinks(me, peer, p, ranges, m, n);
      }
    case IdList(ids) =>
      if !me.initiator {
        var ranges := [Range(high, IdList(Ids(me.items[p.prevIndex..Cut(me.items, high)])))];
        assert ranges[..0] == [];
        NoDigestsWithin(me.items, low, ranges, Sixteenth(m));
        NoDigestsWithin(peer.items, low, ranges, n);
        EmitShrinks(me, peer, p, ranges, m, n);
      }
  }

  lemma {:induction false} AnswerShrinks(me: Side, peer: Side, report: Report, message: seq<Range>, m: nat, n: nat)
    requires Parties(me, peer)
    requires Tiles(peer.hash, peer.items, START, message)
    requires Sound(Opener(me, peer), Responder(me, peer), report)
    requires Covers(me, peer, report, message)
    requires DigestsWithin(me.items, START, message, m) && DigestsWithin(peer.items, START, message, n)
    ensures Shrunk(me, peer, Answer(me, message).out, m, n)
  {
    if message != [] {
      var before, r := message[..|message| - 1], message[|message| - 1];
      assert message == before + [r];
      LastRangeCovers(me, peer, report, before, r);
      AnswerShrinks(me, peer, report, before, m, n);
      AnswerKeeps(me, peer, report, before);
      AnswerReaches(me, before);
      StepShrinks(me, peer, report, Answer(me, before), r, m, n);
    }
  }

  /** Id lists end at the initiator, and stay id lists at the responder. */
  lemma {:induction false} ListsEnd(me: Side, message: seq<Range>)
    requires NoDigests(message)
    ensures me.initiator ==> Answer(me, message).out == []
    ensures NoDigests(Answer(me, message).out)
  {
    if message != [] {
      var before, r := message[..|message| - 1], message[|message| - 1];
      ListsEnd(me, before);
      ListsStep(me, Answer(me, before), r);
    }
  }

  lemma ListsStep(me: Side, p: Progress, r: Range)
    requires p.prevIndex <= |me.items| && !r.payload.Fingerprint?
    ensures me.initiator ==> Step(me, p, r).out == p.out
    ensures NoDigests(p.out) ==> NoDigests(Step(me, p, r).out)
  {
    NothingAdded(p);
    var a := React(me, p.prevBound, p.prevIndex, p.skip, r);
    assert Step(me, p, r).out == p.out + a.out;
    if r.payload.IdList? && !me.initiator {
      var skip := Pending(p.skip, p.prevBound);
      var list := [Range(r.bound, IdList(Ids(me.items[p.prevIndex..LowerBound(me.items, p.prevIndex, r.bound)])))];
      assert a.out == skip + list;
      assert list[..0] == [] && (p.skip ==> skip[..0] == []);
      NoDigestsAppend(skip, list);
      NoDigestsAppend(p.out, skip + list);
    } else {
      assert a.out == [];
    }
  }

  // ---- rounds ----

  datatype Session = Session(message: seq<Range>, report: Report)

  function Opening(opener: Side): Session {
    Session(Split(opener.hash, opener.items, 0, |opener.items|, NegItem(INFINITY, [])), Report({}, {}))
  }

  /** The responder answers the opener's message, and the opener the reply. */
  function Round(opener: Side, responder: Side, s: Session): Session {
    var p := Answer(opener, Answer(responder, s.message).out);
    Session(p.out, Reported(s.report, p))
  }

  function After(opener: Side, responder: Side, rounds: nat): Session {
    if rounds == 0 then Opening(opener) else Round(opener, responder, After(opener, responder, rounds - 1))
  }

  /** How often n items can be split until fewer than 32 are left per range. */
  function Levels(n: nat): nat {
    if n < 32 then 0 else 1 + Levels(Sixteenth(n))
  }

  function Power16(k: nat): nat {
    if k == 0 then 1 else 16 * Power16(k - 1)
  }

  lemma {:induction false} LevelsBelow(n: nat, k: nat)
    requires n <= 2 * Power16(k)
    ensures Levels(n) <= k
  {
    if n >= 32 {
      LevelsBelow(Sixteenth(n), k - 1);
    }
  }

  /** What is left of n items per range after k splits. */
  function Shrink(n: nat, k: nat): nat {
    if k == 0 then n else Sixteenth(Shrink(n, k - 1))
  }

  lemma {:induction false} ShrinkFirst(n: nat, k: nat)
    ensures Shrink(Sixteenth(n), k) == Shrink(n, k + 1)
  {
    if k > 0 {
      ShrinkFirst(n, k - 1);
    }
  }

  lemma {:induction false} LevelsSuffice(n: nat)
    ensures Shrink(n, Levels(n)) < ID_LIST_THRESHOLD
  {
    if n >= 32 {
      LevelsSuffice(Sixteenth(n));
      ShrinkFirst(n, Levels(Sixteenth(n)));
    }
  }

  /** Every fingerprint range of a message covers at most m items of the opener and n of the responder. */
  ghost predicate FlightWithin(opener: Side, responder: Side, message: seq<Range>, m: nat, n: nat) {
    && DigestsWithin(opener.items, START, message, m)
    && DigestsWithin(responder.items, START, message, n)
  }

  lemma OpeningWithin(opener: Side, responder: Side)
    requires Parties(opener, responder) && opener.initiator
    ensures FlightWithin(opener, responder, Opening(opener).message, Sixteenth(|opener.items|), |responder.items|)
    ensures |opener.items| < ID_LIST_THRESHOLD ==> NoDigests(Opening(opener).message)
  {
    var end := NegItem(INFINITY, []);
    CutsOfAll(opener.items);
    var message := Opening(opener).message;
    SplitShrinks(opener.hash, opener.items, START, end, |opener.items|);
    SplitTiles(opener.hash, opener.items, START, end);
    TilesWithin(responder.items, opener.hash, opener.items, START, message);
    DigestsWeaken(responder.items, START, message, |Slice(responder.items, START, end)|, |responder.items|);
  }

  /** The invariant passes through a round, and holds of the responder's reply on the way. */
  lemma RoundInFlight(opener: Side, responder: Side, s: Session)
    requires Parties(opener, responder) && opener.initiator
    requires InFlight(opener, responder, s.report, s.message)
    ensures InFlight(responder, opener, s.report, Answer(responder, s.message).out)
    ensures InFlight(opener, responder, Round(opener, responder, s).report, Round(opener, responder, s).message)
  {
    ReplyInFlight(opener, responder, s);
    AnswerInFlight(opener, responder, s.report, Answer(responder, s.message).out);
  }

  lemma ReportUnchanged(report: Report, p: Progress)
    requires p.have == [] && p.need == []
    ensures Reported(report, p) == report
  {
    assert Reported(report, p).have == report.have && Reported(report, p).need == report.need;
  }

  lemma ReplyInFlight(opener: Side, responder: Side, s: Session)
    requires Parties(opener, responder) && opener.initiator
    requires InFlight(opener, responder, s.report, s.message)
    ensures InFlight(responder, opener, s.report, Answer(responder, s.message).out)
  {
    AnswerInFlight(responder, opener, s.report, s.message);
    ResponderReportsNothing(responder, s.message);
    ReportUnchanged(s.report, Answer(responder, s.message));
  }

  /** In one round each side splits what it is asked about, or lists it. */
  lemma RoundWithin(opener: Side, responder: Side, s: Session, m: nat, n: nat)
    requires Parties(opener, responder) && opener.initiator
    requires InFlight(opener, responder, s.report, s.message)
    requires FlightWithin(opener, responder, s.message, m, n)
    ensures NoDigests(s.message) || n < ID_LIST_THRESHOLD ==> Round(opener, responder, s).message == []
    ensures FlightWithin(opener, responder, Round(opener, responder, s).message, Sixteenth(m), Sixteenth(n))
    ensures m < ID_LIST_THRESHOLD ==> NoDigests(Round(opener, responder, s).message)
  {
    var reply := Answer(responder, s.message).out;
    AnswerShrinks(responder, opener, s.report, s.message, n, m);
    RoundInFlight(opener, responder, s);
    AnswerShrinks(opener, responder, s.report, reply, m, Sixteenth(n));
    if NoDigests(s.message) {
      ListsEnd(responder, s.message);
    }
    if NoDigests(reply) {
      ListsEnd(opener, reply);
    }
  }

  lemma {:induction false} ResponderReportsNothing(me: Side, message: seq<Range>)
    requires !me.initiator
    ensures Answer(me, message).have == [] && Answer(me, message).need == []
  {
    if message != [] {
      ResponderReportsNothing(me, message[..|message| - 1]);
    }
  }

  lemma {:induction false} AfterInFlight(opener: Side, responder: Side, k: nat)
    requires Parties(opener, responder) && opener.initiator
    ensures var s := After(opener, responder, k); InFlight(opener, responder, s.report, s.message)
  {
    hide InFlight, NoCollision, SumsTell, IdsTimed, ValidItems;
    if k == 0 {
      InitiateInFlight(opener, responder);
    } else {
      AfterInFlight(opener, responder, k - 1);
      RoundInFlight(opener, responder, After(opener, responder, k - 1));
    }
  }

  lemma {:induction false} AfterWithin(opener: Side, responder: Side, k: nat)
    requires Parties(opener, responder) && opener.initiator
    ensures var message := After(opener, responder, k).message;
            && FlightWithin(opener, responder, message, Shrink(|opener.items|, k + 1), Shrink(|responder.items|, k))
            && (Shrink(|opener.items|, k) < ID_LIST_THRESHOLD ==> NoDigests(message))
  {
    hide Parties, FlightWithin, NoDigests, Answer, InFlight, Opening, Sixteenth;
    if k == 0 {
      OpeningWithin(opener, responder);
    } else {
      AfterWithin(opener, responder, k - 1);
      AfterInFlight(opener, responder, k - 1);
      RoundWithin(opener, responder, After(opener, responder, k - 1), Shrink(|opener.items|, k), Shrink(|responder.items|, k - 1));
    }
  }

  /** Once a side is down to id lists the next round is the last. */
  lemma RoundsEnd(opener: Side, responder: Side, k: nat)
    requires Parties(opener, responder) && opener.initiator
    requires Shrink(|opener.items|, k) < ID_LIST_THRESHOLD || Shrink(|responder.items|, k) < ID_LIST_THRESHOLD
    ensures After(opener, responder, k + 1).message == []
  {
    AfterWithin(opener, responder, k);
    AfterInFlight(opener, responder, k);
    RoundWithin(opener, responder, After(opener, responder, k), Shrink(|opener.items|, k + 1), Shrink(|responder.items|, k));
  }

  function Min(a: nat, b: nat): nat {
    if a <= b then a else b
  }

  /** How many rounds a session takes at most: one more than the side with fewer items can split. */
  function MaxRounds(opener: Side, responder: Side): nat {
    1 + Min(Levels(|opener.items|), Levels(|responder.items|))
  }

  /**
   * A session over any two sealed sides ends after at most MaxRounds rounds, with nothing left to
   * send, and then the report is exactly what each side lacks.
   */
  lemma SessionExact(opener: Side, responder: Side)
    requires Parties(opener, responder) && opener.initiator
    ensures var s := After(opener, responder, MaxRounds(opener, responder));
            && s.message == []
            && s.report.have == IdSet(opener.items) - IdSet(responder.items)
            && s.report.need == IdSet(responder.items) - IdSet(opener.items)
  {
    var k := MaxRounds(opener, responder) - 1;
    LevelsSuffice(|opener.items|);
    LevelsSuffice(|responder.items|);
    RoundsEnd(opener, responder, k);
    AfterInFlight(opener, responder, k + 1);
    NothingInFlight(opener, responder, After(opener, responder, k + 1).report);
  }

  /** Stores of fewer than 2^53 items stay far below the round limit. */
  lemma RoundsFew(opener: Side, responder: Side)
    requires |opener.items| <= MAX_SAFE_INTEGER || |responder.items| <= MAX_SAFE_INTEGER
    ensures MaxRounds(opener, responder) <= 14 < MAX_NEG_ROUNDS
  {
    assert 2 * Power16(13) == 0x20_0000_0000_0000;
    if |opener.items| <= MAX_SAFE_INTEGER {
      LevelsBelow(|opener.items|, 13);
    }
    if |responder.items| <= MAX_SAFE_INTEGER {
      LevelsBelow(|responder.items|, 13);
    }
  }
}
