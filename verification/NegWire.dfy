/**
 * From structured messages to bytes: answering the bytes of a message in flight gives the bytes of
 * its answer, without an error on the way (src/nips/nip77.ts).
 */
module NegWire {
  import opened Results
  import opened NegTypes
  import opened Octets
  import opened NegCodec
  import opened NegProtocol
  import opened NegTiling
  import opened NegExact
  import opened Sequences

  function Packet(ranges: seq<Range>): Bytes {
    match EncodeRanges(ranges)
    case Ok(body) => [PROTOCOL_VERSION] + body
    case Err(_) => [PROTOCOL_VERSION]
  }

  /** Output that does not fill the frame of its sender. */
  predicate Fits(side: Side, out: seq<Range>) {
    !ExceedsFrame(side.frameSizeLimit, |Packet(out)|)
  }

  /** Output that fits, without its last ranges. */
  lemma FitsBefore(side: Side, out: seq<Range>, more: seq<Range>)
    requires EncodeRanges(out + more).Ok? && Fits(side, out + more)
    ensures EncodeRanges(out).Ok? && Fits(side, out)
  {
    hide EncodeRanges;
    EncodeAppend(out, more, 0);
  }

  lemma OutputSendable(me: Side, peer: Side, report: Report, p: Progress)
    requires ValidItems(me.items) && Answered(me, peer, report, p)
    ensures EncodeRanges(p.out).Ok?
  {
    TilesSendable(me.hash, me.items, p.out);
    MessageRoundTrip(p.out, []);
  }

  /** Reading one range of an honest message performs one step. */
  lemma BodyStep(me: Side, p: Progress, r: Range, last: int, rest: Bytes)
    requires p.prevIndex <= |me.items|
    requires SendableBound(r.bound, last) && SendablePayload(r.payload)
    requires EncodeRanges(Step(me, p, r).out).Ok? && Fits(me, Step(me, p, r).out)
    ensures EncodeRange(r, last).Ok?
    ensures ReconcileBody(me, EncodeRange(r, last).value + rest, last, p)
            == ReconcileBody(me, rest, r.bound.timestamp, Step(me, p, r))
  {
    RangeRoundTrip(r, last, rest);
  }

  /** An honest message and its answer can both be sent. */
  lemma BothSendable(me: Side, peer: Side, report: Report, message: seq<Range>)
    requires Parties(me, peer)
    requires Tiles(peer.hash, peer.items, START, message)
    requires Sound(Opener(me, peer), Responder(me, peer), report) && Covers(me, peer, report, message)
    ensures Sendable(message) && EncodeRanges(Answer(me, message).out).Ok?
  {
    TilesSendable(peer.hash, peer.items, message);
    AnswerKeeps(me, peer, report, message);
    OutputSendable(me, peer, report, Answer(me, message));
  }

  /** After the bytes of some ranges, `reconcile` is where `Answer` is after the ranges. */
  lemma {:induction false} BodyAnswers(me: Side, peer: Side, report: Report, message: seq<Range>, rest: Bytes)
    requires Parties(me, peer) && Fits(me, Answer(me, message).out)
    requires Tiles(peer.hash, peer.items, START, message)
    requires Sound(Opener(me, peer), Responder(me, peer), report) && Covers(me, peer, report, message)
    ensures EncodeRanges(message).Ok?
    ensures ReconcileBody(me, EncodeRanges(message).value + rest, 0, NOTHING_YET)
            == ReconcileBody(me, rest, LastTimestamp(message), Answer(me, message))
  {
    if message == [] {
      assert [] + rest == rest;
    } else {
      var before, r := message[..|message| - 1], message[|message| - 1];
      LastSplit(message);
      LastRangeCovers(me, peer, report, before, r);
      BothSendable(me, peer, report, message);
      FitsBefore(me, Answer(me, before).out, React(me, Answer(me, before).prevBound, Answer(me, before).prevIndex,
                                                   Answer(me, before).skip, r).out);
      BodyStep(me, Answer(me, before), r, LastTimestamp(before), rest);
      var tail := EncodeRange(r, LastTimestamp(before)).value;
      BodyAnswers(me, peer, report, before, tail + rest);
      EncodeSnoc(before, r, 0);
      Associates(EncodeRanges(before).value, tail, rest);
    }
  }

  /** A range takes at least one byte, so only an empty body has no ranges. */
  lemma EmptyBody(ranges: seq<Range>)
    requires EncodeRanges(ranges).Ok?
    ensures EncodeRanges(ranges).value == [] <==> ranges == []
  {
  }

  /** What `reconcile` returns for the packet of a message in flight. */
  lemma ReconcileAnswers(me: Side, peer: Side, report: Report, message: seq<Range>)
    requires Parties(me, peer) && me.isSealed && Fits(me, Answer(me, message).out)
    requires InFlight(peer, me, report, message)
    ensures var p := Answer(me, message);
            Reconcile(me, Packet(message)) ==
            Ok(Outcome(p.have, p.need, if p.out == [] then None else Some(Packet(p.out))))
  {
    var p := Answer(me, message);
    BodyAnswers(me, peer, report, message, []);
    var body := EncodeRanges(message).value;
    assert body + [] == body;
    assert Packet(message)[1..] == body;
    AnswerKeeps(me, peer, report, message);
    OutputSendable(me, peer, report, p);
    EmptyBody(p.out);
  }

  /** The opening packet carries the opening message. */
  lemma InitiateOpens(me: Side, peer: Side)
    requires Parties(me, peer) && me.initiator && me.isSealed
    ensures Initiate(me) == Ok(Packet(Split(me.hash, me.items, 0, |me.items|, NegItem(INFINITY, []))))
  {
    InitiateInFlight(me, peer);
    var message := Split(me.hash, me.items, 0, |me.items|, NegItem(INFINITY, []));
    TilesSendable(me.hash, me.items, message);
    MessageRoundTrip(message, []);
  }
}
