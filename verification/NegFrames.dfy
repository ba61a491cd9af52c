/**
 * What a frame limit does to a NIP-77 session (src/nips/nip77.ts): an answer that does not fit is cut short, and the
 * session can end too early.
 */
module NegFrames {
  import opened Results
  import opened NegTypes
  import opened Octets
  import opened NegCodec
  import opened NegProtocol
  import opened NegStorage
  import opened NegTiling
  import opened NegWire
  import opened NegExact
  import opened NegSession

  /** A range that can be sent makes up a packet of its own. */
  lemma LonePacket(r: Range)
    requires SendableBound(r.bound, 0) && SendablePayload(r.payload)
    ensures EncodeRanges([r]).Ok? && EncodeRange(r, 0) == EncodeRanges([r])
    ensures Packet([r]) == [PROTOCOL_VERSION] + EncodeRanges([r]).value && EncodeRanges([r]).value != []
    ensures DecodeRange(EncodeRanges([r]).value, 0) == Ok((r, []))
  {
    hide EncodeRange, DecodeRange, SendableBound, SendablePayload, EncodeRanges;
    RangeRoundTrip(r, 0, []);
    WroteOne(r, 0);
    EmptyBody([r]);
    var bytes := EncodeRange(r, 0).value;
    assert bytes + [] == bytes;
  }

  lemma LoneBody(side: Side, r: Range)
    requires SendableBound(r.bound, 0) && SendablePayload(r.payload)
    requires EncodeRanges(Step(side, NOTHING_YET, r).out).Ok? && EncodeRanges([r]).Ok?
    ensures
      && var p := Step(side, NOTHING_YET, r);
      && ReconcileBody(side, EncodeRanges([r]).value, 0, NOTHING_YET) ==
           Ok(if Fits(side, p.out) then p else Truncated(side, NOTHING_YET, p))
  {
    hide Step, Truncated, EncodeRange, DecodeRange, SendableBound, SendablePayload, EncodeRanges;
    LonePacket(r);
  }

  /** What `reconcile` makes of a message of one range. */
  lemma LoneRange(side: Side, r: Range)
    requires side.isSealed && SendableBound(r.bound, 0) && SendablePayload(r.payload)
    requires EncodeRanges(Step(side, NOTHING_YET, r).out).Ok?
    ensures
      && var p := Step(side, NOTHING_YET, r);
      && NegProtocol.Reconcile(side, Packet([r])) ==
           Conclude(if Fits(side, p.out) then p else Truncated(side, NOTHING_YET, p))
  {
    hide Step, Truncated, Conclude, EncodeRange, DecodeRange, SendableBound, SendablePayload, EncodeRanges,
      ReconcileBody, Fits;
    LonePacket(r);
    LoneBody(side, r);
    assert Packet([r])[1..] == EncodeRanges([r]).value;
  }

  /** The one range that carries all ids of a side takes up more than 32 bytes for each. */
  lemma ListLong(items: seq<NegItem>)
    requires ValidItems(items)
    ensures
      && var out := [Range(NegItem(INFINITY, []), IdList(Ids(items)))];
      && EncodeRanges(out).Ok? && |Packet(out)| > 32 * |items|
  {
    var r := Range(NegItem(INFINITY, []), IdList(Ids(items)));
    assert [r][..0] == [];
    if items != [] {
      ConcatAt(Ids(items), 0);
    }
    hide EncodeBound, VarInt, Concat, Ids;
    RangeRoundTrip(r, 0, []);
  }

  /** The answer of a side that cannot fit its ids into a frame. */
  lemma CutShort(side: Side)
    requires ValidItems(side.items) && side.isSealed && !side.initiator
    requires !Fits(side, [Range(NegItem(INFINITY, []), IdList(Ids(side.items)))])
    ensures
      && var all := Range(NegItem(INFINITY, []), Fingerprint(DigestOf(side.hash, [])));
      && NegProtocol.Reconcile(side, Packet([Range(NegItem(INFINITY, []), IdList([]))])) ==
           Ok(Outcome([], [], Some(Packet([all]))))
  {
    hide EncodeRanges, DigestOf;
    var r := Range(NegItem(INFINITY, []), IdList([]));
    var p := Step(side, NOTHING_YET, r);
    LowerBoundUnique(side.items, 0, r.bound, |side.items|);
    assert side.items[0..|side.items|] == side.items && side.items[|side.items|..] == [];
    assert p.out == [Range(r.bound, IdList(Ids(side.items)))] && p.have == [] && p.need == [];
    ListLong(side.items);
    LoneRange(side, r);
    FingerprintSendable(side);
    var all := Range(NegItem(INFINITY, []), Fingerprint(DigestOf(side.hash, [])));
    assert [] + [all] == [all];
    assert Truncated(side, NOTHING_YET, p).out == [all];
  }

  lemma FingerprintSendable(side: Side)
    ensures
      && var all := Range(NegItem(INFINITY, []), Fingerprint(DigestOf(side.hash, [])));
      && EncodeRanges([all]).Ok? && EncodeRanges([all]).value != [] && SendablePayload(all.payload)
  {
    var all := Range(NegItem(INFINITY, []), Fingerprint(DigestOf(side.hash, [])));
    assert [all][..0] == [];
    RangeRoundTrip(all, 0, []);
  }

  /**
   * With a frame limit on the other side a session can end without a difference that there is: an empty side opens,
   * the other cannot fit its ids into a frame and sends a fingerprint of what comes after them, which is of nothing,
   * and so is that of the empty side.
   */
  lemma FrameLoses(me: Side, peer: Side)
    requires me.items == [] && ValidItems(peer.items) && me.hash == peer.hash
    requires me.isSealed && peer.isSealed && me.initiator && !peer.initiator
    requires me.frameSizeLimit == 0 || me.frameSizeLimit >= 4096
    requires 0 < peer.frameSizeLimit <= 32 * |peer.items| + 200
    ensures
      && NegProtocol.Initiate(me).Ok?
      && Reply(peer, NegProtocol.Initiate(me).value).Ok?
      && NegProtocol.Reconcile(me, Reply(peer, NegProtocol.Initiate(me).value).value) == Ok(Outcome([], [], None))
    ensures peer.frameSizeLimit >= 4096 ==> IdSet(peer.items) - IdSet(me.items) != {}
  {
    hide NegProtocol.Reconcile, NegProtocol.Initiate, DigestOf, Packet, EncodeRanges, ValidItems, Ids;
    ListLong(peer.items);
    EmptyOpens(me);
    CutShort(peer);
    EmptyAgrees(me);
    if |peer.items| > 0 {
      assert peer.items[0].id in IdSet(peer.items) - IdSet(me.items);
    }
  }

  lemma EmptyOpens(me: Side)
    requires me.items == [] && me.isSealed
    ensures NegProtocol.Initiate(me) == Ok(Packet([Range(NegItem(INFINITY, []), IdList([]))]))
  {
    hide EncodeRanges, Packet;
    var r := Range(NegItem(INFINITY, []), IdList([]));
    assert me.items[0..0] == [] && Ids([]) == [];
    assert Split(me.hash, me.items, 0, 0, r.bound) == [r];
    LonePacket(r);
  }

  lemma EmptyAgrees(me: Side)
    requires me.items == [] && me.isSealed && (me.frameSizeLimit == 0 || me.frameSizeLimit >= 4096)
    ensures
      && var all := Range(NegItem(INFINITY, []), Fingerprint(DigestOf(me.hash, [])));
      && NegProtocol.Reconcile(me, Packet([all])) == Ok(Outcome([], [], None))
  {
    hide DigestOf;
    var all := Range(NegItem(INFINITY, []), Fingerprint(DigestOf(me.hash, [])));
    assert me.items[0..0] == [];
    FingerprintSendable(me);
    assert Step(me, NOTHING_YET, all).out == [];
    LoneRange(me, all);
  }

  /** The answer of a side that can. */
  lemma AllSent(side: Side)
    requires ValidItems(side.items) && side.isSealed && !side.initiator
    requires Fits(side, [Range(NegItem(INFINITY, []), IdList(Ids(side.items)))])
    ensures NegProtocol.Reconcile(side, Packet([Range(NegItem(INFINITY, []), IdList([]))])) ==
      Ok(Outcome([], [], Some(Packet([Range(NegItem(INFINITY, []), IdList(Ids(side.items)))]))))
  {
    hide EncodeRanges;
    var r := Range(NegItem(INFINITY, []), IdList([]));
    var p := Step(side, NOTHING_YET, r);
    LowerBoundUnique(side.items, 0, r.bound, |side.items|);
    assert side.items[0..|side.items|] == side.items;
    var list := Range(r.bound, IdList(Ids(side.items)));
    assert p.out == [list] && p.have == [] && p.need == [];
    ListLong(side.items);
    LoneRange(side, r);
    EmptyBody([list]);
  }

  /** An empty side takes what it is told. */
  lemma EmptyStep(me: Side, list: Range)
    requires me.items == [] && me.initiator && list.payload.IdList?
    ensures Step(me, NOTHING_YET, list) == Progress(list.bound, 0, true, [], [], Distinct(list.payload.ids))
  {
    hide Distinct;
    assert me.items[0..0] == [];
    NoIds();
    assert [] + Distinct(list.payload.ids) == Distinct(list.payload.ids);
  }

  lemma EmptyLearns(me: Side, items: seq<NegItem>)
    requires me.items == [] && me.isSealed && me.initiator && (me.frameSizeLimit == 0 || me.frameSizeLimit >= 4096)
    requires ValidItems(items)
    ensures
      && var list := Range(NegItem(INFINITY, []), IdList(Ids(items)));
      && NegProtocol.Reconcile(me, Packet([list])) == Ok(Outcome([], Distinct(Ids(items)), None))
  {
    hide Ids, Distinct, SendablePayload, NegProtocol.Reconcile, Step;
    var list := Range(NegItem(INFINITY, []), IdList(Ids(items)));
    ListSendable(items);
    EmptyStep(me, list);
    LoneRange(me, list);
  }

  lemma NoIds()
    ensures Ids([]) == []
  {
  }

  lemma ListSendable(items: seq<NegItem>)
    requires ValidItems(items)
    ensures SendablePayload(IdList(Ids(items)))
  {
  }

  /** What the session of an empty side has found when it ends with the first answer. */
  ghost predicate Finds(me: Side, peer: Side, need: set<Bytes>) {
    && NegProtocol.Initiate(me).Ok? && Reply(peer, NegProtocol.Initiate(me).value).Ok?
    && var out := NegProtocol.Reconcile(me, Reply(peer, NegProtocol.Initiate(me).value).value);
    && out.Ok? && out.value.nextMessage.None? && out.value.have == [] && need == set id | id in out.value.need
  }

  /** The session of an empty side ends with the exact difference if and only if the ids of the other fit a frame. */
  lemma EmptyExactly(me: Side, peer: Side)
    requires me.items == [] && ValidItems(peer.items) && me.hash == peer.hash
    requires me.isSealed && peer.isSealed && me.initiator && !peer.initiator
    requires me.frameSizeLimit == 0 || me.frameSizeLimit >= 4096
    requires peer.frameSizeLimit == 0 || peer.frameSizeLimit >= 4096
    ensures Finds(me, peer, IdSet(peer.items)) <==>
      Fits(peer, [Range(NegItem(INFINITY, []), IdList(Ids(peer.items)))])
  {
    hide NegProtocol.Reconcile, NegProtocol.Initiate, DigestOf, Packet, EncodeRanges, ValidItems, Ids, Distinct;
    EmptyOpens(me);
    if Fits(peer, [Range(NegItem(INFINITY, []), IdList(Ids(peer.items)))]) {
      AllSent(peer);
      EmptyLearns(me, peer.items);
      DistinctSet(peer.items);
    } else {
      CutShort(peer);
      EmptyAgrees(me);
      if peer.items == [] {
        EmptyFits(peer);
      } else {
        assert peer.items[0].id in IdSet(peer.items);
      }
    }
  }

  lemma EmptyFits(side: Side)
    requires side.items == [] && (side.frameSizeLimit == 0 || side.frameSizeLimit >= 4096)
    ensures Fits(side, [Range(NegItem(INFINITY, []), IdList(Ids(side.items)))])
  {
    NoIds();
    WroteOne(Range(NegItem(INFINITY, []), IdList([])), 0);
  }

  lemma DistinctSet(items: seq<NegItem>)
    ensures (set id | id in Distinct(Ids(items))) == IdSet(items)
  {
    DistinctIds(Ids(items));
    forall id
      ensures id in Distinct(Ids(items)) <==> id in IdSet(items)
    {
    }
  }
}
