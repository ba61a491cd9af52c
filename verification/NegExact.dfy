/**
 * Exactness of NIP-77 reconciliation (src/nips/nip77.ts): at every message in flight, each
 * difference between the two sides is already reported by the initiator or covered by a range of
 * the message that is not a skip. When the initiator has nothing left to send, every difference is
 * reported, and nothing else is.
 */
module NegExact {
  import opened NegTypes
  import opened Octets
  import opened NegProtocol
  import opened NegStorage
  import opened NegTiling
  import opened Sequences

  function IdSet(items: seq<NegItem>): set<Bytes> {
    set x | x in items :: x.id
  }

  /** An id stands for one item, so it determines the timestamp. */
  ghost predicate OneItemPerId(items: seq<NegItem>) {
    items == [] ||
    var before, last := items[..|items| - 1], items[|items| - 1];
    OneItemPerId(before) && forall x :: x in before && x.id == last.id ==> x == last
  }

  lemma {:induction false} OneItemPerIdMeans(items: seq<NegItem>)
    ensures OneItemPerId(items) <==> forall x, y :: x in items && y in items && x.id == y.id ==> x == y
  {
    if items != [] {
      var before, last := items[..|items| - 1], items[|items| - 1];
      OneItemPerIdMeans(before);
      assert items == before + [last];
      if forall x, y :: x in items && y in items && x.id == y.id ==> x == y {
        forall x | x in before && x.id == last.id
          ensures x == last
        {
          assert x in items && last in items;
        }
        forall x, y | x in before && y in before && x.id == y.id
          ensures x == y
        {
          assert x in items && y in items;
        }
      }
    }
  }

  /** Both sides agree on the item an id stands for. */
  ghost predicate IdsTimed(a: seq<NegItem>, b: seq<NegItem>) {
    OneItemPerId(a + b)
  }

  lemma SameItem(a: seq<NegItem>, b: seq<NegItem>, x: NegItem, y: NegItem)
    requires IdsTimed(a, b) || IdsTimed(b, a)
    requires (x in a || x in b) && (y in a || y in b) && x.id == y.id
    ensures x == y
  {
    OneItemPerIdMeans(a + b);
    OneItemPerIdMeans(b + a);
    assert x in a + b && y in a + b && x in b + a && y in b + a;
  }

  function Hashed(items: seq<NegItem>, low: Bound, high: Bound): Bytes {
    Summary(Ids(Slice(items, low, high)))
  }

  /** Of the byte strings that the two sides hash for one interval, no two collide in the bytes that are sent. */
  ghost predicate NoCollision(hash: Hash, a: seq<NegItem>, b: seq<NegItem>) {
    forall low, high :: hash(Hashed(a, low, high))[..FINGERPRINT_SIZE] == hash(Hashed(b, low, high))[..FINGERPRINT_SIZE]
      ==> Hashed(a, low, high) == Hashed(b, low, high)
  }

  /** As many ids of one interval with the same sum modulo 2^256 are the same ids. */
  ghost predicate SumsTell(a: seq<NegItem>, b: seq<NegItem>) {
    forall low, high :: |Slice(a, low, high)| == |Slice(b, low, high)| &&
      Sum(Ids(Slice(a, low, high))) % WRAP == Sum(Ids(Slice(b, low, high))) % WRAP
      ==> IdSet(Slice(a, low, high)) == IdSet(Slice(b, low, high))
  }

  /** So equal fingerprints of an interval are those of equal ids. */
  lemma Separates(hash: Hash, a: seq<NegItem>, b: seq<NegItem>, low: Bound, high: Bound)
    requires ValidItems(a) && ValidItems(b) && NoCollision(hash, a, b) && SumsTell(a, b)
    requires DigestOf(hash, Slice(a, low, high)) == DigestOf(hash, Slice(b, low, high))
    ensures IdSet(Slice(a, low, high)) == IdSet(Slice(b, low, high))
  {
    hide Sum, Summary, IdSet;
    var x, y := Ids(Slice(a, low, high)), Ids(Slice(b, low, high));
    assert Hashed(a, low, high) == Hashed(b, low, high);
    SummaryTells(x, y);
  }

  /** Two sides a session can be held between. */
  ghost predicate Parties(me: Side, peer: Side) {
    && ValidItems(me.items) && ValidItems(peer.items)
    && me.initiator != peer.initiator
    && me.hash == peer.hash
    && IdsTimed(Opener(me, peer), Responder(me, peer))
    && NoCollision(me.hash, Opener(me, peer), Responder(me, peer))
    && SumsTell(Opener(me, peer), Responder(me, peer))
  }

  /** What the initiator has reported so far. */
  datatype Report = Report(have: set<Bytes>, need: set<Bytes>)

  function Opener(me: Side, peer: Side): seq<NegItem> {
    if me.initiator then me.items else peer.items
  }

  function Responder(me: Side, peer: Side): seq<NegItem> {
    if me.initiator then peer.items else me.items
  }

  /** Nothing but true differences is reported. */
  ghost predicate Sound(opener: seq<NegItem>, responder: seq<NegItem>, report: Report) {
    && report.have <= IdSet(opener) - IdSet(responder)
    && report.need <= IdSet(responder) - IdSet(opener)
  }

  /** x is no difference, or it is reported. */
  ghost predicate Settled(opener: seq<NegItem>, responder: seq<NegItem>, report: Report, x: NegItem) {
    && (x in opener && x !in responder ==> x.id in report.have)
    && (x in responder && x !in opener ==> x.id in report.need)
  }

  ghost predicate Covered(opener: seq<NegItem>, responder: seq<NegItem>, report: Report, message: seq<Range>,
                          x: NegItem) {
    (x in opener || x in responder) ==> Settled(opener, responder, report, x) || Open(START, message, x)
  }

  /** The invariant of a message on its way from `sender` to `receiver`. */
  ghost predicate InFlight(sender: Side, receiver: Side, report: Report, message: seq<Range>) {
    var opener, responder := Opener(sender, receiver), Responder(sender, receiver);
    && Tiles(sender.hash, sender.items, START, message)
    && Sound(opener, responder, report)
    && forall x :: Covered(opener, responder, report, message, x)
  }

  function Reported(report: Report, p: Progress): Report {
    Report(report.have + (set id | id in p.have), report.need + (set id | id in p.need))
  }

  /** The loop invariant of `reconcile` after the ranges up to p.prevBound. */
  ghost predicate Answered(me: Side, peer: Side, report: Report, p: Progress) {
    var opener, responder := Opener(me, peer), Responder(me, peer);
    && p.prevIndex == Cut(me.items, p.prevBound)
    && Tiles(me.hash, me.items, START, p.out)
    && (if p.skip then Less(Last(START, p.out), p.prevBound) else Last(START, p.out) == p.prevBound)
    && (p.skip ==> ValidBound(p.prevBound))
    && Sound(opener, responder, Reported(report, p))
    && forall x :: Less(x, p.prevBound) ==> Covered(opener, responder, Reported(report, p), p.out, x)
  }

  // ---- output behind a pending skip ----

  function Emit(p: Progress, ranges: seq<Range>): seq<Range> {
    p.out + (Pending(p.skip, p.prevBound) + ranges)
  }

  /** What is emitted behind a pending skip keeps tiling, and keeps covering. */
  lemma EmitTiles(me: Side, p: Progress, ranges: seq<Range>, x: NegItem)
    requires Tiles(me.hash, me.items, START, p.out)
    requires if p.skip then Less(Last(START, p.out), p.prevBound) else Last(START, p.out) == p.prevBound
    requires p.skip ==> ValidBound(p.prevBound)
    requires Tiles(me.hash, me.items, p.prevBound, ranges)
    ensures Tiles(me.hash, me.items, START, Emit(p, ranges))
    ensures Last(START, Emit(p, ranges)) == Last(p.prevBound, ranges)
    ensures Open(START, Emit(p, ranges), x) <==> Open(START, p.out, x) || Open(p.prevBound, ranges, x)
  {
    var head := p.out + Pending(p.skip, p.prevBound);
    Associates(p.out, Pending(p.skip, p.prevBound), ranges);
    if p.skip {
      var r := Range(p.prevBound, Skip);
      TilesSnoc(me.hash, me.items, START, p.out, r);
      assert head[..|head| - 1] == p.out;
    } else {
      assert head == p.out;
    }
    TilesAppend(me.hash, me.items, START, head, ranges);
    OpenAppend(START, head, ranges, x);
  }

  // ---- id lists ----

  lemma {:induction false} DistinctIds(ids: seq<Bytes>)
    ensures forall id :: id in Distinct(ids) <==> id in ids
  {
    if ids != [] {
      var n := |ids| - 1;
      DistinctIds(ids[..n]);
      assert ids == ids[..n] + [ids[n]];
    }
  }

  lemma {:induction false} WithoutIds(ids: seq<Bytes>, id: Bytes)
    ensures forall k :: k in Without(ids, id) <==> k in ids && k != id
  {
    if ids != [] {
      WithoutIds(ids[1..], id);
    }
  }

  ghost predicate NoRepeats(ids: seq<Bytes>) {
    forall i, j :: 0 <= i < j < |ids| ==> ids[i] != ids[j]
  }

  /** Matching two lists finds exactly the ids that only one of them holds. */
  lemma {:induction false} MatchIdsExact(ours: seq<Bytes>, theirs: seq<Bytes>)
    requires NoRepeats(ours)
    ensures var (have, left) := MatchIds(ours, theirs);
            && (forall id :: id in have <==> id in ours && id !in theirs)
            && (forall id :: id in left <==> id in theirs && id !in ours)
  {
    if ours != [] {
      var n := |ours| - 1;
      MatchIdsExact(ours[..n], theirs);
      var (have, left) := MatchIds(ours[..n], theirs);
      WithoutIds(left, ours[n]);
      assert ours == ours[..n] + [ours[n]];
      assert ours[n] !in ours[..n];
    }
  }

  lemma IdsOf(items: seq<NegItem>)
    ensures forall id :: id in Ids(items) <==> id in IdSet(items)
  {
    forall id | id in IdSet(items)
      ensures id in Ids(items)
    {
      var x :| x in items && x.id == id;
      var i :| 0 <= i < |items| && items[i] == x;
      assert Ids(items)[i] == id;
    }
  }

  lemma SliceNoRepeats(a: seq<NegItem>, b: seq<NegItem>, low: nat, high: nat)
    requires Sorted(a) && (IdsTimed(a, b) || IdsTimed(b, a)) && low <= high <= |a|
    ensures NoRepeats(Ids(a[low..high]))
  {
    SortedPairs(a);
    forall i, j | 0 <= i < j < high - low
      ensures a[low..high][i].id != a[low..high][j].id
    {
      LessTotal(a[low + i], a[low + i]);
      assert a[low + i] in a && a[low + j] in a;
      if a[low + i].id == a[low + j].id {
        SameItem(a, b, a[low + i], a[low + j]);
      }
    }
  }

  /** The ids the initiator reports for one interval are the differences within it. */
  lemma ListReported(me: Side, peer: Side, low: Bound, high: Bound, x: NegItem)
    requires Parties(me, peer) && Less(low, high)
    ensures var mine, theirs := Slice(me.items, low, high), Slice(peer.items, low, high);
            var (have, need) := MatchIds(Ids(mine), Distinct(Ids(theirs)));
            && (set id | id in have) <= IdSet(me.items) - IdSet(peer.items)
            && (set id | id in need) <= IdSet(peer.items) - IdSet(me.items)
            && (Within(low, high, x) ==>
                  && (x in me.items && x !in peer.items ==> x.id in have)
                  && (x in peer.items && x !in me.items ==> x.id in need))
  {
    var mine, theirs := Slice(me.items, low, high), Slice(peer.items, low, high);
    LessTotal(low, high);
    CutFromCut(me.items, low, high);
    SliceNoRepeats(me.items, peer.items, Cut(me.items, low), Cut(me.items, high));
    DistinctIds(Ids(theirs));
    MatchIdsExact(Ids(mine), Distinct(Ids(theirs)));
    var (have, need) := MatchIds(Ids(mine), Distinct(Ids(theirs)));
    IdsOf(mine);
    IdsOf(theirs);
    OnlyHere(me.items, peer.items, low, high);
    OnlyHere(peer.items, me.items, low, high);
    SliceMembers(me.items, low, high, x);
    SliceMembers(peer.items, low, high, x);
  }

  /** An item is missing from a side exactly when it is missing from the side's interval around it. */
  lemma OnlyHere(a: seq<NegItem>, b: seq<NegItem>, low: Bound, high: Bound)
    requires Sorted(a) && Sorted(b) && (IdsTimed(a, b) || IdsTimed(b, a))
    ensures IdSet(Slice(a, low, high)) - IdSet(Slice(b, low, high)) <= IdSet(a) - IdSet(b)
    ensures forall x :: x in Slice(a, low, high) && x !in b ==> x.id !in IdSet(Slice(b, low, high))
  {
    forall id | id in IdSet(Slice(a, low, high)) && id !in IdSet(Slice(b, low, high))
      ensures id in IdSet(a) && id !in IdSet(b)
    {
      var x :| x in Slice(a, low, high) && x.id == id;
      SliceMembers(a, low, high, x);
      SliceMembers(b, low, high, x);
      forall y | y in b
        ensures y.id != id
      {
        if y.id == id {
          SameItem(a, b, x, y);
        }
      }
    }
    forall x | x in Slice(a, low, high) && x !in b
      ensures x.id !in IdSet(Slice(b, low, high))
    {
      SliceMembers(a, low, high, x);
      forall y | y in Slice(b, low, high)
        ensures y.id != x.id
      {
        SliceMembers(b, low, high, y);
        if y.id == x.id {
          SameItem(a, b, x, y);
        }
      }
    }
  }

  // ---- when sums tell sets apart ----

  lemma SliceIds(items: seq<NegItem>, low: Bound, high: Bound, other: seq<NegItem>)
    requires ValidItems(items) && (IdsTimed(items, other) || IdsTimed(other, items))
    ensures forall i, j :: 0 <= i < j < |Slice(items, low, high)| ==>
      Slice(items, low, high)[i].id != Slice(items, low, high)[j].id
    ensures forall x :: x in IdSet(Slice(items, low, high)) ==> |x| == ID_SIZE
  {
    var part := Slice(items, low, high);
    SortedPairs(items);
    hide Sorted, IdsTimed;
    var from := Cut(items, low);
    assert forall i :: 0 <= i < |part| ==> part[i] == items[from + i] && part[i] in items;
    hide Cut, Slice;
    forall i, j | 0 <= i < j < |part|
      ensures part[i].id != part[j].id
    {
      if part[i].id == part[j].id {
        SameItem(items, other, part[i], part[j]);
        LessTotal(part[i], part[j]);
      }
    }
  }

  lemma {:induction false} IdsOnce(items: seq<NegItem>)
    requires forall i, j :: 0 <= i < j < |items| ==> items[i].id != items[j].id
    ensures multiset(Ids(items)) == multiset(IdSet(items)) && |IdSet(items)| == |items|
  {
    if items != [] {
      var n := |items| - 1;
      IdsOnce(items[..n]);
      assert Ids(items) == Ids(items[..n]) + [items[n].id];
      assert IdSet(items) == IdSet(items[..n]) + {items[n].id};
      assert items[n].id !in IdSet(items[..n]);
    }
  }

  /** An id of the one part that is not in the other part is not on the other side at all. */
  lemma Missing(a: seq<NegItem>, b: seq<NegItem>, low: Bound, high: Bound, id: Bytes)
    requires ValidItems(a) && ValidItems(b) && (IdsTimed(a, b) || IdsTimed(b, a))
    requires id in IdSet(Slice(a, low, high)) && id !in IdSet(Slice(b, low, high))
    ensures id in IdSet(a) - IdSet(b)
  {
    var x :| x in Slice(a, low, high) && x.id == id;
    SliceMembers(a, low, high, x);
    if id in IdSet(b) {
      var y :| y in b && y.id == id;
      SameItem(a, b, x, y);
      SliceMembers(b, low, high, x);
    }
  }

  lemma SetWithout(some: set<Bytes>, id: Bytes)
    requires |some| <= 1 && id in some
    ensures some == {id}
  {
    assert |some - {id}| == 0;
  }

  /** Sets of one size that differ have an id each that the other lacks. */
  lemma BothLack(x: set<Bytes>, y: set<Bytes>) returns (u: Bytes, v: Bytes)
    requires |x| == |y| && x != y
    ensures u in x - y && v in y - x
  {
    assert x == x * y + (x - y) && y == x * y + (y - x);
    assert |x - y| == |y - x|;
    assert x - y != {} || y - x != {};
    u :| u in x - y;
    v :| v in y - x;
  }

  lemma OneMoreOf(some: set<Bytes>, x: Bytes)
    requires x !in some
    ensures multiset(some + {x}) == multiset(some) + multiset{x}
  {
    forall y
      ensures multiset(some + {x})[y] == (multiset(some) + multiset{x})[y]
    {
    }
  }

  lemma TakenOut(list: seq<Bytes>, x: Bytes) returns (rest: seq<Bytes>)
    requires x in multiset(list)
    ensures multiset(rest) == multiset(list) - multiset{x} && multiset(list) == multiset(rest) + multiset{x}
  {
    var i :| 0 <= i < |list| && list[i] == x;
    rest := list[..i] + list[i + 1..];
    assert list == list[..i] + [list[i]] + list[i + 1..];
  }

  /** Lists of as many ids, of which one each is not in the other, have different sums. */
  lemma SwappedOne(a: seq<Bytes>, b: seq<Bytes>, common: set<Bytes>, u: Bytes, v: Bytes)
    requires |u| == |v| == ID_SIZE && u != v && u !in common && v !in common
    requires multiset(a) == multiset(common + {u}) && multiset(b) == multiset(common + {v})
    ensures Sum(a) % WRAP != Sum(b) % WRAP
  {
    hide Sum;
    OneMoreOf(common, u);
    OneMoreOf(common, v);
    var rest := TakenOut(a, u);
    assert multiset(common) == multiset(common + {u}) - multiset{u};
    SumPermuted(a, rest + [u]);
    SumPermuted(b, rest + [v]);
    OneDiffers(rest, u, v);
  }

  lemma FewTell(a: seq<NegItem>, b: seq<NegItem>, low: Bound, high: Bound)
    requires ValidItems(a) && ValidItems(b) && IdsTimed(a, b)
    requires |IdSet(a) - IdSet(b)| <= 1 && |IdSet(b) - IdSet(a)| <= 1
    requires |Slice(a, low, high)| == |Slice(b, low, high)|
    requires Sum(Ids(Slice(a, low, high))) % WRAP == Sum(Ids(Slice(b, low, high))) % WRAP
    ensures IdSet(Slice(a, low, high)) == IdSet(Slice(b, low, high))
  {
    hide Sum, ValidItems, IdsTimed, IdSet, Slice;
    var x, y := Slice(a, low, high), Slice(b, low, high);
    SliceIds(a, low, high, b);
    SliceIds(b, low, high, a);
    IdsOnce(x);
    IdsOnce(y);
    if IdSet(x) != IdSet(y) {
      var u, v := BothLack(IdSet(x), IdSet(y));
      OnlyMissing(a, b, low, high, u);
      OnlyMissing(b, a, low, high, v);
      var common := IdSet(x) * IdSet(y);
      assert IdSet(x) == common + {u} && IdSet(y) == common + {v};
      SwappedOne(Ids(x), Ids(y), common, u, v);
    }
  }

  lemma OnlyMissing(a: seq<NegItem>, b: seq<NegItem>, low: Bound, high: Bound, id: Bytes)
    requires ValidItems(a) && ValidItems(b) && (IdsTimed(a, b) || IdsTimed(b, a)) && |IdSet(a) - IdSet(b)| <= 1
    requires id in IdSet(Slice(a, low, high)) - IdSet(Slice(b, low, high))
    ensures IdSet(Slice(a, low, high)) - IdSet(Slice(b, low, high)) == {id}
  {
    hide ValidItems, IdsTimed, IdSet, Slice;
    Missing(a, b, low, high, id);
    SetWithout(IdSet(a) - IdSet(b), id);
    forall other | other in IdSet(Slice(a, low, high)) - IdSet(Slice(b, low, high))
      ensures other == id
    {
      Missing(a, b, low, high, other);
    }
  }

  /** If each side lacks one id of the other at most, sums do tell sets apart, so nothing is assumed of them. */
  lemma FewDifferencesTell(a: seq<NegItem>, b: seq<NegItem>)
    requires ValidItems(a) && ValidItems(b) && IdsTimed(a, b)
    requires |IdSet(a) - IdSet(b)| <= 1 && |IdSet(b) - IdSet(a)| <= 1
    ensures SumsTell(a, b)
  {
    hide ValidItems, IdsTimed, IdSet, Sum, Slice;
    forall low, high | |Slice(a, low, high)| == |Slice(b, low, high)| &&
        Sum(Ids(Slice(a, low, high))) % WRAP == Sum(Ids(Slice(b, low, high))) % WRAP
      ensures IdSet(Slice(a, low, high)) == IdSet(Slice(b, low, high))
    {
      FewTell(a, b, low, high);
    }
  }

  // ---- one range ----

  /** Intervals with equal fingerprints hold no difference. */
  lemma EqualDigests(me: Side, peer: Side, low: Bound, high: Bound, x: NegItem)
    requires Parties(me, peer) && Less(low, high) && Within(low, high, x)
    requires DigestOf(me.hash, Slice(me.items, low, high)) == DigestOf(me.hash, Slice(peer.items, low, high))
    ensures x in me.items <==> x in peer.items
  {
    hide NoCollision, SumsTell, DigestOf;
    Separates(me.hash, Opener(me, peer), Responder(me, peer), low, high);
    LessTotal(low, high);
    CutFromCut(me.items, low, high);
    CutFromCut(peer.items, low, high);
    SliceMembers(me.items, low, high, x);
    SliceMembers(peer.items, low, high, x);
    if x in me.items {
      assert x.id in IdSet(Slice(me.items, low, high));
      var y :| y in Slice(peer.items, low, high) && y.id == x.id;
      SliceMembers(peer.items, low, high, y);
      SameItem(me.items, peer.items, x, y);
    }
    if x in peer.items {
      assert x.id in IdSet(Slice(peer.items, low, high));
      var y :| y in Slice(me.items, low, high) && y.id == x.id;
      SliceMembers(me.items, low, high, y);
      SameItem(me.items, peer.items, x, y);
    }
  }

  /** What the incoming range says about the items up to its bound. */
  ghost predicate Incoming(me: Side, peer: Side, report: Report, p: Progress, r: Range) {
    && Less(p.prevBound, r.bound) && ValidBound(r.bound)
    && Truthful(peer.hash, peer.items, p.prevBound, r)
    && (r.payload.Skip? ==> forall x :: Within(p.prevBound, r.bound, x) ==>
          Settled(Opener(me, peer), Responder(me, peer), report, x))
  }

  /** Answering a range keeps the invariant, for the items before the range and in it. */
  lemma StepKeeps(me: Side, peer: Side, report: Report, p: Progress, r: Range)
    requires Parties(me, peer) && Answered(me, peer, report, p) && Incoming(me, peer, report, p, r)
    ensures Answered(me, peer, report, Step(me, p, r))
  {
    var low, high := p.prevBound, r.bound;
    LessTotal(low, high);
    CutFromCut(me.items, low, high);
    assert me.items[p.prevIndex..Cut(me.items, high)] == Slice(me.items, low, high);
    NothingAdded(p);
    match r.payload
    case Skip => StepSkips(me, peer, report, p, r);
    case Fingerprint(digest) =>
      if digest == DigestOf(me.hash, Slice(me.items, low, high)) {
        StepSkips(me, peer, report, p, r);
      } else {
        SplitTiles(me.hash, me.items, low, high);
        StepEmits(me, peer, report, p, r, Split(me.hash, me.items, p.prevIndex, Cut(me.items, high), high));
      }
    case IdList(ids) =>
      if me.initiator {
        StepLists(me, peer, report, p, r);
      } else {
        IdsTile(me.hash, me.items, low, high);
        StepEmits(me, peer, report, p, r, [Range(high, IdList(Ids(me.items[p.prevIndex..Cut(me.items, high)])))]);
      }
  }

  lemma NothingAdded(p: Progress)
    ensures p.out + [] == p.out && p.have + [] == p.have && p.need + [] == p.need
  {
  }

  lemma StepSkips(me: Side, peer: Side, report: Report, p: Progress, r: Range)
    requires Parties(me, peer) && Answered(me, peer, report, p) && Incoming(me, peer, report, p, r)
    requires r.payload.Skip? ||
             (r.payload.Fingerprint? && r.payload.digest == DigestOf(me.hash, Slice(me.items, p.prevBound, r.bound)))
    ensures Answered(me, peer, report, p.(prevBound := r.bound, prevIndex := Cut(me.items, r.bound), skip := true))
  {
    var q := p.(prevBound := r.bound, prevIndex := Cut(me.items, r.bound), skip := true);
    SkipRises(p, r);
    var opener, responder := Opener(me, peer), Responder(me, peer);
    forall x | Less(x, q.prevBound)
      ensures Covered(opener, responder, Reported(report, q), q.out, x)
    {
      if Less(x, p.prevBound) {
        assert Covered(opener, responder, Reported(report, p), p.out, x);
      } else {
        assert Within(p.prevBound, r.bound, x);
        if r.payload.Skip? {
          assert Settled(opener, responder, report, x);
        } else {
          EqualDigests(me, peer, p.prevBound, r.bound, x);
        }
      }
    }
  }

  lemma SkipRises(p: Progress, r: Range)
    requires Less(p.prevBound, r.bound)
    requires if p.skip then Less(Last(START, p.out), p.prevBound) else Last(START, p.out) == p.prevBound
    ensures Less(Last(START, p.out), r.bound)
  {
    if p.skip {
      LessTotal(p.prevBound, r.bound);
      LessTransitive(Last(START, p.out), p.prevBound, r.bound);
    }
  }

  lemma StepEmits(me: Side, peer: Side, report: Report, p: Progress, r: Range, ranges: seq<Range>)
    requires Parties(me, peer) && Answered(me, peer, report, p) && Incoming(me, peer, report, p, r)
    requires Tiles(me.hash, me.items, p.prevBound, ranges) && Last(p.prevBound, ranges) == r.bound && NoSkip(ranges)
    ensures Answered(me, peer, report,
                     p.(prevBound := r.bound, prevIndex := Cut(me.items, r.bound), skip := false, out := Emit(p, ranges)))
  {
    var q := p.(prevBound := r.bound, prevIndex := Cut(me.items, r.bound), skip := false, out := Emit(p, ranges));
    EmitTiles(me, p, ranges, START);
    var opener, responder := Opener(me, peer), Responder(me, peer);
    forall x | Less(x, q.prevBound)
      ensures Covered(opener, responder, Reported(report, q), q.out, x)
    {
      EmitTiles(me, p, ranges, x);
      if Less(x, p.prevBound) {
        assert Covered(opener, responder, Reported(report, p), p.out, x);
      } else {
        OpenThroughout(me.hash, me.items, p.prevBound, ranges, x);
      }
    }
  }

  lemma StepLists(me: Side, peer: Side, report: Report, p: Progress, r: Range)
    requires Parties(me, peer) && Answered(me, peer, report, p) && Incoming(me, peer, report, p, r)
    requires me.initiator && r.payload.IdList?
    ensures var (have, need) := MatchIds(Ids(Slice(me.items, p.prevBound, r.bound)), Distinct(r.payload.ids));
            Answered(me, peer, report,
                     p.(prevBound := r.bound, prevIndex := Cut(me.items, r.bound), skip := true,
                        have := p.have + have, need := p.need + need))
  {
    var (have, need) := MatchIds(Ids(Slice(me.items, p.prevBound, r.bound)), Distinct(r.payload.ids));
    var q := p.(prevBound := r.bound, prevIndex := Cut(me.items, r.bound), skip := true,
                have := p.have + have, need := p.need + need);
    SkipRises(p, r);
    ListReported(me, peer, p.prevBound, r.bound, START);
    ReportGrows(report, p, q, have, need);
    forall x | Less(x, q.prevBound)
      ensures Covered(me.items, peer.items, Reported(report, q), q.out, x)
    {
      if Less(x, p.prevBound) {
        assert Covered(me.items, peer.items, Reported(report, p), p.out, x);
      } else {
        ListReported(me, peer, p.prevBound, r.bound, x);
      }
    }
  }

  lemma ReportGrows(report: Report, p: Progress, q: Progress, have: seq<Bytes>, need: seq<Bytes>)
    requires q.have == p.have + have && q.need == p.need + need
    ensures Reported(report, q).have == Reported(report, p).have + set id | id in have
    ensures Reported(report, q).need == Reported(report, p).need + set id | id in need
  {
  }

  // ---- a whole message ----

  /** A message covers every item up to its end. */
  ghost predicate Covers(me: Side, peer: Side, report: Report, message: seq<Range>) {
    forall x :: Less(x, Last(START, message)) ==>
      Covered(Opener(me, peer), Responder(me, peer), report, message, x)
  }

  /** Answering the ranges of a message that tell the truth keeps the invariant up to their end. */
  lemma {:induction false} AnswerKeeps(me: Side, peer: Side, report: Report, message: seq<Range>)
    requires Parties(me, peer)
    requires Tiles(peer.hash, peer.items, START, message)
    requires Sound(Opener(me, peer), Responder(me, peer), report)
    requires Covers(me, peer, report, message)
    ensures Answered(me, peer, report, Answer(me, message))
  {
    if message == [] {
      NothingBelowStart(me, peer, report);
    } else {
      var before, r := message[..|message| - 1], message[|message| - 1];
      assert message == before + [r];
      LastRangeCovers(me, peer, report, before, r);
      AnswerKeeps(me, peer, report, before);
      AnswerReaches(me, before);
      StepKeeps(me, peer, report, Answer(me, before), r);
    }
  }

  lemma AnswerReaches(me: Side, message: seq<Range>)
    ensures Answer(me, message).prevBound == Last(START, message)
  {
  }

  lemma LastRangeCovers(me: Side, peer: Side, report: Report, before: seq<Range>, r: Range)
    requires Tiles(peer.hash, peer.items, START, before) && Less(Last(START, before), r.bound)
    requires Covers(me, peer, report, before + [r])
    ensures Covers(me, peer, report, before)
    ensures r.payload.Skip? ==> forall x :: Within(Last(START, before), r.bound, x) ==>
              Settled(Opener(me, peer), Responder(me, peer), report, x)
  {
    forall x | Less(x, Last(START, before))
      ensures Covered(Opener(me, peer), Responder(me, peer), report, before, x)
    {
      RangeCovers(me, peer, report, before, r, x);
    }
    forall x | r.payload.Skip? && Within(Last(START, before), r.bound, x)
      ensures Settled(Opener(me, peer), Responder(me, peer), report, x)
    {
      RangeCovers(me, peer, report, before, r, x);
    }
  }

  /** What a covering message says about the items before its last range, and in it. */
  lemma RangeCovers(me: Side, peer: Side, report: Report, before: seq<Range>, r: Range, x: NegItem)
    requires Tiles(peer.hash, peer.items, START, before) && Less(Last(START, before), r.bound)
    requires Less(x, r.bound) ==> Covered(Opener(me, peer), Responder(me, peer), report, before + [r], x)
    ensures Less(x, Last(START, before)) ==> Covered(Opener(me, peer), Responder(me, peer), report, before, x)
    ensures r.payload.Skip? && Within(Last(START, before), r.bound, x) ==>
              Settled(Opener(me, peer), Responder(me, peer), report, x)
  {
    var low := Last(START, before);
    assert (before + [r])[..|before + [r]| - 1] == before;
    TilesRise(peer.hash, peer.items, START, before, x);
    if Less(x, low) {
      LessTotal(low, r.bound);
      LessTransitive(x, low, r.bound);
    }
  }

  lemma NothingBelowStart(me: Side, peer: Side, report: Report)
    requires Parties(me, peer) && Sound(Opener(me, peer), Responder(me, peer), report)
    ensures Answered(me, peer, report, NOTHING_YET)
  {
    hide NoCollision, SumsTell, IdsTimed, ValidItems, Sound, Less;
    assert Reported(report, NOTHING_YET) == report;
    NotBelowStart(me.items);
    NotBelowStart(peer.items);
    if |me.items| > 0 {
      assert !Less(me.items[0], START);
    }
  }

  lemma NotBelowStart(items: seq<NegItem>)
    requires ValidItems(items)
    ensures forall x :: x in items ==> !Less(x, START)
  {
  }

  /** The invariant passes from a message in flight to its answer. */
  lemma AnswerInFlight(me: Side, peer: Side, report: Report, message: seq<Range>)
    requires Parties(me, peer) && InFlight(peer, me, report, message)
    ensures InFlight(me, peer, Reported(report, Answer(me, message)), Answer(me, message).out)
  {
    AnswerKeeps(me, peer, report, message);
    AnswerReaches(me, message);
    var p := Answer(me, message);
    var opener, responder := Opener(me, peer), Responder(me, peer);
    forall x
      ensures Covered(opener, responder, Reported(report, p), p.out, x)
    {
      if !Less(x, p.prevBound) {
        assert Covered(opener, responder, report, message, x);
        TilesRise(peer.hash, peer.items, START, message, x);
      }
    }
  }

  /** The first and the last possible bound enclose all items. */
  lemma CutsOfAll(items: seq<NegItem>)
    requires ValidItems(items)
    ensures Cut(items, START) == 0 && Cut(items, NegItem(INFINITY, [])) == |items|
  {
    var end := NegItem(INFINITY, []);
    CutSeparates(items, START);
    CutSeparates(items, end);
    if |items| > 0 {
      assert !Less(items[0], START);
      assert Less(items[|items| - 1], end);
    }
  }

  /** The opening message covers everything. */
  lemma InitiateInFlight(me: Side, peer: Side)
    requires Parties(me, peer) && me.initiator
    ensures InFlight(me, peer, Report({}, {}), Split(me.hash, me.items, 0, |me.items|, NegItem(INFINITY, [])))
  {
    var end := NegItem(INFINITY, []);
    CutsOfAll(me.items);
    SplitTiles(me.hash, me.items, START, end);
    var message := Split(me.hash, me.items, 0, |me.items|, end);
    forall x
      ensures Covered(me.items, peer.items, Report({}, {}), message, x)
    {
      if x in me.items || x in peer.items {
        assert Within(START, end, x);
        OpenThroughout(me.hash, me.items, START, message, x);
      }
    }
  }

  /** With no range in flight every difference is reported: the report is exact. */
  lemma NothingInFlight(me: Side, peer: Side, report: Report)
    requires Parties(me, peer) && me.initiator && InFlight(me, peer, report, [])
    ensures report.have == IdSet(me.items) - IdSet(peer.items)
    ensures report.need == IdSet(peer.items) - IdSet(me.items)
  {
    forall id | id in IdSet(me.items) - IdSet(peer.items)
      ensures id in report.have
    {
      var x :| x in me.items && x.id == id;
      assert Covered(me.items, peer.items, report, [], x);
    }
    forall id | id in IdSet(peer.items) - IdSet(me.items)
      ensures id in report.need
    {
      var x :| x in peer.items && x.id == id;
      assert Covered(me.items, peer.items, report, [], x);
    }
  }
}
