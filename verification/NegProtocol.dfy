/**
 * One side of a NIP-77 session as functions on values (src/nips/nip77.ts): splitting a range,
 * answering one range, and answering a whole message. The methods of NegSession are proved to
 * compute these functions.
 */
module NegProtocol {
  import opened Results
  import opened NegTypes
  import opened Octets
  import opened NegCodec
  import opened NegStorage

  /** A party: its items, whether they are sealed, and whether it opened the session. */
  datatype Side = Side(hash: Hash, items: seq<NegItem>, isSealed: bool, initiator: bool, frameSizeLimit: nat)

  function DigestOf(hash: Hash, items: seq<NegItem>): Bytes {
    FingerprintOf(hash, Ids(items))
  }

  // ---- splitting ----

  /** Length of the longest common prefix. */
  function Shared(a: Bytes, b: Bytes): (n: nat)
    ensures n <= |a| && n <= |b|
    ensures a[..n] == b[..n]
    ensures n < |a| && n < |b| ==> a[n] != b[n]
  {
    if a == [] || b == [] || a[0] != b[0] then 0 else 1 + Shared(a[1..], b[1..])
  }

  /** The shortest bound above prev and not above curr. */
  function MinimalBound(prev: NegItem, curr: NegItem): Bound {
    if curr.timestamp != prev.timestamp then NegItem(curr.timestamp, [])
    else
      var n := Shared(prev.id, curr.id);
      NegItem(curr.timestamp, if n < |curr.id| then curr.id[..n + 1] else curr.id)
  }

  /** Size of bucket i when n items go into the buckets: the remainder goes to the first ones. */
  function BucketSize(n: nat, i: nat): nat {
    n / 16 + if i < n % 16 then 1 else 0
  }

  /** How many of n items the first i buckets hold. */
  function BucketStart(n: nat, i: nat): nat {
    if i == 0 then 0 else BucketStart(n, i - 1) + BucketSize(n, i - 1)
  }

  lemma {:induction false} BucketStartClosed(n: nat, i: nat)
    ensures BucketStart(n, i) == (n / 16) * i + if i < n % 16 then i else n % 16
  {
    if i > 0 {
      BucketStartClosed(n, i - 1);
      assert (n / 16) * i == (n / 16) * (i - 1) + n / 16;
    }
  }

  /** The indices at which the items [lower, upper) are cut into buckets. */
  function Cuts(lower: nat, upper: nat): (cuts: seq<nat>)
    requires lower <= upper
    ensures |cuts| == BUCKETS + 1 && cuts[0] == lower
  {
    seq(BUCKETS + 1, i requires 0 <= i <= BUCKETS => lower + BucketStart(upper - lower, i))
  }

  ghost predicate Rising(cuts: seq<nat>) {
    forall i, j :: 0 <= i < j < |cuts| ==> cuts[i] < cuts[j]
  }

  lemma {:induction false} BucketStartRises(n: nat, i: nat, j: nat)
    requires i < j && n >= BUCKETS
    ensures BucketStart(n, i) < BucketStart(n, j)
  {
    if i < j - 1 {
      BucketStartRises(n, i, j - 1);
    }
  }

  /** The buckets take up all items, none is empty, and their sizes differ by at most one. */
  lemma CutsTile(lower: nat, upper: nat)
    requires lower + BUCKETS <= upper
    ensures var cuts := Cuts(lower, upper);
            && Rising(cuts) && cuts[BUCKETS] == upper
            && forall i :: 0 <= i < BUCKETS ==>
                 cuts[i + 1] == cuts[i] + BucketSize(upper - lower, i)
  {
    BucketStartClosed(upper - lower, BUCKETS);
    forall i, j | 0 <= i < j <= BUCKETS
      ensures Cuts(lower, upper)[i] < Cuts(lower, upper)[j]
    {
      BucketStartRises(upper - lower, i, j);
    }
  }

  /** The end of a bucket that stops at index cut: the given bound for the last one. */
  function BucketBound(items: seq<NegItem>, cut: nat, upper: nat, upperBound: Bound): Bound
    requires cut <= upper <= |items|
  {
    if 0 < cut < upper then MinimalBound(items[cut - 1], items[cut]) else upperBound
  }

  function Bucket(hash: Hash, items: seq<NegItem>, from: nat, to: nat, upper: nat, upperBound: Bound): Range
    requires from <= to <= upper <= |items|
  {
    Range(BucketBound(items, to, upper, upperBound), Fingerprint(DigestOf(hash, items[from..to])))
  }

  /** The ranges of the first k buckets. */
  function Buckets(hash: Hash, items: seq<NegItem>, cuts: seq<nat>, upper: nat, upperBound: Bound,
                   k: nat): (r: seq<Range>)
    requires k < |cuts| && Rising(cuts) && cuts[k] <= upper <= |items|
    ensures |r| == k
  {
    if k == 0 then []
    else
      Buckets(hash, items, cuts, upper, upperBound, k - 1)
      + [Bucket(hash, items, cuts[k - 1], cuts[k], upper, upperBound)]
  }

  /** What a side sends about its items [lower, upper): the ids themselves, or bucket fingerprints. */
  function Split(hash: Hash, items: seq<NegItem>, lower: nat, upper: nat, upperBound: Bound): seq<Range>
    requires lower <= upper <= |items|
  {
    if upper - lower < ID_LIST_THRESHOLD then [Range(upperBound, IdList(Ids(items[lower..upper])))]
    else
      CutsTile(lower, upper);
      Buckets(hash, items, Cuts(lower, upper), upper, upperBound, BUCKETS)
  }

  // ---- answering one range ----

  /** The ids without repeats, in order of first appearance. */
  function Distinct(ids: seq<Bytes>): seq<Bytes> {
    if ids == [] then []
    else
      var before := Distinct(ids[..|ids| - 1]);
      if ids[|ids| - 1] in before then before else before + [ids[|ids| - 1]]
  }

  function Without(ids: seq<Bytes>, id: Bytes): seq<Bytes> {
    if ids == [] then []
    else if ids[0] == id then Without(ids[1..], id)
    else [ids[0]] + Without(ids[1..], id)
  }

  /** Goes through our ids: those the peer did not list, and what is left of the peer's list. */
  function MatchIds(ours: seq<Bytes>, theirs: seq<Bytes>): (seq<Bytes>, seq<Bytes>) {
    if ours == [] then ([], theirs)
    else
      var (have, left) := MatchIds(ours[..|ours| - 1], theirs);
      var id := ours[|ours| - 1];
      if id in left then (have, Without(left, id)) else (have + [id], left)
  }

  /** The loop state of `reconcile`. */
  datatype Progress = Progress(
    prevBound: Bound,
    prevIndex: nat,
    skip: bool,
    out: seq<Range>,
    have: seq<Bytes>,
    need: seq<Bytes>
  )

  const NOTHING_YET: Progress := Progress(START, 0, false, [], [], [])

  /** The skip range that goes out before anything else when one is pending. */
  function Pending(skip: bool, prevBound: Bound): seq<Range> {
    if skip then [Range(prevBound, Skip)] else []
  }

  /** What answering one range adds to the loop state. */
  datatype Reaction = Reaction(
    bound: Bound,
    index: nat,
    skip: bool,
    out: seq<Range>,
    have: seq<Bytes>,
    need: seq<Bytes>
  )

  /** The range from prevBound to r.bound answered, our items of it starting at prevIndex. */
  function React(side: Side, prevBound: Bound, prevIndex: nat, skip: bool, r: Range): (a: Reaction)
    requires prevIndex <= |side.items|
    ensures a.index <= |side.items|
  {
    var upper := LowerBound(side.items, prevIndex, r.bound);
    var ours := side.items[prevIndex..upper];
    match r.payload
    case Skip => Reaction(r.bound, upper, true, [], [], [])
    case Fingerprint(digest) =>
      if digest == DigestOf(side.hash, ours) then Reaction(r.bound, upper, true, [], [], [])
      else
        Reaction(r.bound, upper, false,
                 Pending(skip, prevBound) + Split(side.hash, side.items, prevIndex, upper, r.bound), [], [])
    case IdList(ids) =>
      if side.initiator then
        var (have, need) := MatchIds(Ids(ours), Distinct(ids));
        Reaction(r.bound, upper, true, [], have, need)
      else
        Reaction(r.bound, upper, false, Pending(skip, prevBound) + [Range(r.bound, IdList(Ids(ours)))], [], [])
  }

  function Add(p: Progress, a: Reaction): Progress {
    Progress(a.bound, a.index, a.skip, p.out + a.out, p.have + a.have, p.need + a.need)
  }

  function Step(side: Side, p: Progress, r: Range): (p': Progress)
    requires p.prevIndex <= |side.items|
    ensures p'.prevIndex <= |side.items|
  {
    Add(p, React(side, p.prevBound, p.prevIndex, p.skip, r))
  }

  // ---- answering a message ----

  predicate ExceedsFrame(limit: nat, n: nat) {
    limit != 0 && n > limit - 200
  }

  /** Output cut short: one fingerprint for all items from `p'` on, up to infinity. */
  function Truncated(side: Side, p: Progress, p': Progress): Progress
    requires p'.prevIndex <= |side.items|
  {
    p'.(out := p.out + [Range(NegItem(INFINITY, []), Fingerprint(DigestOf(side.hash, side.items[p'.prevIndex..])))])
  }

  /** Where the range loop is after one more range: its progress, and whether the frame is full. */
  datatype Turn = Turn(p: Progress, rest: Bytes, last: int, full: bool)

  function NextTurn(side: Side, bytes: Bytes, last: int, p: Progress): (t: Result<Turn, NegError>)
    requires p.prevIndex <= |side.items|
    ensures t.Ok? ==> |t.value.rest| < |bytes| && t.value.p.prevIndex <= |side.items|
  {
    var (r, rest) :- DecodeRange(bytes, last);
    var p' := Step(side, p, r);
    var sent :- EncodeRanges(p'.out);
    var full := ExceedsFrame(side.frameSizeLimit, 1 + |sent|);
    Ok(Turn(if full then Truncated(side, p, p') else p', rest, r.bound.timestamp, full))
  }

  function ReconcileBody(side: Side, bytes: Bytes, last: int, p: Progress): Result<Progress, NegError>
    requires p.prevIndex <= |side.items|
    decreases |bytes|
  {
    if bytes == [] then Ok(p)
    else
      var t :- NextTurn(side, bytes, last, p);
      if t.full then Ok(t.p) else ReconcileBody(side, t.rest, t.last, t.p)
  }

  datatype Outcome = Outcome(have: seq<Bytes>, need: seq<Bytes>, nextMessage: Option<Bytes>)

  function Conclude(p: Progress): Result<Outcome, NegError> {
    var body :- EncodeRanges(p.out);
    Ok(Outcome(p.have, p.need, if body == [] then None else Some([PROTOCOL_VERSION] + body)))
  }

  /** A whole message answered, from bytes to bytes. */
  function Reconcile(side: Side, query: Bytes): Result<Outcome, NegError> {
    if query == [] then Err(ParseEndsPrematurely)
    else if query[0] < 0x60 || query[0] > 0x6f then Err(InvalidVersion)
    else if query[0] != PROTOCOL_VERSION then
      if side.initiator then Err(UnsupportedVersion) else Ok(Outcome([], [], Some([PROTOCOL_VERSION])))
    else if !side.isSealed then Err(NotSealed)
    else
      var p :- ReconcileBody(side, query[1..], 0, NOTHING_YET);
      Conclude(p)
  }

  /** The opening message, sent after a bound with timestamp `last` (0 in a new session). */
  function Initiate(side: Side, last: int := 0): Result<Bytes, NegError> {
    if !side.isSealed then Err(NotSealed)
    else
      var body :- EncodeRanges(Split(side.hash, side.items, 0, |side.items|, NegItem(INFINITY, [])), last);
      Ok([PROTOCOL_VERSION] + body)
  }

  /** All ranges of a message answered in turn. */
  function Answer(side: Side, message: seq<Range>): (p: Progress)
    ensures p.prevIndex <= |side.items|
  {
    if message == [] then NOTHING_YET
    else Step(side, Answer(side, message[..|message| - 1]), message[|message| - 1])
  }
}
