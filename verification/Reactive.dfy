/**
 * The reactive store: cached watches over the in-memory index, invalidated write by write
 * (src/store/reactive.ts). A watch is a value under its handle; a new stamp is a new reference.
 */
module Reactive {
  import opened Results
  import opened Events
  import opened Ordered
  import opened Storage
  import opened StorageInvariants
  import opened StorageSteps
  import opened Filters
  import opened Listing
  import opened Items
  import opened ReactiveSpec
  import Mem = MemoryIndex

  type Handle = nat

  datatype Watch = Watch(
    kind: WatchKind,
    subscribers: set<nat>,
    snapshot: Snapshot,
    version: nat,
    dirty: bool,
    pendingRemove: bool,
    stamp: nat
  )

  predicate Subscribed(w: Watch) {
    w.subscribers != {}
  }

  // ---- coherence ----

  /** A read would hand out the snapshot as it is. */
  predicate UpToDate(w: Watch, version: nat) {
    if Subscribed(w) then !w.dirty else w.version == version
  }

  /** A dirty watch was last computed before the latest write. */
  predicate Clocked(w: Watch, version: nat) {
    w.version <= version && (w.dirty ==> w.version < version)
  }

  ghost predicate CoherentWatch(w: Watch, version: nat, s: Store)
    requires Filed(s)
  {
    && WellKeyed(w.kind) && Clocked(w, version)
    && (UpToDate(w, version) || w.version == version ==> w.snapshot == Compute(w.kind, s))
  }

  ghost predicate Coherent(watches: map<Handle, Watch>, version: nat, s: Store)
    requires Filed(s)
  {
    forall h :: h in watches ==> CoherentWatch(watches[h], version, s)
  }

  lemma CoherentAt(watches: map<Handle, Watch>, h: Handle, version: nat, s: Store)
    requires Filed(s) && Coherent(watches, version, s) && h in watches
    ensures CoherentWatch(watches[h], version, s)
  {
  }

  lemma CoherentWith(watches: map<Handle, Watch>, h: Handle, w: Watch, version: nat, s: Store)
    requires Filed(s) && Coherent(watches, version, s) && CoherentWatch(w, version, s)
    ensures Coherent(watches[h := w], version, s)
  {
  }

  function DirtyAll(watches: map<Handle, Watch>, marked: set<Handle>): map<Handle, Watch> {
    map h | h in watches :: if h in marked then watches[h].(dirty := true) else watches[h]
  }

  lemma DirtyTwice(watches: map<Handle, Watch>, a: set<Handle>, b: set<Handle>)
    ensures DirtyAll(DirtyAll(watches, a), b) == DirtyAll(watches, a + b)
    ensures DirtyAll(watches, {}) == watches
  {
  }

  lemma DirtyOne(watches: map<Handle, Watch>, h: Handle)
    requires h in watches
    ensures watches[h := watches[h].(dirty := true)] == DirtyAll(watches, {h})
    ensures DirtyAll(watches, {h}).Keys == watches.Keys
  {
  }

  lemma MoveOver(left: set<Handle>, done: set<Handle>, others: set<Handle>, h: Handle)
    requires h in left
    ensures left - {h} + (done + {h}) == left + done && others + done + {h} == others + (done + {h})
  {
  }

  /** Every subscribed watch that one of the events touches is marked. */
  ghost predicate MarksTouched(watches: map<Handle, Watch>, events: set<Event>, marked: set<Handle>) {
    forall h, e :: h in watches && Subscribed(watches[h]) && e in events && Touches(watches[h].kind, e) ==> h in marked
  }

  /** Marked are the registered watches that one of the events concerns, and no others. */
  ghost predicate MarksExactly(watches: map<Handle, Watch>, registered: set<Handle>, events: set<Event>,
                               marked: set<Handle>) {
    forall h :: h in marked <==> h in registered && h in watches && Concerned(watches[h].kind, events)
  }

  lemma ExactTouches(watches: map<Handle, Watch>, registered: set<Handle>, b: Filing, events: set<Event>,
                     marked: set<Handle>)
    requires Registered(watches, registered, b) && MarksExactly(watches, registered, events, marked)
    ensures MarksTouched(watches, events, marked) && marked <= watches.Keys
  {
    hide FiledAs, Touches, NamesTarget, Subscribed;
    forall h, e | h in watches && Subscribed(watches[h]) && e in events && Touches(watches[h].kind, e)
      ensures h in marked
    {
      assert Concerns(watches[h].kind, e) && Concerned(watches[h].kind, events);
    }
  }

  /** Waiting to be notified are those that waited before, and the registered ones that one of the events concerns. */
  ghost predicate Notified(before: set<Handle>, after: set<Handle>, watches: map<Handle, Watch>,
                           registered: set<Handle>, events: set<Event>) {
    forall h :: h in after <==>
      h in before || (h in registered && h in watches && Concerned(watches[h].kind, events))
  }

  /** Each subscribed watch that would show something else now is waiting to be notified. */
  ghost predicate Alerted(watches: map<Handle, Watch>, s: Store, s': Store, waiting: set<Handle>) {
    && Filed(s) && Filed(s')
    && forall h :: h in watches && Subscribed(watches[h]) && Compute(watches[h].kind, s) != Compute(watches[h].kind, s')
         ==> h in waiting
  }

  lemma AlertedAfter(watches: map<Handle, Watch>, registered: set<Handle>, b: Filing, version: nat, s: Store, s': Store,
                     events: set<Event>, before: set<Handle>, after: set<Handle>)
    requires Filed(s) && Filed(s') && Coherent(watches, version, s) && Registered(watches, registered, b)
    requires (forall e :: Differs(s, s', e) ==> e in events) && Notified(before, after, watches, registered, events)
    ensures Alerted(watches, s, s', after)
  {
    hide Compute, Filed, FiledAs, Differs, NamesTarget, Touches;
    forall h | h in watches && Subscribed(watches[h]) && Compute(watches[h].kind, s) != Compute(watches[h].kind, s')
      ensures h in after
    {
      CoherentAt(watches, h, version, s);
      if !Concerned(watches[h].kind, events) {
        forall e | Differs(s, s', e)
          ensures !Touches(watches[h].kind, e)
        {
          assert e in events && !Concerns(watches[h].kind, e);
        }
        Untouched(watches[h].kind, s, s');
      }
    }
  }

  /** The same watches, apart from what is known of how fresh they are. */
  ghost predicate Alike(a: map<Handle, Watch>, b: map<Handle, Watch>) {
    && a.Keys == b.Keys
    && forall h :: h in a ==>
         a[h].kind == b[h].kind && a[h].subscribers == b[h].subscribers && a[h].snapshot == b[h].snapshot
  }

  /** One write after the other. */
  lemma AlertedBoth(a: map<Handle, Watch>, b: map<Handle, Watch>, s: Store, t: Store, s': Store, middle: set<Handle>,
                    after: set<Handle>)
    requires Alerted(a, s, t, middle) && Alerted(b, t, s', after) && Alike(a, b) && middle <= after
    ensures Alerted(a, s, s', after)
  {
    hide Compute, Filed;
    forall h | h in a && Subscribed(a[h]) && Compute(a[h].kind, s) != Compute(a[h].kind, s')
      ensures h in after
    {
      assert b[h].kind == a[h].kind;
    }
  }

  lemma NothingAlerts(watches: map<Handle, Watch>, s: Store, waiting: set<Handle>)
    requires Filed(s)
    ensures Alerted(watches, s, s, waiting)
  {
  }

  /** After a write whose callbacks cover what changed, the watches are coherent again. */
  lemma CoherentAfter(watches: map<Handle, Watch>, version: nat, s: Store, s': Store, events: set<Event>, steps: nat,
                      marked: set<Handle>)
    requires Filed(s) && Filed(s') && Coherent(watches, version, s)
    requires forall e :: Differs(s, s', e) ==> e in events
    requires MarksTouched(watches, events, marked)
    requires if steps == 0 then events == {} && marked == {} else true
    ensures Coherent(DirtyAll(watches, marked), version + steps, s')
  {
    hide Compute, Filed;
    forall h | h in watches
      ensures CoherentWatch(DirtyAll(watches, marked)[h], version + steps, s')
    {
      var w := watches[h];
      if steps == 0 || (Subscribed(w) && !w.dirty && h !in marked) {
        forall e | Differs(s, s', e)
          ensures steps == 0 || (Subscribed(w) && h !in marked) ==> !Touches(w.kind, e)
        {
          assert e in events;
        }
        Untouched(w.kind, s, s');
      }
    }
  }

  // ---- which watches to ask about an event ----

  function At<K>(m: map<K, set<Handle>>, key: K): set<Handle> {
    if key in m then m[key] else {}
  }

  /** The sets hold no other handles. */
  ghost predicate Within<K>(m: map<K, set<Handle>>, handles: set<Handle>) {
    forall key :: key in m ==> m[key] <= handles
  }

  function AddTo<K>(m: map<K, set<Handle>>, key: K, h: Handle): map<K, set<Handle>> {
    m[key := At(m, key) + {h}]
  }

  function RemoveFrom<K>(m: map<K, set<Handle>>, key: K, h: Handle): map<K, set<Handle>> {
    if At(m, key) - {h} == {} then m - {key} else m[key := m[key] - {h}]
  }

  lemma AddToAt<K>(m: map<K, set<Handle>>, key: K, h: Handle)
    ensures forall k :: At(AddTo(m, key, h), k) == if k == key then At(m, k) + {h} else At(m, k)
  {
  }

  lemma RemoveFromAt<K>(m: map<K, set<Handle>>, key: K, h: Handle)
    ensures forall k :: At(RemoveFrom(m, key, h), k) == if k == key then At(m, k) - {h} else At(m, k)
  {
  }

  /** The kinds, each once, in order of first appearance. */
  function WithKinds(known: seq<int>, kinds: seq<int>): seq<int> {
    if kinds == [] then known
    else
      var before, k := WithKinds(known, kinds[..|kinds| - 1]), kinds[|kinds| - 1];
      if k in before then before else before + [k]
  }

  lemma {:induction false} WithKindsHas(known: seq<int>, kinds: seq<int>, k: int)
    ensures k in WithKinds(known, kinds) <==> k in known || k in kinds
  {
    if kinds != [] {
      WithKindsHas(known, kinds[..|kinds| - 1], k);
      assert kinds == kinds[..|kinds| - 1] + [kinds[|kinds| - 1]];
    }
  }

  /** The kinds a query can match; none when one of its filters can match every kind. */
  function QueryKinds(filters: seq<Filter>): Option<seq<int>> {
    if filters == [] then Some([])
    else
      var f := filters[|filters| - 1];
      var before := QueryKinds(filters[..|filters| - 1]);
      if before.None? || f.kinds.None? || f.kinds.value == [] then None
      else Some(WithKinds(before.value, f.kinds.value))
  }

  lemma {:induction false} MatchedKind(filters: seq<Filter>, e: Event)
    requires MatchesAny(filters, e) && QueryKinds(filters).Some?
    ensures e.kind in QueryKinds(filters).value
  {
    var f :| f in filters && Matches(f, e);
    var front, last := filters[..|filters| - 1], filters[|filters| - 1];
    assert filters == front + [last];
    WithKindsHas(QueryKinds(front).value, last.kinds.value, e.kind);
    if f != last {
      assert f in front;
      MatchedKind(front, e);
    }
  }

  // ---- pins ----

  /** All ids pinned, as often as they are pinned. */
  ghost function PinsOf(m: map<Handle, seq<string>>): multiset<string> {
    if m.Keys == {} then multiset{}
    else
      var h :| h in m;
      multiset(m[h]) + PinsOf(m - {h})
  }

  lemma PinsFirst(m: map<Handle, seq<string>>) returns (v: Handle)
    requires m != map[]
    ensures v in m && PinsOf(m) == multiset(m[v]) + PinsOf(m - {v})
  {
    v :| v in m && PinsOf(m) == multiset(m[v]) + PinsOf(m - {v});
  }

  lemma {:induction false} PinsWith(m: map<Handle, seq<string>>, h: Handle)
    requires h in m
    ensures PinsOf(m) == multiset(m[h]) + PinsOf(m - {h})
    decreases |m|
  {
    hide PinsOf;
    var v := PinsFirst(m);
    if v != h {
      PinsWith(m - {v}, h);
      PinsWith(m - {h}, v);
      assert m - {v} - {h} == m - {h} - {v};
    }
  }

  lemma PinsPut(m: map<Handle, seq<string>>, h: Handle, ids: seq<string>)
    ensures PinsOf(m[h := ids]) == multiset(ids) + PinsOf(m - {h})
  {
    PinsWith(m[h := ids], h);
    assert m[h := ids] - {h} == m - {h};
  }

  /** The refcounts are the counts of the pins, and hold no zero. */
  ghost predicate Counts(pinned: map<string, nat>, pins: multiset<string>) {
    forall id :: (id in pinned <==> id in pins) && (id in pinned ==> pinned[id] == pins[id])
  }

  method Pin(pinned: map<string, nat>, ids: seq<string>, ghost pins: multiset<string>) returns (r: map<string, nat>)
    requires Counts(pinned, pins)
    ensures Counts(r, pins + multiset(ids))
  {
    r := pinned;
    for i := 0 to |ids|
      invariant Counts(r, pins + multiset(ids[..i]))
    {
      assert ids[..i + 1] == ids[..i] + [ids[i]];
      r := r[ids[i] := (if ids[i] in r then r[ids[i]] else 0) + 1];
    }
    assert ids[..|ids|] == ids;
  }

  method Unpin(pinned: map<string, nat>, ids: seq<string>, ghost pins: multiset<string>) returns (r: map<string, nat>)
    requires Counts(pinned, pins + multiset(ids))
    ensures Counts(r, pins)
  {
    r := pinned;
    for i := 0 to |ids|
      invariant Counts(r, pins + multiset(ids[i..]))
    {
      assert ids[i..] == [ids[i]] + ids[i + 1..];
      var count := (if ids[i] in r then r[ids[i]] else 0) - 1;
      if count <= 0 {
        r := r - {ids[i]};
      } else {
        r := r[ids[i] := count];
      }
    }
    assert ids[|ids|..] == [];
  }

  /** Pins what a watch shows. */
  method PinFor(pinned: map<string, nat>, ghost watchPins: map<Handle, seq<string>>, h: Handle,
                ids: seq<string>) returns (r: map<string, nat>)
    requires Counts(pinned, PinsOf(watchPins)) && h !in watchPins
    ensures Counts(r, PinsOf(watchPins[h := ids]))
  {
    hide Counts, PinsOf;
    r := Pin(pinned, ids, PinsOf(watchPins));
    PinsPut(watchPins, h, ids);
    assert watchPins - {h} == watchPins;
    assert PinsOf(watchPins[h := ids]) == PinsOf(watchPins) + multiset(ids);
  }

  method UnpinFor(pinned: map<string, nat>, watchPins: map<Handle, seq<string>>,
                  h: Handle) returns (r: map<string, nat>)
    requires Counts(pinned, PinsOf(watchPins)) && h in watchPins
    ensures Counts(r, PinsOf(watchPins - {h}))
  {
    hide Counts, PinsOf;
    PinsWith(watchPins, h);
    assert PinsOf(watchPins) == PinsOf(watchPins - {h}) + multiset(watchPins[h]);
    r := Unpin(pinned, watchPins[h], PinsOf(watchPins - {h}));
  }

  // ---- what the registries say about each other ----

  /** The maps that writes look watches up in. */
  datatype Filing = Filing(
    byId: map<string, set<Handle>>,
    byAddress: map<string, set<Handle>>,
    byKind: map<int, set<Handle>>,
    anyKind: set<Handle>
  )

  /** The query is asked about events of this kind. */
  predicate HasKind(kind: WatchKind, k: int) {
    kind.QueryWatch? && QueryKinds(kind.filters).Some? && k in QueryKinds(kind.filters).value
  }

  /** The query is asked about events of every kind. */
  predicate AnyKind(kind: WatchKind) {
    kind.QueryWatch? && QueryKinds(kind.filters).None?
  }

  /** The watch is filed under what it is on and nowhere else, or nowhere at all. */
  ghost predicate FiledAs(b: Filing, h: Handle, kind: Option<WatchKind>) {
    && (forall key :: h in At(b.byId, key) <==> kind == Some(EventWatch(key)))
    && (forall key :: h in At(b.byAddress, key) <==> kind == Some(AddressWatch(key)))
    && (forall k :: h in At(b.byKind, k) <==> kind.Some? && HasKind(kind.value, k))
    && (h in b.anyKind <==> kind.Some? && AnyKind(kind.value))
  }

  function KindAt(watches: map<Handle, Watch>, registered: set<Handle>, h: Handle): Option<WatchKind> {
    if h in registered && h in watches then Some(watches[h].kind) else None
  }

  /** Where the event leads to a watch: exactly where it is to hear of it, if deletions are looked at apart. */
  lemma WhereTouched(b: Filing, h: Handle, kind: WatchKind, e: Event)
    requires FiledAs(b, h, Some(kind))
    ensures h in At(b.byId, e.id) <==> kind.EventWatch? && Touches(kind, e)
    ensures kind.AddressWatch? && Touches(kind, e) <==>
      && EventAddress(e).Some? && EventAddress(e).value.kind >= 0
      && h in At(b.byAddress, FormatAddress(EventAddress(e).value))
    ensures kind.QueryWatch? && Touches(kind, e) <==>
      kind.QueryWatch? && MatchesAny(kind.filters, e) && (h in At(b.byKind, e.kind) || h in b.anyKind)
  {
    hide FormatAddress, Matches;
    if kind.QueryWatch? && MatchesAny(kind.filters, e) && QueryKinds(kind.filters).Some? {
      MatchedKind(kind.filters, e);
    }
  }

  /** Only known watches are filed anywhere. */
  ghost predicate AllKnown(b: Filing, handles: set<Handle>) {
    Within(b.byId, handles) && Within(b.byAddress, handles) && Within(b.byKind, handles) && b.anyKind <= handles
  }

  /** Exactly the registered watches are filed, and subscribed ones are registered. */
  ghost predicate Registered(watches: map<Handle, Watch>, registered: set<Handle>, b: Filing) {
    && registered <= watches.Keys
    && (forall h :: h in watches && Subscribed(watches[h]) ==> h in registered)
    && (forall h :: FiledAs(b, h, KindAt(watches, registered, h)))
  }

  /** The refcount of an id is how often it occurs in the snapshots of registered watches. */
  ghost predicate Pinned(watches: map<Handle, Watch>, pinned: map<string, nat>, watchPins: map<Handle, seq<string>>) {
    && Counts(pinned, PinsOf(watchPins))
    && (forall h :: h in watchPins ==> h in watches && watchPins[h] == SnapshotIds(watches[h].snapshot))
  }

  predicate Shows(x: Snapshot, e: Event) {
    match x
    case One(event) => event == Some(e)
    case Many(events) => e in events
  }

  /** What a registered watch shows is pinned, and so is spared by eviction. */
  lemma ShownArePinned(watches: map<Handle, Watch>, pinned: map<string, nat>, watchPins: map<Handle, seq<string>>,
                       h: Handle, e: Event)
    requires Pinned(watches, pinned, watchPins) && h in watchPins && Shows(watches[h].snapshot, e)
    ensures e.id in pinned && pinned[e.id] > 0
  {
    hide PinsOf;
    PinsWith(watchPins, h);
    var ids := SnapshotIds(watches[h].snapshot);
    if watches[h].snapshot.Many? {
      var i :| 0 <= i < |watches[h].snapshot.events| && watches[h].snapshot.events[i] == e;
      assert ids[i] == e.id;
    } else {
      assert ids[0] == e.id;
    }
    assert e.id in multiset(ids);
  }

  /** Handles are new, and the cache hands out watches of the key asked for. */
  ghost predicate Cached(json: Filter -> string, watches: map<Handle, Watch>, cache: map<CacheKey, Handle>,
                         next: Handle) {
    && (forall h :: h in watches ==> h < next)
    && (forall key :: key in cache ==> cache[key] in watches && KeyOf(json, watches[cache[key]].kind) == key)
  }

  /** Replacing a watch by one of its kind. */
  lemma ReplaceWatch(json: Filter -> string, watches: map<Handle, Watch>, registered: set<Handle>, b: Filing,
                     cache: map<CacheKey, Handle>, next: Handle, h: Handle, w: Watch)
    requires Registered(watches, registered, b) && Cached(json, watches, cache, next)
    requires h in watches && w.kind == watches[h].kind && (Subscribed(w) ==> h in registered)
    ensures Registered(watches[h := w], registered, b) && Cached(json, watches[h := w], cache, next)
  {
    hide FiledAs, KeyOf;
    var watches' := watches[h := w];
    assert watches'.Keys == watches.Keys;
    forall g
      ensures FiledAs(b, g, KindAt(watches', registered, g))
    {
      assert FiledAs(b, g, KindAt(watches, registered, g));
    }
  }

  /** Replacing a watch by one that shows the same. */
  lemma ReplacePinned(watches: map<Handle, Watch>, pinned: map<string, nat>, watchPins: map<Handle, seq<string>>,
                      h: Handle, w: Watch)
    requires Pinned(watches, pinned, watchPins) && h in watches && w.snapshot == watches[h].snapshot
    ensures Pinned(watches[h := w], pinned, watchPins)
  {
    hide Counts, PinsOf;
  }

  /** Marking watches changes none of this. */
  lemma DirtyStays(json: Filter -> string, watches: map<Handle, Watch>, marked: set<Handle>, registered: set<Handle>,
                   b: Filing, pinned: map<string, nat>, watchPins: map<Handle, seq<string>>,
                   cache: map<CacheKey, Handle>, next: Handle)
    requires Registered(watches, registered, b) && Pinned(watches, pinned, watchPins)
    requires Cached(json, watches, cache, next)
    ensures
      && var watches' := DirtyAll(watches, marked);
      && Registered(watches', registered, b) && Pinned(watches', pinned, watchPins)
      && Cached(json, watches', cache, next)
  {
    hide FiledAs, Counts, PinsOf, KeyOf;
    assert DirtyAll(watches, marked).Keys == watches.Keys;
    forall g
      ensures FiledAs(b, g, KindAt(DirtyAll(watches, marked), registered, g))
    {
      assert FiledAs(b, g, KindAt(watches, registered, g));
    }
  }

  class ReactiveEventStore {
    const index: Mem.MemoryIndex
    const maxEvents: nat
    /** JSON.stringify, on canonical filters. */
    const json: Filter -> string
    /** Every event ever written: their ids are distinct. */
    ghost const u: set<Event>
    var version: nat
    var recency: OrderedSet<string>
    var watches: map<Handle, Watch>
    var idWatches: map<string, set<Handle>>
    var addressWatches: map<string, set<Handle>>
    var queryByKind: map<int, set<Handle>>
    var queryAnyKind: set<Handle>
    var pinned: map<string, nat>
    var watchPins: map<Handle, seq<string>>
    var toNotify: set<Handle>
    var flushScheduled: bool
    /** The watch handed out for each id, address or fingerprint of a query. */
    var cache: map<CacheKey, Handle>
    var nextHandle: Handle

    constructor (maxEvents: nat, maxTombstones: Option<nat>, json: Filter -> string, ghost u: set<Event>)
      requires OneEventPerId(u)
      ensures Valid() && this.u == u && this.maxEvents == maxEvents && this.json == json
      ensures fresh(index) && fresh(index.deletion)
      ensures index.Contents() == NewStore(maxTombstones, maxEvents) && watches == map[]
    {
      this.maxEvents, this.json, this.u := maxEvents, json, u;
      index := new Mem.MemoryIndex(maxTombstones, maxEvents);
      version, recency, watches := 0, Empty(), map[];
      idWatches, addressWatches, queryByKind, queryAnyKind := map[], map[], map[], {};
      pinned, watchPins, toNotify, flushScheduled := map[], map[], {}, false;
      cache, nextHandle := map[], 0;
      new;
      NewStoreGood(u, maxTombstones, maxEvents);
    }

    // ---- the invariants ----

    ghost predicate Indexed()
      reads index, index.deletion
    {
      index.Valid() && Good(index.Contents(), u) && OneEventPerId(u)
    }

    /** The recency order lists exactly the stored ids. */
    ghost predicate Recent()
      reads `recency, index
    {
      WellFormed(recency) && Elements(recency.keys) == index.byId.Keys
    }

    function Buckets(): Filing
      reads `idWatches, `addressWatches, `queryByKind, `queryAnyKind
    {
      Filing(idWatches, addressWatches, queryByKind, queryAnyKind)
    }

    ghost predicate Fresh()
      reads `watches, `version, index, index.deletion
    {
      Filed(index.Contents()) && Coherent(watches, version, index.Contents())
    }

    ghost predicate Scheduled()
      reads `toNotify, `flushScheduled
    {
      toNotify != {} ==> flushScheduled
    }

    ghost predicate Valid()
      reads this, index, index.deletion
    {
      && Indexed() && Recent() && Fresh() && Scheduled()
      && Registered(watches, watchPins.Keys, Buckets())
      && Pinned(watches, pinned, watchPins)
      && Cached(json, watches, cache, nextHandle)
    }

    // ---- invalidation ----

    method MarkDirty(marked: set<Handle>)
      requires Scheduled() && marked <= watches.Keys
      modifies `watches, `toNotify, `flushScheduled
      ensures watches == DirtyAll(old(watches), marked) && Scheduled()
      ensures toNotify == old(toNotify) + marked
    {
      hide DirtyAll;
      var left := marked;
      ghost var before, done: set<Handle> := watches, {};
      DirtyTwice(before, {}, {});
      while left != {}
        invariant left + done == marked && watches.Keys == before.Keys && Scheduled()
        invariant watches == DirtyAll(before, done) && toNotify == old(toNotify) + done
        decreases |left|
      {
        var h :| h in left;
        DirtyTwice(before, done, {h});
        DirtyOne(watches, h);
        MoveOver(left, done, old(toNotify), h);
        MarkOne(h);
        left, done := left - {h}, done + {h};
      }
    }

    method MarkOne(h: Handle)
      requires h in watches
      modifies `watches, `toNotify, `flushScheduled
      ensures watches == old(watches)[h := old(watches)[h].(dirty := true)] && Scheduled()
      ensures toNotify == old(toNotify) + {h}
    {
      watches := watches[h := watches[h].(dirty := true)];
      toNotify := toNotify + {h};
      flushScheduled := true;
    }

    /** The watches of a bucket whose filters match the event. */
    method Matching(bucket: set<Handle>, e: Event) returns (r: set<Handle>)
      requires bucket <= watches.Keys
      ensures forall h :: h in r <==>
        h in bucket && watches[h].kind.QueryWatch? && MatchesAny(watches[h].kind.filters, e)
    {
      r := {};
      var left := bucket;
      while left != {}
        invariant left <= bucket
        invariant forall h :: h in r <==>
          h in bucket - left && watches[h].kind.QueryWatch? && MatchesAny(watches[h].kind.filters, e)
        decreases |left|
      {
        var h :| h in left;
        left := left - {h};
        if watches[h].kind.QueryWatch? {
          var hit := AnyMatch(watches[h].kind.filters, e);
          if hit {
            r := r + {h};
          }
        }
      }
    }

    /** The watches of the ids and addresses that a deletion names, stored or not. */
    method NamedByDeletion(e: Event) returns (r: set<Handle>)
      requires Registered(watches, watchPins.Keys, Buckets())
      ensures forall h :: h in r <==> h in watchPins && h in watches && NamesTarget(e, watches[h].kind)
    {
      hide FormatAddress, IndexOf, Number, IsDigits, IsHex32, Lower, Subscribed;
      r := {};
      for i := 0 to |e.tags|
        invariant forall h :: h in r <==>
          h in watchPins && h in watches && NamesTarget(e.(tags := e.tags[..i]), watches[h].kind)
      {
        var tag := e.tags[i];
        ghost var more: set<Handle> := {};
        if |tag| > 1 && tag[0] == "e" {
          more := At(idWatches, Lower(tag[1]));
          r := r + At(idWatches, Lower(tag[1]));
        } else if |tag| > 1 && tag[0] == "a" {
          var coord := ParseAddress(tag[1]);
          if coord.Some? {
            more := At(addressWatches, FormatAddress(coord.value));
            r := r + At(addressWatches, FormatAddress(coord.value));
          }
        }
        forall h
          ensures h in watchPins && h in watches && NamesTarget(e.(tags := e.tags[..i + 1]), watches[h].kind) <==>
            || h in more
            || (h in watchPins && h in watches && NamesTarget(e.(tags := e.tags[..i]), watches[h].kind))
        {
          assert FiledAs(Buckets(), h, KindAt(watches, watchPins.Keys, h));
          if h in watches {
            NamesNext(e, i, watches[h].kind);
          }
        }
      }
      assert e.(tags := e.tags[..|e.tags|]) == e;
    }

    /** Marks the watches of the id, of the address, of what a deletion names, and the queries that match. */
    method InvalidateByEvent(e: Event) returns (ghost marked: set<Handle>)
      requires Registered(watches, watchPins.Keys, Buckets()) && Scheduled()
      modifies `watches, `toNotify, `flushScheduled
      ensures watches == DirtyAll(old(watches), marked) && toNotify == old(toNotify) + marked
      ensures MarksExactly(old(watches), watchPins.Keys, {e}, marked) && Scheduled()
    {
      hide DirtyAll, MatchesAny, FormatAddress, FiledAs, NamesTarget, Registered, AllKnown, At, MarksExactly;
      KnownWatches(watches, watchPins.Keys, Buckets());
      BucketsKnown(Buckets(), watches.Keys, e.kind);
      var byId := At(idWatches, e.id);
      var a := EventAddress(e);
      var byAddress := if a.Some? && a.value.kind >= 0 then At(addressWatches, FormatAddress(a.value)) else {};
      var named := {};
      if e.kind == EVENT_DELETION {
        named := NamedByDeletion(e);
      }
      var byKind := Matching(At(queryByKind, e.kind), e);
      var anyKind := Matching(queryAnyKind, e);
      marked := byId + byAddress + named + byKind + anyKind;
      AllConcerned(watches, watchPins.Keys, Buckets(), e, named, byKind, anyKind);
      MarkDirty(byId + byAddress + named + byKind + anyKind);
    }

    method Touch(id: string)
      requires WellFormed(recency)
      modifies `recency
      ensures recency == Touched(old(recency), id)
      ensures WellFormed(recency) && Elements(recency.keys) == old(Elements(recency.keys)) + {id}
    {
      DeleteWellFormed(recency, id);
      EnterWellFormed(Delete(recency, id), id, ());
      WithoutDistinct(recency.keys, id);
      recency := Ordered.Add(Delete(recency, id), id);
    }

    method Forget(id: string)
      requires WellFormed(recency)
      modifies `recency
      ensures recency == Delete(old(recency), id)
      ensures WellFormed(recency) && Elements(recency.keys) == old(Elements(recency.keys)) - {id}
    {
      DeleteWellFormed(recency, id);
      WithoutDistinct(recency.keys, id);
      recency := Delete(recency, id);
    }

    /** Runs one callback of a write. */
    method RunCallback(c: Change) returns (ghost marked: set<Handle>)
      requires Registered(watches, watchPins.Keys, Buckets()) && Scheduled() && WellFormed(recency)
      modifies `version, `recency, `watches, `toNotify, `flushScheduled
      ensures version == old(version) + 1 && Scheduled() && WellFormed(recency)
      ensures recency == Reordered(old(recency), c)
      ensures Elements(recency.keys) ==
                (if c.Inserted? then old(Elements(recency.keys)) + {c.event.id} else old(Elements(recency.keys)) - {c.event.id})
      ensures watches == DirtyAll(old(watches), marked) && toNotify == old(toNotify) + marked
      ensures MarksExactly(old(watches), watchPins.Keys, {c.event}, marked)
    {
      hide MarksExactly, WellFormed, Registered, Delete, Touched;
      version := version + 1;
      if c.Inserted? {
        Touch(c.event.id);
      } else {
        Forget(c.event.id);
      }
      marked := InvalidateByEvent(c.event);
    }

    /** Runs the callbacks of a write. */
    method RunCallbacks(changes: seq<Change>) returns (ghost marked: set<Handle>)
      requires Registered(watches, watchPins.Keys, Buckets()) && Scheduled() && WellFormed(recency)
      requires Pinned(watches, pinned, watchPins) && Cached(json, watches, cache, nextHandle)
      modifies `version, `recency, `watches, `toNotify, `flushScheduled
      ensures version == old(version) + |changes| && Scheduled() && WellFormed(recency)
      ensures recency == ReorderedAll(old(recency), changes)
      ensures Elements(recency.keys) == IdsAfter(old(Elements(recency.keys)), changes)
      ensures watches == DirtyAll(old(watches), marked) && toNotify == old(toNotify) + marked
      ensures MarksExactly(old(watches), watchPins.Keys, ChangedEvents(changes), marked)
    {
      hide MarksExactly, WellFormed, Registered, Pinned, Cached, DirtyAll, Reordered;
      marked := {};
      ghost var before := watches;
      DirtyTwice(watches, {}, {});
      NothingMarked(watches, watchPins.Keys);
      for i := 0 to |changes|
        invariant version == old(version) + i && Scheduled() && WellFormed(recency)
        invariant recency == ReorderedAll(old(recency), changes[..i])
        invariant Elements(recency.keys) == IdsAfter(old(Elements(recency.keys)), changes[..i])
        invariant watches == DirtyAll(before, marked) && toNotify == old(toNotify) + marked
        invariant MarksExactly(before, watchPins.Keys, ChangedEvents(changes[..i]), marked)
      {
        var c := changes[i];
        assert changes[..i + 1][..i] == changes[..i] && changes[..i + 1] == changes[..i] + [c];
        DirtyStays(json, before, marked, watchPins.Keys, Buckets(), pinned, watchPins, cache, nextHandle);
        ghost var more := RunCallback(c);
        DirtyTwice(before, marked, more);
        MarkedMore(before, watchPins.Keys, changes[..i], c, marked, more);
        marked := marked + more;
      }
      assert changes[..|changes|] == changes;
    }

    /** After the index has changed, the callbacks bring the rest of the store back in step. */
    method Notify(changes: seq<Change>, ghost s: Store)
      requires Indexed() && Filed(s) && Scheduled()
      requires Registered(watches, watchPins.Keys, Buckets()) && Pinned(watches, pinned, watchPins)
      requires Cached(json, watches, cache, nextHandle)
      requires WellFormed(recency) && Elements(recency.keys) == s.events.Keys
      requires Coherent(watches, version, s)
      requires IdsAfter(s.events.Keys, changes) == index.byId.Keys
      requires forall e :: Differs(s, index.Contents(), e) ==> e in ChangedEvents(changes)
      modifies `version, `recency, `watches, `toNotify, `flushScheduled
      ensures Valid() && Alike(old(watches), watches) && recency == ReorderedAll(old(recency), changes)
      ensures Notified(old(toNotify), toNotify, old(watches), watchPins.Keys, ChangedEvents(changes))
      ensures Alerted(old(watches), s, index.Contents(), toNotify)
    {
      hide Filed, Good, Coherent, Registered, Pinned, Cached, WellFormed, DirtyAll, MarksTouched, Differs, IdsAfter,
        ChangedEvents, Concerned;
      ghost var before := watches;
      ghost var marked := RunCallbacks(changes);
      ExactTouches(before, watchPins.Keys, Buckets(), ChangedEvents(changes), marked);
      DirtyStays(json, before, marked, watchPins.Keys, Buckets(), pinned, watchPins, cache, nextHandle);
      DirtyKeeps(before, marked);
      NowFiled();
      NoChangedEvents(changes);
      NoneMarked(before, watchPins.Keys, ChangedEvents(changes), marked);
      CoherentAfter(before, old(version), s, index.Contents(), ChangedEvents(changes), |changes|, marked);
      AlertedAfter(before, watchPins.Keys, Buckets(), old(version), s, index.Contents(), ChangedEvents(changes),
                   old(toNotify), toNotify);
    }

    lemma NowFiled()
      requires Indexed()
      ensures Filed(index.Contents()) && NoneCovered(index.Contents())
    {
    }

    // ---- writing ----

    /** One put into the index, with its callbacks. */
    method PutOne(e: Event) returns (r: PutResult)
      requires Valid() && e in u
      modifies this, index, index.deletion
      ensures Valid() && Alike(old(watches), watches) && index.Contents() == Storage.Put(old(index.Contents()), e)
      ensures Notified(old(toNotify), toNotify, old(watches), watchPins.Keys,
                       ChangedEvents(PutChanges(old(index.Contents()), e)))
      ensures Alerted(old(watches), old(index.Contents()), index.Contents(), toNotify) && watchPins == old(watchPins)
      ensures pinned == old(pinned) && recency == ReorderedAll(old(recency), PutChanges(old(index.Contents()), e))
      ensures r == ResultOf(Decide(e, LookupOf(old(index.Contents()))))
    {
      hide Filed, Good, Coherent, Registered, Pinned, Cached, Storage.Put, PutChanges, Differs, IdsAfter;
      ghost var s := index.Contents();
      NowFiled();
      PutKeeps(s, u, e);
      PutIds(s, u, e);
      forall x | Differs(s, Storage.Put(s, e), x)
        ensures x in ChangedEvents(PutChanges(s, e))
      {
        PutChangesAll(s, u, e, x);
      }
      var changes := PutChanges(index.Contents(), e);
      r := index.Put(e);
      Notify(changes, s);
    }

    /** evict of the ids that were chosen, with their callbacks. */
    method EvictThese(evicting: seq<string>)
      requires Valid() && Distinct(evicting) && Elements(evicting) <= index.byId.Keys
      modifies this, index, index.deletion
      ensures Valid() && Alike(old(watches), watches) && pinned == old(pinned) && watchPins == old(watchPins)
      ensures Notified(old(toNotify), toNotify, old(watches), watchPins.Keys,
                       ChangedEvents(RemovalsOf(old(index.Contents()), evicting)))
      ensures Alerted(old(watches), old(index.Contents()), index.Contents(), toNotify)
      ensures index.Contents() == Evict(old(index.Contents()), evicting)
      ensures index.byId.Keys == old(index.byId).Keys - Elements(evicting)
      ensures |index.byId| == old(|index.byId|) - |evicting|
      ensures recency == ReorderedAll(old(recency), RemovalsOf(old(index.Contents()), evicting))
    {
      hide Filed, Good, Coherent, Registered, Pinned, Cached, Differs, IdsAfter, Evict, RemovalsOf, ReorderedAll,
        Distinct;
      ghost var s := index.Contents();
      NowFiled();
      EvictsExactly(s, u, evicting);
      EvictKeeps(s, u, evicting);
      var changes := RemovalsOf(index.Contents(), evicting);
      var _ := index.Evict(evicting);
      Notify(changes, s);
    }

    /** Evicts until few enough events are left, or all that are left are pinned or protected. */
    method EvictIfNeeded(protectedId: Option<string>)
      requires Valid()
      modifies this, index, index.deletion
      ensures Valid() && Alike(old(watches), watches) && pinned == old(pinned) && watchPins == old(watchPins)
      ensures
        && var s := old(index.Contents());
        && var evicting := Chosen(old(recency).keys, |old(index.byId)|, maxEvents, pinned, protectedId);
        && index.Contents() == Evict(s, evicting) && recency == ReorderedAll(old(recency), RemovalsOf(s, evicting))
        && Notified(old(toNotify), toNotify, old(watches), watchPins.Keys, ChangedEvents(RemovalsOf(s, evicting)))
        && Alerted(old(watches), s, index.Contents(), toNotify)
      ensures |index.byId| <= maxEvents || forall id :: id in index.byId ==> id in pinned || protectedId == Some(id)
      ensures forall id :: id in old(index.byId) && (id in pinned || protectedId == Some(id)) ==> id in index.byId
    {
      hide Indexed, Fresh, Registered, Pinned, Cached, Evict, RemovalsOf, ReorderedAll, Chosen, Distinct, Notified,
        Alerted, Alike, ChangedEvents;
      ChosenAre(recency.keys, |index.byId|, maxEvents, pinned, protectedId);
      EvictsNothing(index.Contents(), recency);
      NowFiled();
      NothingAlerts(watches, index.Contents(), toNotify);
      NothingNotified(toNotify, watches, watchPins.Keys);
      AlikeSelf(watches);
      if |index.byId| <= maxEvents {
        return;
      }
      var evicting := ChooseEvicted(recency.keys, |index.byId|, maxEvents, pinned, protectedId);
      assert forall id :: id in index.byId ==> id in Elements(recency.keys);
      EvictThese(evicting);
    }

    method Add(e: Event) returns (r: PutResult)
      requires Valid() && e in u
      modifies this, index, index.deletion
      ensures Valid() && Alike(old(watches), watches) && pinned == old(pinned) && watchPins == old(watchPins)
      ensures |index.byId| <= maxEvents || forall id :: id in index.byId ==> id in pinned || id == e.id
      ensures
        && var was := old(index.Contents());
        && var s, order := Storage.Put(was, e), ReorderedAll(old(recency), PutChanges(was, e));
        && var evicting := Chosen(order.keys, |s.events|, maxEvents, pinned, Some(e.id));
        && index.Contents() == Evict(s, evicting)
        && Notified(old(toNotify), toNotify, old(watches), watchPins.Keys,
                    ChangedEvents(PutChanges(was, e)) + ChangedEvents(RemovalsOf(s, evicting)))
      ensures Alerted(old(watches), old(index.Contents()), index.Contents(), toNotify) && old(toNotify) <= toNotify
      ensures r == ResultOf(Decide(e, LookupOf(old(index.Contents()))))
    {
      hide Indexed, Recent, Registered, Pinned, Cached, Fresh, Alerted, Notified, Alike, ChangedEvents, PutChanges,
        RemovalsOf, Storage.Put, Evict, Chosen, ReorderedAll;
      ghost var before, waiting, was := watches, toNotify, index.Contents();
      r := PutOne(e);
      ghost var between, middle, s, order := watches, toNotify, index.Contents(), recency;
      EvictIfNeeded(Some(e.id));
      ghost var evicting := Chosen(order.keys, |s.events|, maxEvents, pinned, Some(e.id));
      NotifiedBoth(waiting, middle, toNotify, before, between, watchPins.Keys, ChangedEvents(PutChanges(was, e)),
                   ChangedEvents(RemovalsOf(s, evicting)));
      AlertedBoth(before, between, was, s, index.Contents(), middle, toNotify);
      AlikeBoth(before, between, watches);
    }

    /** hydrate: puts the events oldest first, so that the newest end up as the ones used last, and evicts once. */
    method Hydrate(events: seq<Event>)
      requires Valid() && Members(events) <= u
      modifies this, index, index.deletion
      ensures Valid() && (|index.byId| <= maxEvents || forall id :: id in index.byId ==> id in pinned)
      ensures Alike(old(watches), watches) && pinned == old(pinned) && watchPins == old(watchPins)
      ensures Alerted(old(watches), old(index.Contents()), index.Contents(), toNotify) && old(toNotify) <= toNotify
      ensures var was := old(index.Contents());
              var sorted := OldestFirst(events);
              var s, order := PutEach(was, sorted), PutEachOrder(old(recency), was, sorted);
              index.Contents() == Evict(s, Chosen(order.keys, |s.events|, maxEvents, pinned, None))
    {
      hide OldestFirst, ItemsSorted, Indexed, Recent, Registered, Pinned, Cached, Fresh, Storage.Put, PutChanges,
        ReorderedAll, Chosen, Evict, Alerted, Notified, Alike, ChangedEvents, RemovalsOf;
      OldestFirstSorts(events);
      var sorted := OldestFirst(events);
      assert forall e :: e in sorted <==> e in multiset(sorted);
      ghost var before, was := watches, index.Contents();
      NowFiled();
      NothingAlerts(before, was, toNotify);
      AlikeSelf(before);
      for i := 0 to |sorted|
        invariant Valid() && pinned == old(pinned) && watchPins == old(watchPins) && Alike(before, watches)
        invariant Alerted(before, was, index.Contents(), toNotify) && old(toNotify) <= toNotify
        invariant index.Contents() == PutEach(old(index.Contents()), sorted[..i])
        invariant recency == PutEachOrder(old(recency), old(index.Contents()), sorted[..i])
      {
        assert sorted[..i + 1][..i] == sorted[..i];
        assert sorted[i] in sorted && sorted[i] in multiset(events) && sorted[i] in Members(events);
        ghost var between, middle, s := watches, toNotify, index.Contents();
        var _ := PutOne(sorted[i]);
        NotifiedGrows(middle, toNotify, between, watchPins.Keys, ChangedEvents(PutChanges(s, sorted[i])));
        AlertedBoth(before, between, was, s, index.Contents(), middle, toNotify);
        AlikeBoth(before, between, watches);
      }
      assert sorted[..|sorted|] == sorted;
      ghost var between, middle, s, order := watches, toNotify, index.Contents(), recency;
      EvictIfNeeded(None);
      NotifiedGrows(middle, toNotify, between, watchPins.Keys,
                    ChangedEvents(RemovalsOf(s, Chosen(order.keys, |s.events|, maxEvents, pinned, None))));
      AlertedBoth(before, between, was, s, index.Contents(), middle, toNotify);
      AlikeBoth(before, between, watches);
    }

    method Remove(ids: seq<string>) returns (n: nat)
      requires Valid()
      modifies this, index, index.deletion
      ensures Valid() && index.byId == old(index.byId) - Elements(LowerIds(ids))
      ensures Alike(old(watches), watches) && pinned == old(pinned) && watchPins == old(watchPins)
      ensures Notified(old(toNotify), toNotify, old(watches), watchPins.Keys,
                       ChangedEvents(RemovalsOf(old(index.Contents()), LowerIds(ids))))
      ensures Alerted(old(watches), old(index.Contents()), index.Contents(), toNotify) && old(toNotify) <= toNotify
      ensures index.Contents() == Storage.Remove(old(index.Contents()), ids) && n == |Mem.Found(ids, old(index.byId))|
    {
      hide Filed, Good, Coherent, Registered, Pinned, Cached, Differs, IdsAfter, Storage.Remove, RemovalsOf;
      ghost var s := index.Contents();
      NowFiled();
      RemovesExactly(s, u, ids);
      RemoveKeeps(s, u, ids);
      var changes := RemovalsOf(index.Contents(), LowerIds(ids));
      n := index.Remove(ids);
      Notify(changes, s);
      NotifiedGrows(old(toNotify), toNotify, old(watches), watchPins.Keys, ChangedEvents(changes));
    }

    /** clear: every stored event goes with its callback, then all watches are marked. */
    method Clear()
      requires Valid()
      modifies this, index, index.deletion
      ensures Valid() && index.Contents() == NewStore(index.maxTombstones, index.maxWatermarks)
      ensures Alike(old(watches), watches) && pinned == old(pinned) && watchPins == old(watchPins)
      ensures forall h :: h in toNotify <==> h in old(toNotify) || (h in watchPins && Asks(old(watches), h))
      ensures flushScheduled
      ensures Alerted(old(watches), old(index.Contents()), index.Contents(), toNotify)
    {
      hide Filed, Good, Coherent, Registered, Pinned, Cached, Differs, IdsAfter, Alerted, Notified, Alike, Asks;
      ghost var before, waiting, s := watches, toNotify, index.Contents();
      NowFiled();
      KeyedById(s);
      var changes := RemovedInTurn(index.byId);
      NewStoreGood(u, index.maxTombstones, index.maxWatermarks);
      index.Clear();
      forall x | Differs(s, index.Contents(), x)
        ensures x in ChangedEvents(changes)
      {
        DiffersFromEmpty(s, index.Contents(), x);
      }
      Notify(changes, s);
      NotifiedWithin(waiting, toNotify, before, watchPins.Keys, ChangedEvents(changes));
      ghost var between, middle := watches, toNotify;
      InvalidateAll();
      AlertedMore(before, s, index.Contents(), middle, toNotify);
      AsksAlike(before, between);
      AlikeBoth(before, between, watches);
    }

    method InvalidateAll()
      requires Valid() && index.byId == map[]
      modifies `version, `recency, `watches, `toNotify, `flushScheduled
      ensures Valid() && Alike(old(watches), watches) && flushScheduled
      ensures forall h :: h in toNotify <==> h in old(toNotify) || (h in watchPins && Asks(old(watches), h))
    {
      hide Filed, Good, Compute, Registered, Pinned, Cached, DirtyAll, Coherent, AllIn, Asks, Mem.MemoryIndex.Valid;
      ghost var before := watches;
      EmptyOrder(index.byId);
      recency := Empty();
      version := version + 1;
      var marked := AllIn(idWatches) + AllIn(addressWatches) + AllIn(queryByKind) + queryAnyKind;
      AllFiled(watches, watchPins.Keys, Buckets());
      MarkDirty(marked);
      flushScheduled := true;
      DirtyStays(json, before, marked, watchPins.Keys, Buckets(), pinned, watchPins, cache, nextHandle);
      DirtyKeeps(before, marked);
      NowFiled();
      CoherentAfter(before, old(version), index.Contents(), index.Contents(), {}, 1, marked);
    }

    // ---- reading ----

    method TouchStored(id: string)
      requires Recent() && id in index.byId
      modifies `recency
      ensures Recent() && recency == Touched(old(recency), id)
    {
      hide Touched, WellFormed, Elements;
      Touch(id);
      StillThere(index.byId, id);
    }

    method Get(id: string) returns (r: Option<Event>)
      requires Valid()
      modifies `recency
      ensures Valid() && r == if Lower(id) in index.byId then Some(index.byId[Lower(id)]) else None
      ensures recency == if r.Some? then Touched(old(recency), r.value.id) else old(recency)
    {
      hide Good, Registered, Pinned, Cached, Filed, ParseAddress, Coherent, Recent, Fresh, Touched;
      r := index.Get(id);
      StoredIsRead(index.Contents(), u, Lower(id));
      if r.Some? {
        TouchStored(r.value.id);
      }
    }

    method GetByAddress(address: string) returns (r: Option<Event>)
      requires Valid()
      modifies `recency
      ensures Valid()
      ensures var a := ParseAddress(address);
              r == if a.Some? && a.value in index.winners then Some(index.byId[index.winners[a.value]]) else None
      ensures recency == if r.Some? then Touched(old(recency), r.value.id) else old(recency)
    {
      hide Good, Registered, Pinned, Cached, Filed, ParseAddress, Coherent, Recent, Fresh, Touched;
      r := index.GetByAddress(address);
      WinnerIsRead(index.Contents(), u, ParseAddress(address), r);
      if r.Some? {
        TouchStored(r.value.id);
      }
    }

    /** Touches the events from the last to the first, so that the first ends up as the one used last. */
    method TouchBack(events: seq<Event>)
      requires Recent() && forall e :: e in events ==> e.id in index.byId
      modifies `recency
      ensures Recent() && recency == TouchedBack(old(recency), events)
    {
      hide Touched;
      var i := |events|;
      while i > 0
        invariant Recent() && 0 <= i <= |events| && recency == TouchedBack(old(recency), events[i..])
      {
        i := i - 1;
        assert events[i..][1..] == events[i + 1..];
        assert events[i] in events;
        TouchStored(events[i].id);
      }
      assert events[0..] == events;
    }

    method Query(filters: seq<Filter>) returns (r: seq<Event>)
      requires Valid()
      modifies `recency
      ensures Valid() && OneEventPerId(Stock(index.Contents())) && r == Listing.Query(Stock(index.Contents()), filters)
      ensures recency == TouchedBack(old(recency), r)
    {
      hide Recent, Good, Coherent, Registered, Pinned, Cached, Listing.Query, TouchedBack;
      NowFiled();
      Mem.AllVisible(index.Contents());
      r := index.Query(filters);
      QueriedAreStored(index.Contents(), filters);
      assert forall e :: e in r <==> e in Members(r);
      TouchBack(r);
    }

    method ComputeNow(kind: WatchKind) returns (r: Snapshot)
      requires Valid() && WellKeyed(kind)
      modifies `recency
      ensures Valid() && Filed(index.Contents()) && r == Compute(kind, index.Contents())
    {
      hide Good, Coherent, Registered, Pinned, Cached, Listing.Query, Filed;
      NowFiled();
      match kind {
        case EventWatch(key) =>
          var event := Get(key);
          r := One(event);
        case AddressWatch(key) =>
          var event := GetByAddress(key);
          r := One(event);
        case QueryWatch(filters) =>
          var events := Query(filters);
          r := Many(events);
      }
    }

    // ---- watches ----

    /**
     * watchEvent, watchReplaceable, watchQuery: the cached watch, or a new one with a snapshot of its own. A cached
     * one may be for other filters of the same fingerprint, which `SameKeyShows` says shows the same.
     */
    method WatchFor(kind: WatchKind) returns (h: Handle)
      requires Valid() && WellKeyed(kind)
      modifies `recency, `watches, `cache, `nextHandle
      ensures Valid() && h in watches && KeyOf(json, watches[h].kind) == KeyOf(json, kind)
      ensures cache == old(cache)[KeyOf(json, kind) := h]
      ensures forall g :: g in old(watches) ==> g in watches && watches[g] == old(watches)[g]
      ensures KeyOf(json, kind) in old(cache) ==> h == old(cache)[KeyOf(json, kind)] && watches == old(watches)
      ensures KeyOf(json, kind) !in old(cache) ==>
        && h !in old(watches) && watches == old(watches)[h := watches[h]]
        && watches[h].kind == kind && !Subscribed(watches[h])
    {
      hide Indexed, Recent, Registered, Pinned, Cached, Compute, Filed, Coherent, KeyOf, WellKeyed;
      var key := KeyOf(json, kind);
      CachedFacts(json, watches, cache, nextHandle, key);
      if key in cache {
        return cache[key];
      }
      var snapshot := ComputeNow(kind);
      h := nextHandle;
      var w := Watch(kind, {}, snapshot, version, false, false, 0);
      CoherentWith(watches, h, w, version, index.Contents());
      NewWatch(watches, watchPins.Keys, Buckets(), pinned, watchPins, h, w);
      CacheMore(json, watches, cache, nextHandle, w);
      nextHandle := nextHandle + 1;
      watches := watches[h := w];
      cache := cache[key := h];
    }

    method WatchReplaceable(kind: nat, pubkey: string, d: string) returns (h: Handle)
      requires Valid()
      modifies `recency, `watches, `cache, `nextHandle
      ensures Valid() && h in watches && watches[h].kind == AddressWatch(FormatAddress(Address(kind, pubkey, d)))
    {
      hide Indexed, Recent, Registered, Pinned, Cached, Fresh;
      FormattedKey(Address(kind, pubkey, d));
      h := WatchFor(AddressWatch(FormatAddress(Address(kind, pubkey, d))));
    }

    /** Files a watch where writes look for it. */
    method File(h: Handle, kind: WatchKind)
      requires FiledAs(Buckets(), h, None) || FiledAs(Buckets(), h, Some(kind))
      modifies `idWatches, `addressWatches, `queryByKind, `queryAnyKind
      ensures FiledAs(Buckets(), h, Some(kind)) && OthersFiled(old(Buckets()), Buckets(), h)
    {
      hide AddTo, At, QueryKinds;
      match kind {
        case EventWatch(key) =>
          AddToAt(idWatches, key, h);
          idWatches := AddTo(idWatches, key, h);
        case AddressWatch(key) =>
          AddToAt(addressWatches, key, h);
          addressWatches := AddTo(addressWatches, key, h);
        case QueryWatch(filters) =>
          var kinds := QueryKinds(filters);
          if kinds.None? {
            queryAnyKind := queryAnyKind + {h};
          } else {
            queryByKind := AddToAll(queryByKind, kinds.value, h);
          }
      }
    }

    /** Pins what a watch shows, unless it does already. */
    method PinShown(h: Handle)
      requires Pinned(watches, pinned, watchPins) && h in watches
      modifies `pinned, `watchPins
      ensures Pinned(watches, pinned, watchPins) && watchPins.Keys == old(watchPins).Keys + {h}
    {
      hide Pinned, Counts, PinsOf;
      if h !in watchPins {
        var ids := SnapshotIds(watches[h].snapshot);
        CountsNow(watches, pinned, watchPins);
        pinned := PinFor(pinned, watchPins, h, ids);
        PinnedMore(watches, pinned, watchPins, h);
        watchPins := watchPins[h := ids];
      }
    }

    method UnpinShown(h: Handle)
      requires Pinned(watches, pinned, watchPins)
      modifies `pinned, `watchPins
      ensures Pinned(watches, pinned, watchPins) && watchPins.Keys == old(watchPins).Keys - {h}
    {
      hide Pinned, Counts, PinsOf;
      if h in watchPins {
        CountsNow(watches, pinned, watchPins);
        pinned := UnpinFor(pinned, watchPins, h);
        PinnedLess(watches, pinned, watchPins, h);
        watchPins := watchPins - {h};
      }
    }

    /** register: files the watch, and pins what it shows. */
    method Register(h: Handle)
      requires Valid() && h in watches
      modifies `idWatches, `addressWatches, `queryByKind, `queryAnyKind, `pinned, `watchPins
      ensures Valid() && watchPins.Keys == old(watchPins).Keys + {h}
    {
      hide Good, Filed, Coherent, Registered, Pinned, Cached, FiledAs, OthersFiled;
      ghost var b, registered := Buckets(), watchPins.Keys;
      RegisteredAt(watches, registered, b, h);
      File(h, watches[h].kind);
      Refiled(watches, registered, b, Buckets(), h);
      PinShown(h);
    }

    method Subscribe(h: Handle, subscriber: nat)
      requires Valid() && h in watches
      modifies `watches, `idWatches, `addressWatches, `queryByKind, `queryAnyKind, `pinned, `watchPins
      ensures Valid() && h in watches && watchPins.Keys == old(watchPins).Keys + {h} && !watches[h].pendingRemove
      ensures watches[h].subscribers == old(watches)[h].subscribers + {subscriber}
      ensures watches == old(watches)[h := watches[h]]
      ensures watches[h].snapshot == old(watches)[h].snapshot && watches[h].stamp == old(watches)[h].stamp
      ensures watches[h].kind == old(watches)[h].kind
    {
      hide Good, Filed, Coherent, Registered, Pinned, Cached, Compute;
      Register(h);
      var w := watches[h];
      NowFiled();
      CoherentAt(watches, h, version, index.Contents());
      var missed := !Subscribed(w) && w.version != version;
      var w' := w.(subscribers := w.subscribers + {subscriber}, pendingRemove := false, dirty := w.dirty || missed);
      CoherentWith(watches, h, w', version, index.Contents());
      ReplaceWatch(json, watches, watchPins.Keys, Buckets(), cache, nextHandle, h, w');
      ReplacePinned(watches, pinned, watchPins, h, w');
      watches := watches[h := w'];
    }

    /** The function that subscribe returns; the watch is unregistered later, unless it is subscribed again. */
    method Unsubscribe(h: Handle, subscriber: nat)
      requires Valid() && h in watches
      modifies `watches
      ensures Valid() && h in watches && watches[h].subscribers == old(watches)[h].subscribers - {subscriber}
      ensures !Subscribed(watches[h]) ==> watches[h].pendingRemove
      ensures watches == old(watches)[h := watches[h]] && watches[h].snapshot == old(watches)[h].snapshot
      ensures watches[h].kind == old(watches)[h].kind
    {
      hide Good, Filed, Coherent, Pinned, Cached, Compute, AllKnown, FiledAs;
      var w := watches[h];
      var left := w.subscribers - {subscriber};
      var w' := w.(subscribers := left, pendingRemove := w.pendingRemove || left == {});
      NowFiled();
      CoherentAt(watches, h, version, index.Contents());
      CoherentWith(watches, h, w', version, index.Contents());
      ReplaceWatch(json, watches, watchPins.Keys, Buckets(), cache, nextHandle, h, w');
      ReplacePinned(watches, pinned, watchPins, h, w');
      watches := watches[h := w'];
    }

    /** The deferred half: unregisters a watch that is still without subscribers. */
    method RunUnregister(h: Handle)
      requires Valid() && h in watches
      modifies `idWatches, `addressWatches, `queryByKind, `queryAnyKind, `pinned, `watchPins, `cache
      ensures Valid()
      ensures var gone := watches[h].pendingRemove && !Subscribed(watches[h]);
              && watchPins.Keys == (if gone then old(watchPins).Keys - {h} else old(watchPins).Keys)
              && var key := KeyOf(json, watches[h].kind);
              && cache == if gone && key in old(cache) && old(cache)[key] == h then old(cache) - {key} else old(cache)
    {
      hide Indexed, Recent, Fresh, Scheduled, Registered, Pinned, Cached, KeyOf, Subscribed, FiledAs, OthersFiled;
      if !watches[h].pendingRemove || Subscribed(watches[h]) {
        return;
      }
      var kind := watches[h].kind;
      ghost var b, registered := Buckets(), watchPins.Keys;
      RegisteredAt(watches, registered, b, h);
      Unfile(h, kind);
      Unregistered(watches, registered, b, Buckets(), h);
      var key := KeyOf(json, kind);
      CacheLess(json, watches, cache, nextHandle, key);
      if key in cache && cache[key] == h {
        cache := cache - {key};
      }
      UnpinShown(h);
    }

    method Unfile(h: Handle, kind: WatchKind)
      requires FiledAs(Buckets(), h, None) || FiledAs(Buckets(), h, Some(kind))
      modifies `idWatches, `addressWatches, `queryByKind, `queryAnyKind
      ensures FiledAs(Buckets(), h, None) && OthersFiled(old(Buckets()), Buckets(), h)
    {
      hide RemoveFrom, At, QueryKinds;
      match kind {
        case EventWatch(key) =>
          RemoveFromAt(idWatches, key, h);
          idWatches := RemoveFrom(idWatches, key, h);
        case AddressWatch(key) =>
          RemoveFromAt(addressWatches, key, h);
          addressWatches := RemoveFrom(addressWatches, key, h);
        case QueryWatch(filters) =>
          var kinds := QueryKinds(filters);
          if kinds.None? {
            queryAnyKind := queryAnyKind - {h};
          } else {
            queryByKind := RemoveFromAll(queryByKind, kinds.value, h);
          }
      }
    }

    /** repin: a registered watch pins what it now shows. */
    method Repin(h: Handle, ghost before: map<Handle, Watch>)
      requires h in before && Pinned(before, pinned, watchPins) && h in watches && watches == before[h := watches[h]]
      modifies `pinned, `watchPins
      ensures Pinned(watches, pinned, watchPins) && watchPins.Keys == old(watchPins).Keys
    {
      hide PinsOf, Counts;
      if h !in watchPins {
        return;
      }
      var next := SnapshotIds(watches[h].snapshot);
      pinned := UnpinFor(pinned, watchPins, h);
      pinned := PinFor(pinned, watchPins - {h}, h, next);
      assert (watchPins - {h})[h := next] == watchPins[h := next];
      watchPins := watchPins[h := next];
    }

    /**
     * What a watch shows is always what would be computed afresh; its reference is kept exactly when
     * that is what it showed before.
     */
    method GetSnapshot(h: Handle) returns (r: Snapshot)
      requires Valid() && h in watches
      modifies `recency, `watches, `pinned, `watchPins
      ensures Valid() && h in watches && Filed(index.Contents()) && r == watches[h].snapshot == Compute(watches[h].kind, index.Contents())
      ensures watches[h].stamp == old(watches)[h].stamp + (if r == old(watches)[h].snapshot then 0 else 1)
      ensures watches[h].kind == old(watches)[h].kind && watches[h].subscribers == old(watches)[h].subscribers
      ensures watches == old(watches)[h := watches[h]] && watchPins.Keys == old(watchPins).Keys
    {
      hide Good, Filed, Coherent, Registered, Pinned, Cached, Compute;
      var w := watches[h];
      NowFiled();
      CoherentAt(watches, h, version, index.Contents());
      var stale := if Subscribed(w) then w.dirty else w.version != version;
      if stale {
        var next := ComputeNow(w.kind);
        Refresh(h, next);
      }
      r := watches[h].snapshot;
    }

    /** Gives a watch the snapshot just computed. */
    method Refresh(h: Handle, next: Snapshot)
      requires Valid() && h in watches && Filed(index.Contents()) && next == Compute(watches[h].kind, index.Contents())
      modifies `watches, `pinned, `watchPins
      ensures Valid() && h in watches && watches[h].snapshot == next
      ensures watches[h].stamp == old(watches)[h].stamp + (if next == old(watches)[h].snapshot then 0 else 1)
      ensures watches[h].kind == old(watches)[h].kind && watches[h].subscribers == old(watches)[h].subscribers
      ensures watches == old(watches)[h := watches[h]] && watchPins.Keys == old(watchPins).Keys
    {
      hide Good, Filed, Coherent, Pinned, Cached, Compute, AllKnown, FiledAs;
      var w := watches[h];
      ghost var before := watches;
      var changed := next != w.snapshot;
      var w' := w.(snapshot := next, version := version, dirty := false, stamp := w.stamp + if changed then 1 else 0);
      CoherentAt(watches, h, version, index.Contents());
      CoherentWith(watches, h, w', version, index.Contents());
      ReplaceWatch(json, watches, watchPins.Keys, Buckets(), cache, nextHandle, h, w');
      watches := watches[h := w'];
      if changed {
        Repin(h, before);
      } else {
        ReplacePinned(before, pinned, watchPins, h, w');
      }
    }

    /** Notifies the watches marked since the last flush. */
    method Flush() returns (called: set<(Handle, nat)>)
      requires Valid()
      modifies `toNotify, `flushScheduled
      ensures Valid() && toNotify == {} && !flushScheduled
      ensures forall h, subscriber :: (h, subscriber) in called <==>
                h in old(toNotify) && h in watches && subscriber in watches[h].subscribers
    {
      hide Good, Filed, Coherent, Registered, Pinned, Cached;
      called := set h, subscriber | h in toNotify && h in watches && subscriber in watches[h].subscribers
                    :: (h, subscriber);
      toNotify := {};
      flushScheduled := false;
    }
  }

  // ---- steps of registration ----

  lemma EmptyOrder(byId: map<string, Event>)
    requires byId == map[]
    ensures WellFormed<string, ()>(Empty()) && Elements<string>([]) == byId.Keys
  {
  }

  /** Any event at all may concern the watch: it is no query without filters. */
  predicate Asks(watches: map<Handle, Watch>, h: Handle) {
    h in watches && watches[h].kind != QueryWatch([])
  }

  lemma AsksAlike(a: map<Handle, Watch>, b: map<Handle, Watch>)
    requires Alike(a, b)
    ensures forall h :: Asks(a, h) <==> Asks(b, h)
  {
  }

  /** Only a query without filters asks about no kind. */
  lemma {:induction false} SomeKind(filters: seq<Filter>)
    ensures QueryKinds(filters) == Some([]) <==> filters == []
  {
    if filters != [] {
      var f, front := filters[|filters| - 1], filters[..|filters| - 1];
      if f.kinds.Some? && f.kinds.value != [] && QueryKinds(front).Some? {
        var k := f.kinds.value[0];
        WithKindsHas(QueryKinds(front).value, f.kinds.value, k);
      }
    }
  }

  lemma AllFiled(watches: map<Handle, Watch>, registered: set<Handle>, b: Filing)
    requires Registered(watches, registered, b)
    ensures
      && var filed := AllIn(b.byId) + AllIn(b.byAddress) + AllIn(b.byKind) + b.anyKind;
      && filed <= watches.Keys && forall h :: h in filed <==> h in registered && Asks(watches, h)
  {
    var filed := AllIn(b.byId) + AllIn(b.byAddress) + AllIn(b.byKind) + b.anyKind;
    forall h
      ensures h in filed <==> h in registered && Asks(watches, h)
    {
      assert FiledAs(b, h, KindAt(watches, registered, h));
      if h in registered {
        FiledSomewhere(b, h, watches[h].kind);
      } else {
        FiledNowhere(b, h);
      }
    }
  }

  lemma FiledNowhere(b: Filing, h: Handle)
    requires FiledAs(b, h, None)
    ensures h !in AllIn(b.byId) + AllIn(b.byAddress) + AllIn(b.byKind) + b.anyKind
  {
    assert forall key :: key in b.byId ==> h !in At(b.byId, key);
    assert forall key :: key in b.byAddress ==> h !in At(b.byAddress, key);
    assert forall k :: k in b.byKind ==> h !in At(b.byKind, k);
  }

  lemma FiledSomewhere(b: Filing, h: Handle, kind: WatchKind)
    requires FiledAs(b, h, Some(kind))
    ensures h in AllIn(b.byId) + AllIn(b.byAddress) + AllIn(b.byKind) + b.anyKind <==> kind != QueryWatch([])
  {
    match kind
    case EventWatch(key) => assert h in At(b.byId, key);
    case AddressWatch(key) => assert h in At(b.byAddress, key);
    case QueryWatch(filters) =>
      SomeKind(filters);
      if QueryKinds(filters).Some? && filters != [] {
        var k := QueryKinds(filters).value[0];
        assert HasKind(kind, k) && h in At(b.byKind, k);
      } else if filters == [] {
        assert forall key :: key in b.byId ==> h !in At(b.byId, key);
        assert forall key :: key in b.byAddress ==> h !in At(b.byAddress, key);
        assert forall k :: k in b.byKind ==> h !in At(b.byKind, k);
      }
  }

  lemma KnownWatches(watches: map<Handle, Watch>, registered: set<Handle>, b: Filing)
    requires Registered(watches, registered, b)
    ensures AllKnown(b, watches.Keys)
  {
    forall key, h | key in b.byId && h in b.byId[key]
      ensures h in watches
    {
      assert FiledAs(b, h, KindAt(watches, registered, h)) && h in At(b.byId, key);
    }
    forall key, h | key in b.byAddress && h in b.byAddress[key]
      ensures h in watches
    {
      assert FiledAs(b, h, KindAt(watches, registered, h)) && h in At(b.byAddress, key);
    }
    forall k, h | k in b.byKind && h in b.byKind[k]
      ensures h in watches
    {
      assert FiledAs(b, h, KindAt(watches, registered, h)) && h in At(b.byKind, k);
    }
    forall h | h in b.anyKind
      ensures h in watches
    {
      assert FiledAs(b, h, KindAt(watches, registered, h));
    }
  }

  lemma BucketsKnown(b: Filing, handles: set<Handle>, k: int)
    requires AllKnown(b, handles)
    ensures At(b.byKind, k) <= handles && b.anyKind <= handles
  {
  }

  lemma NewWatch(watches: map<Handle, Watch>, registered: set<Handle>, b: Filing, pinned: map<string, nat>,
                 watchPins: map<Handle, seq<string>>, h: Handle, w: Watch)
    requires Registered(watches, registered, b) && Pinned(watches, pinned, watchPins) && h !in watches && !Subscribed(w)
    ensures Registered(watches[h := w], registered, b) && Pinned(watches[h := w], pinned, watchPins)
  {
    hide FiledAs, Counts, PinsOf;
    var watches' := watches[h := w];
    assert watches'.Keys == watches.Keys + {h};
    forall g
      ensures FiledAs(b, g, KindAt(watches', registered, g))
    {
      assert FiledAs(b, g, KindAt(watches, registered, g));
    }
  }

  /** Filing `h` alone has changed. */
  ghost predicate OthersFiled(b: Filing, b': Filing, h: Handle) {
    forall g, kind :: g != h && FiledAs(b, g, kind) ==> FiledAs(b', g, kind)
  }

  lemma Refiled(watches: map<Handle, Watch>, registered: set<Handle>, b: Filing, b': Filing, h: Handle)
    requires Registered(watches, registered, b) && h in watches
    requires FiledAs(b', h, Some(watches[h].kind)) && OthersFiled(b, b', h)
    ensures Registered(watches, registered + {h}, b') && (h in registered ==> registered + {h} == registered)
  {
    hide FiledAs;
    forall g
      ensures FiledAs(b', g, KindAt(watches, registered + {h}, g))
    {
      assert FiledAs(b, g, KindAt(watches, registered, g));
    }
  }

  lemma Unregistered(watches: map<Handle, Watch>, registered: set<Handle>, b: Filing, b': Filing, h: Handle)
    requires Registered(watches, registered, b) && h in watches && !Subscribed(watches[h])
    requires FiledAs(b', h, None) && OthersFiled(b, b', h)
    ensures Registered(watches, registered - {h}, b') && (h !in registered ==> registered - {h} == registered)
  {
    hide FiledAs;
    forall g
      ensures FiledAs(b', g, KindAt(watches, registered - {h}, g))
    {
      assert FiledAs(b, g, KindAt(watches, registered, g));
    }
  }

  lemma RegisteredAt(watches: map<Handle, Watch>, registered: set<Handle>, b: Filing, h: Handle)
    requires Registered(watches, registered, b) && h in watches
    ensures FiledAs(b, h, None) || FiledAs(b, h, Some(watches[h].kind))
  {
    assert FiledAs(b, h, KindAt(watches, registered, h));
  }

  lemma CachedFacts(json: Filter -> string, watches: map<Handle, Watch>, cache: map<CacheKey, Handle>, next: Handle,
                    key: CacheKey)
    requires Cached(json, watches, cache, next)
    ensures next !in watches
    ensures key in cache ==> cache[key] in watches && KeyOf(json, watches[cache[key]].kind) == key
  {
    hide KeyOf;
  }

  /** A new watch is cached under its key. */
  lemma CacheMore(json: Filter -> string, watches: map<Handle, Watch>, cache: map<CacheKey, Handle>, next: Handle,
                  w: Watch)
    requires Cached(json, watches, cache, next)
    ensures Cached(json, watches[next := w], cache[KeyOf(json, w.kind) := next], next + 1)
  {
    hide KeyOf;
  }

  lemma CacheLess(json: Filter -> string, watches: map<Handle, Watch>, cache: map<CacheKey, Handle>, next: Handle,
                  key: CacheKey)
    requires Cached(json, watches, cache, next)
    ensures Cached(json, watches, cache - {key}, next)
  {
  }

  lemma CountsNow(watches: map<Handle, Watch>, pinned: map<string, nat>, watchPins: map<Handle, seq<string>>)
    requires Pinned(watches, pinned, watchPins)
    ensures Counts(pinned, PinsOf(watchPins))
    ensures forall g :: g in watchPins ==> g in watches && watchPins[g] == SnapshotIds(watches[g].snapshot)
  {
  }

  lemma PinnedMore(watches: map<Handle, Watch>, pinned: map<string, nat>, watchPins: map<Handle, seq<string>>,
                   h: Handle)
    requires h in watches && Counts(pinned, PinsOf(watchPins[h := SnapshotIds(watches[h].snapshot)]))
    requires forall g :: g in watchPins ==> g in watches && watchPins[g] == SnapshotIds(watches[g].snapshot)
    ensures Pinned(watches, pinned, watchPins[h := SnapshotIds(watches[h].snapshot)])
  {
    hide Counts, PinsOf;
  }

  lemma PinnedLess(watches: map<Handle, Watch>, pinned: map<string, nat>, watchPins: map<Handle, seq<string>>,
                   h: Handle)
    requires Counts(pinned, PinsOf(watchPins - {h}))
    requires forall g :: g in watchPins ==> g in watches && watchPins[g] == SnapshotIds(watches[g].snapshot)
    ensures Pinned(watches, pinned, watchPins - {h})
  {
    hide Counts, PinsOf;
  }

  function AllIn<K>(m: map<K, set<Handle>>): set<Handle> {
    set key, h | key in m && h in m[key] :: h
  }

  method AddToAll(m: map<int, set<Handle>>, kinds: seq<int>, h: Handle) returns (r: map<int, set<Handle>>)
    ensures forall k :: At(r, k) == if k in kinds then At(m, k) + {h} else At(m, k)
  {
    r := m;
    for i := 0 to |kinds|
      invariant forall k :: At(r, k) == if k in kinds[..i] then At(m, k) + {h} else At(m, k)
    {
      assert kinds[..i + 1] == kinds[..i] + [kinds[i]];
      AddToAt(r, kinds[i], h);
      r := AddTo(r, kinds[i], h);
    }
    assert kinds[..|kinds|] == kinds;
  }

  method RemoveFromAll(m: map<int, set<Handle>>, kinds: seq<int>, h: Handle) returns (r: map<int, set<Handle>>)
    ensures forall k :: At(r, k) == if k in kinds then At(m, k) - {h} else At(m, k)
  {
    r := m;
    for i := 0 to |kinds|
      invariant forall k :: At(r, k) == if k in kinds[..i] then At(m, k) - {h} else At(m, k)
    {
      assert kinds[..i + 1] == kinds[..i] + [kinds[i]];
      RemoveFromAt(r, kinds[i], h);
      r := RemoveFrom(r, kinds[i], h);
    }
    assert kinds[..|kinds|] == kinds;
  }

  /** Removal callbacks for all stored events. */
  method RemovedInTurn(byId: map<string, Event>) returns (changes: seq<Change>)
    requires forall id :: id in byId ==> byId[id].id == id
    ensures IdsAfter(byId.Keys, changes) == {}
    ensures forall id :: id in byId ==> Removed(byId[id]) in changes
  {
    changes := [];
    var left := byId.Keys;
    while left != {}
      invariant left <= byId.Keys && IdsAfter(byId.Keys, changes) == left
      invariant forall id :: id in byId && id !in left ==> Removed(byId[id]) in changes
      decreases |left|
    {
      var id :| id in left;
      left := left - {id};
      assert (changes + [Removed(byId[id])])[..|changes|] == changes;
      changes := changes + [Removed(byId[id])];
    }
  }

  lemma KeyedById(s: Store)
    requires Filed(s)
    ensures forall id :: id in s.events ==> s.events[id].id == id
  {
  }

  lemma DiffersFromEmpty(s: Store, s': Store, x: Event)
    requires Filed(s) && s'.events == map[] && Differs(s, s', x)
    ensures x.id in s.events && s.events[x.id] == x
  {
    StockOnce(s);
  }

  lemma StillThere(byId: map<string, Event>, id: string)
    requires id in byId
    ensures byId.Keys + {id} == byId.Keys
  {
  }

  /** No stored event is under a tombstone, so it is there to be read. */
  lemma StoredIsRead(s: Store, u: set<Event>, id: string)
    requires Good(s, u)
    ensures id in s.events ==> id !in s.deletion.ids.values && s.events[id].id == id
  {
    if id in s.events {
      assert !Deletion.Covers(s.deletion, s.events[id]);
    }
  }

  lemma WinnerIsRead(s: Store, u: set<Event>, a: Option<Address>, r: Option<Event>)
    requires Good(s, u)
    requires r.Some? <==> a.Some? && exists id :: id in s.events && EventAddress(s.events[id]) == a && id !in s.deletion.ids.values
    requires r.Some? ==> r.value.id in s.events && s.events[r.value.id] == r.value && EventAddress(r.value) == a
    ensures r == if a.Some? && a.value in s.winners then Some(s.events[s.winners[a.value]]) else None
  {
    if a.Some? && a.value in s.winners {
      var id := s.winners[a.value];
      StoredIsRead(s, u, id);
      assert EventAddress(s.events[id]) == a;
    }
  }

  lemma QueriedAreStored(s: Store, filters: seq<Filter>)
    requires Filed(s) && OneEventPerId(Stock(s))
    ensures forall e :: e in Members(Listing.Query(Stock(s), filters)) ==> e.id in s.events
  {
    StockOnce(s);
  }

  /** Stored ids are lower-case hex, so that evicting by id is exact. */
  lemma EvictsExactly(s: Store, u: set<Event>, ids: seq<string>)
    requires Good(s, u) && Distinct(ids) && Elements(ids) <= s.events.Keys
    ensures var s' := Evict(s, ids);
            && s'.events == s.events - Elements(ids) && |s'.events| == |s.events| - |ids|
            && IdsAfter(s.events.Keys, RemovalsOf(s, ids)) == s'.events.Keys
    ensures forall x :: Differs(s, Evict(s, ids), x) ==> x in ChangedEvents(RemovalsOf(s, ids))
  {
    hide RemovalsOf, Differs, FiledMarks, NoneCovered, Known;
    assert LowerIds(ids) == ids by {
      forall i | 0 <= i < |ids|
        ensures Lower(ids[i]) == ids[i]
      {
        assert ids[i] in Elements(ids) && s.events[ids[i]].id == ids[i];
        LowerHex(ids[i]);
      }
    }
    EvictedAre(s, u, ids);
    RemovalsIds(s, ids);
    DistinctCount(ids);
    assert s.events.Keys == Evict(s, ids).events.Keys + Elements(ids);
    forall x | Differs(s, Evict(s, ids), x)
      ensures x in ChangedEvents(RemovalsOf(s, ids))
    {
      RemovalChangesAll(s, Evict(s, ids), ids, x);
    }
  }

  lemma RemovesExactly(s: Store, u: set<Event>, ids: seq<string>)
    requires Good(s, u)
    ensures var s' := Storage.Remove(s, ids);
            && s'.events == s.events - Elements(LowerIds(ids))
            && IdsAfter(s.events.Keys, RemovalsOf(s, LowerIds(ids))) == s'.events.Keys
    ensures forall x :: Differs(s, Storage.Remove(s, ids), x) ==> x in ChangedEvents(RemovalsOf(s, LowerIds(ids)))
  {
    hide RemovalsOf, Differs, FiledEvents, FiledMarks, NoneCovered, Known;
    RemovedEach(s, u, ids);
    RemovalsIds(s, LowerIds(ids));
    forall x | Differs(s, Storage.Remove(s, ids), x)
      ensures x in ChangedEvents(RemovalsOf(s, LowerIds(ids)))
    {
      RemovalChangesAll(s, Storage.Remove(s, ids), LowerIds(ids), x);
    }
  }

  /** Marking a watch changes nothing else about it. */
  lemma DirtyKeeps(watches: map<Handle, Watch>, marked: set<Handle>)
    ensures DirtyAll(watches, marked).Keys == watches.Keys
    ensures forall h :: h in watches ==>
              var w := DirtyAll(watches, marked)[h];
              w.kind == watches[h].kind && w.snapshot == watches[h].snapshot && w.subscribers == watches[h].subscribers
  {
  }

  /** The ids to evict: the least recently used ones that are neither pinned nor protected, as many as are too many. */
  method ChooseEvicted(order: seq<string>, size: nat, max: nat, pinned: map<string, nat>, protectedId: Option<string>)
    returns (evicting: seq<string>)
    ensures evicting == Chosen(order, size, max, pinned, protectedId)
  {
    evicting := [];
    for i := 0 to |order|
      invariant evicting == Chosen(order[..i], size, max, pinned, protectedId)
    {
      if size - |evicting| <= max {
        ChosenEnough(order, i, size, max, pinned, protectedId);
        return;
      }
      var id := order[i];
      assert order[..i + 1][..i] == order[..i] && order[..i + 1][i] == id;
      if id !in pinned && protectedId != Some(id) {
        evicting := evicting + [id];
      }
    }
    assert order[..|order|] == order;
  }

  lemma EvictsNothing(s: Store, recency: Recency)
    ensures Evict(s, []) == s && RemovalsOf(s, []) == [] && ReorderedAll(recency, []) == recency
  {
  }

  method AnyMatch(filters: seq<Filter>, e: Event) returns (r: bool)
    ensures r == MatchesAny(filters, e)
  {
    for i := 0 to |filters|
      invariant forall k :: 0 <= k < i ==> !Matches(filters[k], e)
    {
      var hit := MatchFilter(filters[i], e);
      if hit {
        assert filters[i] in filters;
        return true;
      }
    }
    r := false;
  }

  lemma NoChangedEvents(changes: seq<Change>)
    ensures changes == [] ==> ChangedEvents(changes) == {}
  {
  }

  lemma NothingMarked(watches: map<Handle, Watch>, registered: set<Handle>)
    ensures MarksExactly(watches, registered, ChangedEvents([]), {})
  {
  }

  lemma NoneMarked(watches: map<Handle, Watch>, registered: set<Handle>, events: set<Event>, marked: set<Handle>)
    requires MarksExactly(watches, registered, events, marked)
    ensures events == {} ==> marked == {}
  {
  }

  lemma MarkedMore(watches: map<Handle, Watch>, registered: set<Handle>, changes: seq<Change>, c: Change,
                   marked: set<Handle>, more: set<Handle>)
    requires MarksExactly(watches, registered, ChangedEvents(changes), marked)
    requires MarksExactly(DirtyAll(watches, marked), registered, {c.event}, more)
    ensures MarksExactly(watches, registered, ChangedEvents(changes + [c]), marked + more)
  {
    hide Concerns;
    var events := ChangedEvents(changes);
    assert ChangedEvents(changes + [c]) == events + {c.event};
    forall h
      ensures h in marked + more <==> h in registered && h in watches && Concerned(watches[h].kind, events + {c.event})
    {
      if h in watches {
        assert DirtyAll(watches, marked)[h].kind == watches[h].kind;
        ConcernedBoth(watches[h].kind, events, {c.event});
      }
    }
  }

  lemma ConcernedBoth(kind: WatchKind, a: set<Event>, b: set<Event>)
    ensures Concerned(kind, a + b) <==> Concerned(kind, a) || Concerned(kind, b)
  {
    hide Concerns;
    if e :| e in a && Concerns(kind, e) {
      assert e in a + b;
    }
    if e :| e in b && Concerns(kind, e) {
      assert e in a + b;
    }
  }

  lemma NothingNotified(waiting: set<Handle>, watches: map<Handle, Watch>, registered: set<Handle>)
    ensures Notified(waiting, waiting, watches, registered, ChangedEvents([]))
  {
  }

  lemma NotifiedGrows(before: set<Handle>, after: set<Handle>, watches: map<Handle, Watch>, registered: set<Handle>,
                      events: set<Event>)
    requires Notified(before, after, watches, registered, events)
    ensures before <= after
  {
    hide Concerned;
  }

  lemma NotifiedWithin(before: set<Handle>, after: set<Handle>, watches: map<Handle, Watch>, registered: set<Handle>,
                       events: set<Event>)
    requires Notified(before, after, watches, registered, events)
    ensures before <= after && forall h :: h in after ==> h in before || (h in registered && Asks(watches, h))
  {
  }

  lemma NotifiedBoth(before: set<Handle>, middle: set<Handle>, after: set<Handle>, watches: map<Handle, Watch>,
                     between: map<Handle, Watch>, registered: set<Handle>, a: set<Event>, b: set<Event>)
    requires Notified(before, middle, watches, registered, a) && Notified(middle, after, between, registered, b)
    requires Alike(watches, between)
    ensures Notified(before, after, watches, registered, a + b) && before <= middle <= after
  {
    hide Concerned;
    forall h
      ensures h in after <==> h in before || (h in registered && h in watches && Concerned(watches[h].kind, a + b))
    {
      if h in watches {
        ConcernedBoth(watches[h].kind, a, b);
      }
    }
  }

  lemma AlikeSelf(watches: map<Handle, Watch>)
    ensures Alike(watches, watches)
  {
  }

  lemma AlikeBoth(a: map<Handle, Watch>, b: map<Handle, Watch>, c: map<Handle, Watch>)
    requires Alike(a, b) && Alike(b, c)
    ensures Alike(a, c)
  {
  }

  lemma AlertedMore(watches: map<Handle, Watch>, s: Store, s': Store, some: set<Handle>, more: set<Handle>)
    requires Alerted(watches, s, s', some) && some <= more
    ensures Alerted(watches, s, s', more)
  {
    hide Compute, Filed;
  }

  /** One more tag of a deletion. */
  lemma NamesNext(e: Event, i: nat, kind: WatchKind)
    requires i < |e.tags|
    ensures NamesTarget(e.(tags := e.tags[..i + 1]), kind) <==>
      || NamesTarget(e.(tags := e.tags[..i]), kind)
      || NamesTarget(e.(tags := [e.tags[i]]), kind)
  {
    hide ParsesTo, Lower;
    var before, more, one := e.tags[..i], e.tags[..i + 1], [e.tags[i]];
    assert forall k :: 0 <= k < i ==> more[k] == before[k];
    assert more[i] == one[0];
  }

  /** The watch is among those that the event leads to exactly when the event concerns it. */
  lemma HandleConcerned(watches: map<Handle, Watch>, registered: set<Handle>, b: Filing, h: Handle, e: Event)
    requires Registered(watches, registered, b)
    ensures
      && var a := EventAddress(e);
      && (h in registered && h in watches && Concerned(watches[h].kind, {e}) <==>
            || h in At(b.byId, e.id)
            || (a.Some? && a.value.kind >= 0 && h in At(b.byAddress, FormatAddress(a.value)))
            || (e.kind == EVENT_DELETION && h in registered && h in watches && NamesTarget(e, watches[h].kind))
            || (h in watches && watches[h].kind.QueryWatch? && MatchesAny(watches[h].kind.filters, e) &&
                (h in At(b.byKind, e.kind) || h in b.anyKind)))
  {
    hide FormatAddress, MatchesAny, EventAddress, ParsesTo, Lower, QueryKinds;
    assert FiledAs(b, h, KindAt(watches, registered, h));
    if h in registered {
      var kind := watches[h].kind;
      WhereTouched(b, h, kind, e);
      assert Concerned(kind, {e}) <==> Concerns(kind, e) by {
        assert e in {e};
      }
      hide FiledAs, Touches, NamesTarget;
    }
  }

  lemma AllConcerned(watches: map<Handle, Watch>, registered: set<Handle>, b: Filing, e: Event, named: set<Handle>,
                     byKind: set<Handle>, anyKind: set<Handle>)
    requires Registered(watches, registered, b)
    requires forall h :: h in named <==>
      e.kind == EVENT_DELETION && h in registered && h in watches && NamesTarget(e, watches[h].kind)
    requires forall h :: h in byKind <==>
      h in At(b.byKind, e.kind) && h in watches && watches[h].kind.QueryWatch? && MatchesAny(watches[h].kind.filters, e)
    requires forall h :: h in anyKind <==>
      h in b.anyKind && h in watches && watches[h].kind.QueryWatch? && MatchesAny(watches[h].kind.filters, e)
    ensures
      && var a := EventAddress(e);
      && var byAddress := if a.Some? && a.value.kind >= 0 then At(b.byAddress, FormatAddress(a.value)) else {};
      && var marked := At(b.byId, e.id) + byAddress + named + byKind + anyKind;
      && MarksExactly(watches, registered, {e}, marked) && marked <= watches.Keys
  {
    hide Registered, EventAddress, FormatAddress, MatchesAny, NamesTarget, At, Concerned;
    var a := EventAddress(e);
    var byAddress := if a.Some? && a.value.kind >= 0 then At(b.byAddress, FormatAddress(a.value)) else {};
    var marked := At(b.byId, e.id) + byAddress + named + byKind + anyKind;
    forall h
      ensures h in marked <==> h in registered && h in watches && Concerned(watches[h].kind, {e})
    {
      HandleConcerned(watches, registered, b, h, e);
    }
  }
}
