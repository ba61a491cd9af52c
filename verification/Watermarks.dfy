/** The newest version of an address a store knows of never moves backwards (src/storage/memory-index.ts). */
module Watermarks {
  import opened Results
  import opened Events
  import opened Ordered
  import opened Storage
  import opened StorageInvariants
  import opened StorageSteps

  predicate NotBehind(later: Option<Winner>, earlier: Option<Winner>) {
    earlier.Some? ==>
      later.Some? && (later.value.mark == earlier.value.mark || Wins(later.value.mark, earlier.value.mark))
  }

  lemma NotBehindTransitive(a: Option<Winner>, b: Option<Winner>, c: Option<Winner>)
    requires NotBehind(a, b) && NotBehind(b, c)
    ensures NotBehind(a, c)
  {
    if c.Some? && Wins(a.value.mark, b.value.mark) && Wins(b.value.mark, c.value.mark) {
      WinsTransitive(a.value.mark, b.value.mark, c.value.mark);
    }
  }

  /** Only the mark of an event itself carries its id. */
  lemma MarkIsOwn(s: Store, u: set<Event>, a: Address, x: Event)
    requires Known(s, u) && OneEventPerId(u) && x in u && a in s.watermarks.values && s.watermarks.values[a].id == x.id
    ensures s.watermarks.values[a] == MarkOf(x) && EventAddress(x) == Some(a)
  {
    var y :| y in u && MarkOf(y) == s.watermarks.values[a] && EventAddress(y) == Some(a);
    assert y == x;
  }

  lemma RemovalLeaves(s: Store, u: set<Event>, id: string, a: Address)
    requires Good(s, u) && OneEventPerId(u) && id in s.events && EventAddress(s.events[id]) != Some(a)
    ensures CurrentAt(IndexRemove(s, id), a) == CurrentAt(s, a)
  {
    IndexRemoveIs(s, id);
    IndexRemoveFiles(s, id);
    if a in s.watermarks.values && s.watermarks.values[a].id == id {
      MarkIsOwn(s, u, a, s.events[id]);
    }
  }

  lemma InsertionLeaves(s: Store, e: Event, a: Address)
    requires Filed(s) && EventAddress(e) != Some(a) && e.id !in s.events
    ensures CurrentAt(IndexInsert(s, e), a) == CurrentAt(s, a)
  {
  }

  lemma AcceptedWins(s: Store, e: Event)
    requires DecisionFor(s, e).Insert? && EventAddress(e).Some?
    ensures var c := CurrentAt(s, EventAddress(e).value); c.Some? ==> c.value.mark.id == e.id || Wins(MarkOf(e), c.value.mark)
  {
  }

  lemma InsertionTakes(s: Store, e: Event, a: Address)
    requires EventAddress(e) == Some(a)
    ensures CurrentAt(IndexInsert(s, e), a) == Some(Winner(MarkOf(e), false))
  {
  }

  /** An accepted event moves the frontier of its own address forwards, and no other. */
  lemma InsertFrontier(s: Store, u: set<Event>, e: Event, a: Address)
    requires Good(s, u) && OneEventPerId(u) && e in u && DecisionFor(s, e).Insert?
    ensures NotBehind(CurrentAt(ApplyInsert(s, e, DecisionFor(s, e).replaceId), a), CurrentAt(s, a))
  {
    var r := DecisionFor(s, e).replaceId;
    InsertingReplaces(s, e);
    if EventAddress(e) == Some(a) {
      AcceptedWins(s, e);
      InsertionTakes(if r.None? then s else IndexRemove(s, r.value), e, a);
      if !HasLive(s, a) && a in s.watermarks.values && s.watermarks.values[a].id == e.id {
        MarkIsOwn(s, u, a, e);
      }
    } else if r.Some? {
      RemovalLeaves(s, u, r.value, a);
      IndexRemoveIs(s, r.value);
      IndexRemoveFiles(s, r.value);
      InsertionLeaves(IndexRemove(s, r.value), e, a);
    } else {
      InsertionLeaves(s, e, a);
    }
  }

  lemma TrimmingLeaves(s: Store, a: Address)
    ensures CurrentAt(Trimmed(s), a) == CurrentAt(s, a)
  {
  }

  lemma UnlessInserted(s: Store, e: Event)
    requires e.kind != EVENT_DELETION && !DecisionFor(s, e).Insert?
    ensures Settle(s, e) == s.(deletion := Settle(s, e).deletion)
  {
    hide CoordinateIds, CoordinateRemovals, Canonical, LookupOf, ApplyErase, ApplyInsert;
  }

  lemma IfInserted(s: Store, e: Event)
    requires DecisionFor(s, e).Insert?
    ensures Settle(s, e) == ApplyInsert(s, e, DecisionFor(s, e).replaceId)
  {
  }

  /** A put that is no deletion moves the frontier of an address forwards or not at all. */
  lemma PutFrontier(s: Store, u: set<Event>, e: Event, a: Address)
    requires Good(s, u) && OneEventPerId(u) && e in u && e.kind != EVENT_DELETION
    ensures NotBehind(CurrentAt(Put(s, e), a), CurrentAt(s, a))
  {
    TrimmingLeaves(Settle(s, e), a);
    if DecisionFor(s, e).Insert? {
      IfInserted(s, e);
      InsertFrontier(s, u, e, a);
    } else {
      UnlessInserted(s, e);
    }
  }

  /** The eviction of `id` forgets no watermark. */
  predicate RoomFor(s: Store, id: string) {
    Lower(id) in s.events && EventAddress(s.events[Lower(id)]).Some? ==> |s.watermarks.keys| < s.maxWatermarks
  }

  lemma EvictFrontier(s: Store, u: set<Event>, id: string, a: Address)
    requires Good(s, u) && OneEventPerId(u) && RoomFor(s, id)
    ensures NotBehind(CurrentAt(EvictOne(s, id), a), CurrentAt(s, a))
  {
    var key := Lower(id);
    if key in s.events {
      var e, s1 := s.events[key], IndexRemove(s, key);
      IndexRemoveIs(s, key);
      IndexRemoveFiles(s, key);
      if EventAddress(e) != Some(a) {
        RemovalLeaves(s, u, key, a);
      }
      if EventAddress(e).Some? {
        MarkRoom(s, u, key, EventAddress(e).value);
      }
    }
  }

  /** With room left, a new mark joins the others. */
  lemma MarkRoom(s: Store, u: set<Event>, id: string, a: Address)
    requires Good(s, u) && OneEventPerId(u) && id in s.events && EventAddress(s.events[id]) == Some(a)
    requires |s.watermarks.keys| < s.maxWatermarks
    ensures var s1, m := IndexRemove(s, id), MarkOf(s.events[id]);
            SetMark(s1, a, m) == s1.(watermarks := Enter(s1.watermarks, a, m))
  {
    var s1, m := IndexRemove(s, id), MarkOf(s.events[id]);
    IndexRemoveIs(s, id);
    IndexRemoveFiles(s, id);
    DeleteWellFormed(s1.watermarks, a);
    var found := MarkedBy(s.watermarks.keys, s.watermarks.values, id);
    if found.Some? {
      MarkIsOwn(s, u, found.value, s.events[id]);
      assert false;
    }
    EnterWellFormed(s1.watermarks, a, m);
    TrimWellFormed(Enter(s1.watermarks, a, m), s.maxWatermarks);
  }

  /** The operation is no deletion, no removal, and forgets no watermark. */
  predicate Quiet(s: Store, op: Op) {
    match op
    case PutOp(e) => e.kind != EVENT_DELETION
    case EvictOp(ids) => forall k :: 0 <= k < |ids| ==> RoomFor(Evict(s, ids[..k]), ids[k])
    case _ => false
  }

  predicate AllQuiet(s: Store, ops: seq<Op>) {
    forall k :: 0 <= k < |ops| ==> Quiet(Run(s, ops[..k]), ops[k])
  }

  lemma {:induction false} EvictAllFrontier(s: Store, u: set<Event>, ids: seq<string>, a: Address)
    requires Good(s, u) && OneEventPerId(u) && Quiet(s, EvictOp(ids))
    ensures NotBehind(CurrentAt(Evict(s, ids), a), CurrentAt(s, a))
  {
    if ids != [] {
      var before := ids[..|ids| - 1];
      assert forall k :: 0 <= k < |before| ==> before[..k] == ids[..k];
      EvictAllFrontier(s, u, before, a);
      EvictKeeps(s, u, before);
      EvictFrontier(Evict(s, before), u, ids[|ids| - 1], a);
      NotBehindTransitive(CurrentAt(Evict(s, ids), a), CurrentAt(Evict(s, before), a), CurrentAt(s, a));
    }
  }

  /** Over any run of puts that are no deletions, and evictions that forget no watermark, the frontier of every address only advances. */
  lemma {:induction false} FrontierAdvances(s: Store, u: set<Event>, ops: seq<Op>, a: Address)
    requires Good(s, u) && OneEventPerId(u) && PutBy(ops) <= u && AllQuiet(s, ops)
    ensures NotBehind(CurrentAt(Run(s, ops), a), CurrentAt(s, a)) && Good(Run(s, ops), u)
  {
    if ops != [] {
      var before, op := ops[..|ops| - 1], ops[|ops| - 1];
      assert forall k :: 0 <= k < |before| ==> before[..k] == ops[..k];
      FrontierAdvances(s, u, before, a);
      assert Quiet(Run(s, before), op);
      if op.PutOp? {
        assert op.event in PutBy(ops);
        PutFrontier(Run(s, before), u, op.event, a);
        PutKeeps(Run(s, before), u, op.event);
      } else {
        EvictAllFrontier(Run(s, before), u, op.ids, a);
        EvictKeeps(Run(s, before), u, op.ids);
      }
      NotBehindTransitive(CurrentAt(Run(s, ops), a), CurrentAt(Run(s, before), a), CurrentAt(s, a));
    }
  }
}
