/**
 * Runs of the reactive store: whoever stays subscribed while what a watch shows changes is called by the next flush
 * (src/store/reactive.ts).
 */
module ReactiveRuns {
  import opened Results
  import opened Events
  import opened Storage
  import opened StorageInvariants
  import opened StorageSteps
  import opened Filters
  import opened ReactiveSpec
  import opened Reactive

  /** The calls that may come between two flushes. */
  datatype Call =
    | Add(event: Event)
    | Hydrate(events: seq<Event>)
    | Remove(ids: seq<string>)
    | Clear
    | Get(id: string)
    | GetByAddress(address: string)
    | Query(filters: seq<Filter>)
    | WatchEvent(id: string)
    | WatchReplaceable(kind: nat, pubkey: string, d: string)
    | WatchQuery(filters: seq<Filter>)
    | Subscribe(h: Handle, subscriber: nat)
    | Unsubscribe(h: Handle, subscriber: nat)
    | RunUnregister(h: Handle)
    | GetSnapshot(h: Handle)

  ghost predicate Writes(c: Call, u: set<Event>) {
    && (c.Add? ==> c.event in u)
    && (c.Hydrate? ==> forall e :: e in c.events ==> e in u)
  }

  /** The call is about a watch that was handed out, if it is about one. */
  predicate Known(c: Call, watches: map<Handle, Watch>) {
    c.Subscribe? || c.Unsubscribe? || c.RunUnregister? || c.GetSnapshot? ==> c.h in watches
  }

  /** All watches are still there, with all their subscribers apart from those that left. */
  ghost predicate Stays(before: map<Handle, Watch>, after: map<Handle, Watch>, left: set<(Handle, nat)>) {
    forall h :: h in before ==>
      && h in after && after[h].kind == before[h].kind
      && forall x :: x in before[h].subscribers && (h, x) !in left ==> x in after[h].subscribers
  }

  /** The watches are waiting of those who stayed subscribed and would be shown something else. */
  ghost predicate Told(before: map<Handle, Watch>, s: Store, s': Store, left: set<(Handle, nat)>, waiting: set<Handle>)
    requires Filed(s) && Filed(s')
  {
    forall h, x | h in before && x in before[h].subscribers && (h, x) !in left ::
      Compute(before[h].kind, s) != Compute(before[h].kind, s') ==> h in waiting
  }

  /** Who leaves by a call. */
  function Leaver(c: Call): set<(Handle, nat)> {
    if c.Unsubscribe? then {(c.h, c.subscriber)} else {}
  }

  function Leavers(calls: seq<Call>): set<(Handle, nat)> {
    set c | c in calls && c.Unsubscribe? :: (c.h, c.subscriber)
  }

  lemma LeaversNext(calls: seq<Call>, c: Call)
    ensures Leavers(calls + [c]) == Leavers(calls) + Leaver(c)
  {
    forall x | x in Leaver(c)
      ensures x in Leavers(calls + [c])
    {
      assert c in calls + [c];
    }
    forall x | x in Leavers(calls)
      ensures x in Leavers(calls + [c])
    {
      var d :| d in calls && d.Unsubscribe? && x == (d.h, d.subscriber);
      assert d in calls + [c];
    }
  }

  lemma AlikeStays(before: map<Handle, Watch>, after: map<Handle, Watch>)
    requires Alike(before, after)
    ensures Stays(before, after, {})
  {
  }

  lemma StaysBoth(a: map<Handle, Watch>, b: map<Handle, Watch>, c: map<Handle, Watch>, left: set<(Handle, nat)>,
                  more: set<(Handle, nat)>)
    requires Stays(a, b, left) && Stays(b, c, more)
    ensures Stays(a, c, left + more)
  {
  }

  lemma ToldBoth(a: map<Handle, Watch>, b: map<Handle, Watch>, s: Store, t: Store, s': Store, left: set<(Handle, nat)>,
                 more: set<(Handle, nat)>, middle: set<Handle>, after: set<Handle>)
    requires Filed(s) && Filed(t) && Filed(s')
    requires Stays(a, b, left) && Told(a, s, t, left, middle) && Alerted(b, t, s', after) && middle <= after
    ensures Told(a, s, s', left + more, after)
  {
    hide Compute, Filed;
    forall h, x | h in a && x in a[h].subscribers && (h, x) !in left + more &&
      Compute(a[h].kind, s) != Compute(a[h].kind, s')
      ensures h in after
    {
      assert x in b[h].subscribers && Subscribed(b[h]);
    }
  }

  method DoWrite(store: ReactiveEventStore, c: Call)
    requires store.Valid() && Writes(c, store.u) && (c.Add? || c.Hydrate? || c.Remove? || c.Clear?)
    modifies store, store.index, store.index.deletion
    ensures store.Valid() && Alike(old(store.watches), store.watches)
    ensures Alerted(old(store.watches), old(store.index.Contents()), store.index.Contents(), store.toNotify)
    ensures old(store.toNotify) <= store.toNotify
  {
    hide ReactiveEventStore.Indexed, ReactiveEventStore.Recent, ReactiveEventStore.Fresh, Registered, Pinned, Cached,
      Alike, Alerted, Notified, Evict, Storage.Put, Storage.Remove, Chosen, PutEach, PutEachOrder, ReorderedAll, Decide;
    match c {
      case Add(e) => var _ := store.Add(e);
      case Hydrate(events) => store.Hydrate(events);
      case Remove(ids) => var _ := store.Remove(ids);
      case Clear => store.Clear();
    }
  }

  method DoRead(store: ReactiveEventStore, c: Call)
    requires store.Valid() && (c.Get? || c.GetByAddress? || c.Query?)
    modifies store`recency
    ensures store.Valid()
  {
    hide *;
    match c {
      case Get(id) => var _ := store.Get(id);
      case GetByAddress(address) => var _ := store.GetByAddress(address);
      case Query(filters) => var _ := store.Query(filters);
    }
  }

  method DoWatch(store: ReactiveEventStore, c: Call)
    requires store.Valid() && (c.WatchEvent? || c.WatchReplaceable? || c.WatchQuery?)
    modifies store`recency, store`watches, store`cache, store`nextHandle
    ensures store.Valid() && Stays(old(store.watches), store.watches, {})
  {
    hide ReactiveEventStore.Indexed, ReactiveEventStore.Recent, ReactiveEventStore.Fresh, Registered, Pinned, Cached,
      Canonicalized, FormatAddress, KeyOf, Lower;
    match c {
      case WatchEvent(id) =>
        LowerTwice(id);
        var _ := store.WatchFor(EventWatch(Lower(id)));
      case WatchReplaceable(kind, pubkey, d) =>
        FormattedKey(Address(kind, pubkey, d));
        var _ := store.WatchFor(AddressWatch(FormatAddress(Address(kind, pubkey, d))));
      case WatchQuery(filters) => var _ := store.WatchFor(QueryWatch(filters));
    }
  }

  method DoSubscribe(store: ReactiveEventStore, c: Call)
    requires store.Valid() && Known(c, store.watches)
    requires c.Subscribe? || c.Unsubscribe? || c.RunUnregister? || c.GetSnapshot?
    modifies store`recency, store`watches, store`idWatches, store`addressWatches, store`queryByKind, store`queryAnyKind,
      store`pinned, store`watchPins, store`cache
    ensures store.Valid() && Stays(old(store.watches), store.watches, Leaver(c))
  {
    hide ReactiveEventStore.Indexed, ReactiveEventStore.Recent, ReactiveEventStore.Fresh, Registered, Pinned, Cached,
      Filed, Compute, KeyOf;
    match c {
      case Subscribe(h, subscriber) => store.Subscribe(h, subscriber);
      case Unsubscribe(h, subscriber) => store.Unsubscribe(h, subscriber);
      case RunUnregister(h) => store.RunUnregister(h);
      case GetSnapshot(h) => var _ := store.GetSnapshot(h);
    }
  }

  /** One call. */
  method Do(store: ReactiveEventStore, c: Call)
    requires store.Valid() && Writes(c, store.u) && Known(c, store.watches)
    modifies store, store.index, store.index.deletion
    ensures store.Valid() && Stays(old(store.watches), store.watches, Leaver(c))
    ensures Alerted(old(store.watches), old(store.index.Contents()), store.index.Contents(), store.toNotify)
    ensures old(store.toNotify) <= store.toNotify
  {
    hide ReactiveEventStore.Indexed, ReactiveEventStore.Recent, ReactiveEventStore.Fresh, Registered, Pinned, Cached,
      Alike, Alerted, Stays,
      Storage.Put;
    ghost var before, s := store.watches, store.index.Contents();
    store.NowFiled();
    NothingAlerts(before, s, store.toNotify);
    match c {
      case Add(_) | Hydrate(_) | Remove(_) | Clear =>
        DoWrite(store, c);
        AlikeStays(before, store.watches);
      case Get(_) | GetByAddress(_) | Query(_) =>
        DoRead(store, c);
        AlikeSelf(before);
        AlikeStays(before, before);
      case WatchEvent(_) | WatchReplaceable(_, _, _) | WatchQuery(_) => DoWatch(store, c);
      case _ => DoSubscribe(store, c);
    }
  }

  lemma NothingDone(watches: map<Handle, Watch>, s: Store, left: set<(Handle, nat)>, waiting: set<Handle>)
    requires Filed(s)
    ensures Stays(watches, watches, left) && Told(watches, s, s, left, waiting) && Alerted(watches, s, s, waiting)
  {
  }

  lemma StaysTold(before: map<Handle, Watch>, after: map<Handle, Watch>, s: Store, s': Store, calls: seq<Call>,
                  waiting: set<Handle>, h: Handle, x: nat)
    requires Filed(s) && Filed(s') && Stays(before, after, Leavers(calls))
    requires Told(before, s, s', Leavers(calls), waiting)
    requires h in before && x in before[h].subscribers && Unsubscribe(h, x) !in calls
    ensures h in after && x in after[h].subscribers
    ensures Compute(before[h].kind, s) != Compute(before[h].kind, s') ==> h in waiting
  {
    hide Compute, Filed;
  }

  /**
   * Any calls between two flushes, and the flush: whoever was subscribed to a watch from the start and stayed is
   * called if a read of the watch would return something else than at the start. Calls about watches that were never
   * handed out cannot be made, and are passed over.
   */
  method RunAndFlush(store: ReactiveEventStore, calls: seq<Call>) returns (called: set<(Handle, nat)>)
    requires store.Valid() && forall c :: c in calls ==> Writes(c, store.u)
    modifies store, store.index, store.index.deletion
    ensures store.Valid() && old(Filed(store.index.Contents())) && Filed(store.index.Contents())
    ensures forall h, x |
              h in old(store.watches) && x in old(store.watches)[h].subscribers && Unsubscribe(h, x) !in calls ::
              var kind := old(store.watches)[h].kind;
              Compute(kind, old(store.index.Contents())) != Compute(kind, store.index.Contents()) ==> (h, x) in called
  {
    hide ReactiveEventStore.Indexed, ReactiveEventStore.Recent, ReactiveEventStore.Fresh, Registered, Pinned, Cached,
      Filed, Compute, Writes, Told, Stays, Alerted, Leavers, Leaver;
    ghost var before, s := store.watches, store.index.Contents();
    store.NowFiled();
    NothingDone(before, s, Leavers([]), store.toNotify);
    for i := 0 to |calls|
      invariant store.Valid() && Filed(s) && Filed(store.index.Contents())
      invariant Stays(before, store.watches, Leavers(calls[..i]))
      invariant Told(before, s, store.index.Contents(), Leavers(calls[..i]), store.toNotify)
    {
      ghost var left, between, t, middle := Leavers(calls[..i]), store.watches, store.index.Contents(), store.toNotify;
      assert calls[..i + 1] == calls[..i] + [calls[i]];
      LeaversNext(calls[..i], calls[i]);
      if Known(calls[i], store.watches) {
        Do(store, calls[i]);
      } else {
        NothingDone(between, t, Leaver(calls[i]), middle);
      }
      store.NowFiled();
      ToldBoth(before, between, s, t, store.index.Contents(), left, Leaver(calls[i]), middle, store.toNotify);
      StaysBoth(before, between, store.watches, left, Leaver(calls[i]));
    }
    assert calls[..|calls|] == calls;
    ghost var after, waiting := store.watches, store.toNotify;
    called := store.Flush();
    forall h, x | h in before && x in before[h].subscribers && Unsubscribe(h, x) !in calls
      ensures Compute(before[h].kind, s) != Compute(before[h].kind, store.index.Contents()) ==> (h, x) in called
    {
      StaysTold(before, after, s, store.index.Contents(), calls, waiting, h, x);
    }
  }
}
