/** The SQLite store and an uncapped in-memory index, driven side by side. */
module SqlLockstep {
  import opened Results
  import opened Events
  import opened Deletion
  import opened Storage
  import opened StorageInvariants
  import opened StorageSteps
  import opened ConvergenceFacts
  import opened Filters
  import opened Items
  import opened SqlRows
  import opened SqlStore
  import Mem = MemoryIndex

  datatype Call =
    | PutCall(event: Event)
    | RemoveCall(ids: seq<string>)
    | ClearCall
    | GetCall(id: string)
    | QueryCall(filters: seq<Filter>)
    | CountCall(filters: seq<Filter>)
    | ItemsCall(filter: Filter)

  datatype Reply =
    | PutReply(result: PutResult)
    | NumberReply(n: nat)
    | EventReply(event: Option<Event>)
    | EventsReply(events: seq<Event>)
    | ItemsReply(items: seq<Item>)
    | NoReply

  function EventsPut(calls: seq<Call>): set<Event> {
    set c | c in calls && c.PutCall? :: c.event
  }

  lemma {:induction false} RemovesPlainly(s: Store, ids: seq<string>)
    requires Plain(s)
    ensures Plain(RemoveEach(s, ids)) && Plain(Storage.Remove(s, ids))
  {
    if ids != [] {
      RemovesPlainly(s, ids[..|ids| - 1]);
    }
  }

  lemma NewIsGood(u: set<Event>)
    ensures Good(NEW, u) && Plain(NEW)
  {
    NewStoreGood(u, None, 0);
  }

  /** What is stored is not under a tombstone of its id. */
  lemma StoredIsFree(s: Store, id: string)
    requires Filed(s) && NoneCovered(s) && id in s.events
    ensures id !in s.deletion.ids.values
  {
    assert !Covers(s.deletion, s.events[id]);
  }

  lemma SeesAll(s: Store)
    requires Filed(s) && NoneCovered(s)
    ensures Mem.Visible(s) == Stored(s.events)
  {
    Mem.AllVisible(s);
  }

  /** One call, put to both. */
  method Ask(call: Call, db: SqliteEventStore, mem: Mem.MemoryIndex, ghost u: set<Event>) returns (sql: Reply,
             memory: Reply)
    requires mem.Valid() && Plain(mem.Contents()) && Good(mem.Contents(), u) && OneEventPerId(u)
    requires db.Simulates(mem.Contents())
    requires mem.maxTombstones == None && mem.maxWatermarks == 0
    requires call.PutCall? ==> call.event in u
    modifies db, mem, mem.deletion
    ensures mem.Valid() && Plain(mem.Contents()) && Good(mem.Contents(), u) && db.Simulates(mem.Contents())
    ensures sql == memory
  {
    hide Settle, Tabled, NoOrphans, SameTombs, FiledEvents, FiledMarks, Known, OneEventPerId, Storage.Put,
      Storage.Remove, Decide, Listing.Query, Offered;
    ghost var s := mem.Contents();
    match call {
      case PutCall(e) =>
        var result := db.Put(e, s, u);
        var expected := mem.Put(e);
        return PutReply(result), PutReply(expected);
      case RemoveCall(ids) =>
        RemoveKeeps(s, u, ids);
        RemovesPlainly(s, ids);
        var removed := db.Remove(ids, s);
        var expected := mem.Remove(ids);
        return NumberReply(removed), NumberReply(expected);
      case ClearCall =>
        NewIsGood(u);
        db.Clear();
        mem.Clear();
        return NoReply, NoReply;
      case GetCall(id) =>
        if Lower(id) in s.events {
          StoredIsFree(s, Lower(id));
        }
        var event := db.Get(id);
        var expected := mem.Get(id);
        return EventReply(event), EventReply(expected);
      case QueryCall(filters) =>
        SeesAll(s);
        var events := db.Query(filters);
        var expected := mem.Query(filters);
        return EventsReply(events), EventsReply(expected);
      case CountCall(filters) =>
        SeesAll(s);
        var n := db.Count(filters);
        var expected := mem.Count(filters);
        return NumberReply(n), NumberReply(expected);
      case ItemsCall(f) =>
        SeesAll(s);
        var items := db.NegentropyItems(f);
        var expected := mem.NegentropyItems(f);
        return ItemsReply(items), ItemsReply(expected);
    }
  }

  /** In every run of calls from empty, both stores give the same replies. */
  method Lockstep(calls: seq<Call>, ghost u: set<Event>) returns (sql: seq<Reply>, memory: seq<Reply>)
    requires EventsPut(calls) <= u && OneEventPerId(u)
    ensures sql == memory && |sql| == |calls|
  {
    hide Settle, Tabled, SameTombs, Filed, NoneCovered, Known, OneEventPerId;
    var db := new SqliteEventStore();
    var mem := new Mem.MemoryIndex(None, 0);
    NewIsGood(u);
    sql, memory := [], [];
    for i := 0 to |calls|
      invariant fresh(db) && fresh(mem) && fresh(mem.deletion) && mem.maxTombstones == None && mem.maxWatermarks == 0
      invariant mem.Valid() && Plain(mem.Contents()) && Good(mem.Contents(), u) && db.Simulates(mem.Contents())
      invariant sql == memory && |sql| == i
    {
      assert calls[i].PutCall? ==> calls[i].event in EventsPut(calls);
      var reply, expected := Ask(calls[i], db, mem, u);
      sql, memory := sql + [reply], memory + [expected];
    }
  }
}
