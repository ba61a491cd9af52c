/**
 * The callback-driven merge of descending cursors (src/storage/idb-query.ts). Cursors answer in any
 * order: the driver at the end picks whichever outstanding request is to be answered next.
 */
module Merge {
  import opened Results
  import opened Events
  import opened Listing

  /** A row under a cursor; none where the event behind a tag row is missing. */
  type Row = Option<Event>

  /** The request of a slot that has not been answered. */
  datatype Request = NoRequest | Advance | Read(row: Row)

  /** `direct` rows carry the event, others have to be read; `rest` is what the cursor still has. */
  datatype Slot = Slot(direct: bool, live: bool, head: Option<Event>, rest: seq<Row>, request: Request)

  datatype Phase = Merging | Draining | Done

  // ---- what the slots still hold ----

  function Content(row: Row): set<Event> {
    if row.Some? then {row.value} else {}
  }

  function Contents(rows: seq<Row>): set<Event> {
    if rows == [] then {} else Content(rows[0]) + Contents(rows[1..])
  }

  function Holding(s: Slot): set<Event> {
    Content(s.head) + (if s.request.Read? then Content(s.request.row) else {}) + Contents(s.rest)
  }

  function Remaining(slots: seq<Slot>): set<Event> {
    if slots == [] then {} else Remaining(slots[..|slots| - 1]) + Holding(slots[|slots| - 1])
  }

  ghost predicate NoneAfter(some: set<Event>, t: int) {
    forall e :: e in some ==> e.createdAt <= t
  }

  /** Rows come newest first; rows of one time come in any order. */
  ghost predicate Descending(rows: seq<Row>) {
    rows == [] || (Descending(rows[1..]) && (rows[0].Some? ==> NoneAfter(Contents(rows[1..]), rows[0].value.createdAt)))
  }

  ghost predicate SlotOk(s: Slot) {
    && Descending(s.rest)
    && (s.head.Some? ==> s.live && s.request == NoRequest && NoneAfter(Contents(s.rest), s.head.value.createdAt))
    && (s.request.Read? ==> s.live && (s.request.row.Some? ==> NoneAfter(Contents(s.rest), s.request.row.value.createdAt)))
    && (s.request == NoRequest && s.head.None? ==> s.rest == [])
  }

  function Outstanding(slots: seq<Slot>): nat {
    if slots == [] then 0
    else Outstanding(slots[..|slots| - 1]) + if slots[|slots| - 1].request == NoRequest then 0 else 1
  }

  /** An upper bound on the number of answers still to come. */
  function Effort(s: Slot): nat {
    3 * |s.rest| + (if s.head.Some? then 2 else 0) +
    match s.request
    case NoRequest => 0
    case Advance => 1
    case Read(_) => 3
  }

  function TotalEffort(slots: seq<Slot>): nat {
    if slots == [] then 0 else TotalEffort(slots[..|slots| - 1]) + Effort(slots[|slots| - 1])
  }

  // ---- one slot changed ----

  lemma {:induction false} RemainingAt(slots: seq<Slot>, e: Event)
    ensures e in Remaining(slots) <==> exists i :: 0 <= i < |slots| && e in Holding(slots[i])
  {
    if slots != [] {
      RemainingAt(slots[..|slots| - 1], e);
    }
  }

  lemma {:induction false} UpdateCounts(slots: seq<Slot>, i: nat, s: Slot)
    requires i < |slots|
    ensures Outstanding(slots[i := s]) + (if slots[i].request == NoRequest then 0 else 1) ==
              Outstanding(slots) + if s.request == NoRequest then 0 else 1
    ensures TotalEffort(slots[i := s]) + Effort(slots[i]) == TotalEffort(slots) + Effort(s)
  {
    var n := |slots| - 1;
    if i < n {
      UpdateCounts(slots[..n], i, s);
      assert slots[i := s][..n] == slots[..n][i := s];
    } else {
      assert slots[i := s][..n] == slots[..n];
    }
  }

  /** Replacing a slot takes away what only it held. */
  lemma UpdateRemaining(slots: seq<Slot>, i: nat, s: Slot, gone: set<Event>)
    requires i < |slots| && Holding(s) + gone == Holding(slots[i])
    ensures Remaining(slots[i := s]) + gone == Remaining(slots)
  {
    forall e
      ensures e in Remaining(slots[i := s]) + gone <==> e in Remaining(slots)
    {
      RemainingAt(slots, e);
      RemainingAt(slots[i := s], e);
      if e in Remaining(slots) {
        var j :| 0 <= j < |slots| && e in Holding(slots[j]);
        assert j != i ==> slots[i := s][j] == slots[j];
        assert slots[i := s][i] == s;
      }
      if e in Remaining(slots[i := s]) {
        var j :| 0 <= j < |slots| && e in Holding(slots[i := s][j]);
        assert j != i ==> slots[i := s][j] == slots[j];
      }
      assert e in gone ==> e in Holding(slots[i]);
    }
  }

  lemma {:induction false} SomeOutstanding(slots: seq<Slot>)
    ensures Outstanding(slots) > 0 <==> exists i :: 0 <= i < |slots| && slots[i].request != NoRequest
  {
    if slots != [] {
      SomeOutstanding(slots[..|slots| - 1]);
    }
  }

  // ---- the invariant ----

  ghost predicate Newer(some: set<Event>, others: set<Event>) {
    forall x, y :: x in some && y in others ==> x.createdAt > y.createdAt
  }

  function Accepted(accept: Event -> bool, some: set<Event>): set<Event> {
    set e | e in some && accept(e)
  }

  /** Everything accepted, listed. */
  ghost function Full(accept: Event -> bool, all: set<Event>): seq<Event>
    requires OneEventPerId(all)
  {
    List(Accepted(accept, all))
  }

  ghost predicate NoStop(stop: seq<Event> -> bool, taken: seq<Event>) {
    forall k :: 0 < k <= |taken| ==> !stop(taken[..k])
  }

  ghost predicate SlotsOk(slots: seq<Slot>) {
    forall i :: 0 <= i < |slots| ==> SlotOk(slots[i])
  }

  class Merge {
    const accept: Event -> bool
    const stop: seq<Event> -> bool
    ghost const all: set<Event>
    var slots: seq<Slot>
    var seen: set<string>
    var inflight: int
    var phase: Phase
    var drainT: int
    var drainBuf: seq<Event>
    var taken: seq<Event>
    var failed: bool
    /** The events of the batches that have been given out. */
    ghost var processed: set<Event>

    ghost predicate Slots()
      reads this
    {
      SlotsOk(slots) && inflight == Outstanding(slots)
    }

    /** Every event is given out, in the batch, or still to come, and in this order of time. */
    ghost predicate Parted()
      reads this
    {
      && OneEventPerId(all)
      && all == processed + Members(drainBuf) + Remaining(slots)
      && Newer(processed, Members(drainBuf) + Remaining(slots))
      && (phase == Merging ==> drainBuf == [])
      && (phase == Draining ==>
            && (forall e :: e in drainBuf ==> e.createdAt == drainT)
            && NoneAfter(Remaining(slots), drainT)
            && (forall i :: 0 <= i < |slots| && slots[i].head.Some? ==> slots[i].head.value.createdAt < drainT))
    }

    /** What has been taken is the list of what has been given out and accepted. */
    ghost predicate Given()
      reads this
    {
      && OneEventPerId(all) && processed <= all
      && taken == Full(accept, processed)
      && seen == (set e | e in Members(taken) :: e.id)
      && NoStop(stop, taken)
    }

    /** The events taken are the full list up to the stop, or a part of them after an error. */
    ghost predicate Finished()
      reads this
    {
      && OneEventPerId(all)
      && if failed then taken <= UpTo(stop, Full(accept, all)) else taken == UpTo(stop, Full(accept, all))
    }

    ghost predicate Valid()
      reads this
    {
      if phase == Done then Finished() else !failed && Slots() && Parted() && Given()
    }

    constructor (openers: seq<(bool, seq<Row>)>, accept: Event -> bool, stop: seq<Event> -> bool, ghost all: set<Event>)
      requires OneEventPerId(all)
      requires forall i :: 0 <= i < |openers| ==> Descending(openers[i].1)
      requires all == Remaining(Opening(openers))
      ensures Valid() && this.accept == accept && this.stop == stop && this.all == all
      ensures phase == Merging && slots == Opening(openers)
    {
      this.accept, this.stop, this.all := accept, stop, all;
      slots := Opening(openers);
      seen, inflight, phase, drainT, drainBuf, taken, failed := {}, |openers|, Merging, 0, [], [], false;
      processed := {};
      new;
      OpeningOutstanding(openers);
      assert Full(accept, {}) == [];
    }

    // ---- ends ----

    method Finish()
      requires phase != Done ==> !failed && Given() && taken == UpTo(stop, Full(accept, all))
      modifies `phase
      ensures phase == Done && (old(phase) != Done ==> Finished())
      ensures old(phase) == Done ==> phase == old(phase)
    {
      if phase == Done {
        return;
      }
      phase := Done;
    }

    method Fail()
      requires Valid()
      modifies `phase, `failed
      ensures Valid() && phase == Done && (old(phase) == Done ==> failed == old(failed))
    {
      if phase == Done {
        return;
      }
      GivenSoFar();
      phase, failed := Done, true;
    }

    /** What has been given out is a prefix of the full list, and no stop has been asked for. */
    lemma GivenSoFar()
      requires Parted() && Given()
      ensures taken <= Full(accept, all) && taken <= UpTo(stop, Full(accept, all))
    {
      var rest := Members(drainBuf) + Remaining(slots);
      PrefixOfFull(accept, processed, rest);
      assert processed + rest == all;
      UpToPrefix(stop, taken, Full(accept, all));
    }

    // ---- pumping ----

    /** The newest head, the lower id first. */
    method SelectBest() returns (best: Option<Event>)
      ensures best.None? <==> forall i :: 0 <= i < |slots| ==> slots[i].head.None?
      ensures best.Some? ==> exists i :: 0 <= i < |slots| && slots[i].head == best
      ensures best.Some? ==> forall i :: 0 <= i < |slots| && slots[i].head.Some? ==> slots[i].head.value.createdAt <= best.value.createdAt
    {
      best := None;
      for i := 0 to |slots|
        invariant best.None? <==> forall j :: 0 <= j < i ==> slots[j].head.None?
        invariant best.Some? ==> exists j :: 0 <= j < i && slots[j].head == best
        invariant best.Some? ==> forall j :: 0 <= j < i && slots[j].head.Some? ==> slots[j].head.value.createdAt <= best.value.createdAt
      {
        var head := slots[i].head;
        if head.Some? && (best.None? || Before(head.value, best.value)) {
          best := head;
        }
      }
    }

    method StepCursor(i: nat)
      requires i < |slots|
      modifies `slots, `inflight
      ensures if old(slots[i].live) then slots == old(slots)[i := old(slots[i]).(request := Advance)] && inflight == old(inflight) + 1
              else slots == old(slots) && inflight == old(inflight)
    {
      if !slots[i].live {
        return;
      }
      inflight := inflight + 1;
      slots := slots[i := slots[i].(request := Advance)];
    }

    /** Moves the heads of one time into the batch, and asks their cursors to go on. */
    method DrainHeads(t: int)
      requires SlotsOk(slots) && inflight == Outstanding(slots)
      requires exists i :: 0 <= i < |slots| && slots[i].head.Some? && slots[i].head.value.createdAt == t
      modifies `slots, `inflight, `drainBuf
      ensures SlotsOk(slots) && inflight == Outstanding(slots) && inflight > 0
      ensures Members(drainBuf) + Remaining(slots) == old(Members(drainBuf) + Remaining(slots))
      ensures forall e :: e in drainBuf ==> e in old(drainBuf) || e.createdAt == t
      ensures forall i :: 0 <= i < |slots| && slots[i].head.Some? ==>
                slots[i].head.value.createdAt != t && i < |old(slots)| && old(slots[i]).head == slots[i].head
      ensures TotalEffort(slots) <= old(TotalEffort(slots))
    {
      hide SlotOk, Holding, Remaining, Outstanding, TotalEffort;
      ghost var was, before := slots, Members(drainBuf) + Remaining(slots);
      ghost var k :| 0 <= k < |slots| && slots[k].head.Some? && slots[k].head.value.createdAt == t;
      for i := 0 to |slots|
        invariant |slots| == |was| && SlotsOk(slots) && inflight == Outstanding(slots)
        invariant Members(drainBuf) + Remaining(slots) == before
        invariant forall e :: e in drainBuf ==> e in old(drainBuf) || e.createdAt == t
        invariant forall j :: i <= j < |slots| ==> slots[j] == was[j]
        invariant forall j :: 0 <= j < i && slots[j].head.Some? ==> slots[j].head.value.createdAt != t && slots[j].head == was[j].head
        invariant k < i ==> slots[k].request != NoRequest
        invariant TotalEffort(slots) <= TotalEffort(was)
      {
        var slot := slots[i];
        if slot.head.Some? && slot.head.value.createdAt == t {
          HeadDrained(slots, i, drainBuf);
          ghost var next := slots[i := slot.(head := None, request := Advance)];
          drainBuf := drainBuf + [slot.head.value];
          slots := slots[i := slot.(head := None)];
          StepCursor(i);
          assert slots == next;
        }
      }
      SomeOutstanding(slots);
    }

    /** pump: when nothing is outstanding, gives out the batch or starts the next one. */
    method Pump()
      requires phase != Done ==> Valid()
      requires phase == Done ==> Finished()
      modifies `slots, `seen, `inflight, `phase, `drainT, `drainBuf, `taken, `processed
      ensures Valid() && (phase == Done || inflight > 0)
      ensures phase != Done ==> TotalEffort(slots) <= old(TotalEffort(slots))
      decreases if phase == Draining then 2 else 0
    {
      hide OneEventPerId, UpTo, Full, NoStop, SlotOk, Parted, Given, Finished;
      if phase == Done || inflight > 0 {
        return;
      }
      if phase == Draining {
        EmitDrain();
        return;
      }
      StartBatch();
    }

    /** The other half of pump: chooses the time of the next batch, or finishes. */
    method StartBatch()
      requires phase == Merging && inflight == 0 && Valid()
      modifies `slots, `inflight, `phase, `drainT, `drainBuf
      ensures Valid() && (phase == Done || inflight > 0)
      ensures phase != Done ==> TotalEffort(slots) <= old(TotalEffort(slots))
    {
      hide OneEventPerId, UpTo, Full, NoStop, SlotOk, Outstanding, Remaining;
      var best := SelectBest();
      if best.None? {
        NothingLeft(slots);
        AllGiven();
        Finish();
        return;
      }
      BeginDrain(best.value.createdAt);
    }

    method BeginDrain(t: int)
      requires phase == Merging && inflight == 0 && Valid()
      requires exists i :: 0 <= i < |slots| && slots[i].head.Some? && slots[i].head.value.createdAt == t
      requires forall i :: 0 <= i < |slots| && slots[i].head.Some? ==> slots[i].head.value.createdAt <= t
      modifies `slots, `inflight, `phase, `drainT, `drainBuf
      ensures Valid() && phase == Draining && inflight > 0
      ensures TotalEffort(slots) <= old(TotalEffort(slots))
    {
      hide OneEventPerId, UpTo, Full, NoStop, SlotOk, Outstanding, Remaining, TotalEffort;
      HeadsFirst(slots, t);
      phase := Draining;
      drainT := t;
      drainBuf := [];
      ghost var rest := Remaining(slots);
      DrainHeads(drainT);
      assert Members(drainBuf) + Remaining(slots) == rest;
    }

    lemma AllGiven()
      requires Parted() && Given() && phase == Merging && Remaining(slots) == {}
      ensures taken == UpTo(stop, Full(accept, all))
    {
      assert all == processed;
      UpToAll(stop, taken, 0);
    }

    /** Gives out the batch, newest first, without what was given out before. */
    method EmitDrain()
      requires phase == Draining && inflight == 0 && Valid()
      modifies `slots, `seen, `inflight, `phase, `drainT, `drainBuf, `taken, `processed
      ensures Valid() && (phase == Done || inflight > 0)
      ensures phase != Done ==> TotalEffort(slots) <= old(TotalEffort(slots))
      decreases 1
    {
      hide OneEventPerId, UpTo, SortEvents, NoStop, Full, SlotOk;
      DrainedAll(slots, drainT);
      var stopped := EmitBatch();
      if stopped {
        return;
      }
      CloseBatch();
      Pump();
    }

    method CloseBatch()
      requires phase == Draining && !failed && Slots() && Parted() && NoneAfter(Remaining(slots), drainT - 1)
      requires taken == Full(accept, processed + Members(drainBuf)) && NoStop(stop, taken)
      requires seen == set e | e in Members(taken) :: e.id
      modifies `phase, `drainBuf, `processed
      ensures Valid() && phase == Merging
    {
      hide OneEventPerId, Full, NoStop, SlotOk, Outstanding, Remaining;
      processed := processed + Members(drainBuf);
      drainBuf := [];
      phase := Merging;
      assert Members([]) == {};
    }

    /** The loop over the sorted batch; true when it was told to stop. */
    method EmitBatch() returns (stopped: bool)
      requires phase == Draining && !failed && Parted() && Given() && NoneAfter(Remaining(slots), drainT - 1)
      modifies `seen, `taken, `phase
      ensures stopped ==> phase == Done && Finished()
      ensures !stopped ==> phase == Draining && Parted() && taken == Full(accept, processed + Members(drainBuf)) && NoStop(stop, taken)
      ensures !stopped ==> seen == set e | e in Members(taken) :: e.id
    {
      hide WeaklySorted, Sorted, OneEventPerId, UpTo, SortEvents, SlotsOk, Slots, NoStop, Full;
      var batch := SortEvents(drainBuf);
      SortWeakly(drainBuf);
      ghost var before, given: seq<Event> := taken, [];
      ghost var rest := Members(drainBuf) + Remaining(slots);
      assert before + [] == before;
      GivenNone(accept, batch);
      for j := 0 to |batch|
        invariant phase == Draining && taken == before + given && seen == set e | e in Members(taken) :: e.id
        invariant NoStop(stop, taken) && GivenFrom(accept, batch, j, given)
      {
        var event := batch[j];
        assert event in Members(batch);
        if event.id !in seen && accept(event) {
          seen := seen + {event.id};
          taken := taken + [event];
          TakeOne(accept, all, batch, j, given, event);
          assert Members(before + given + [event]) == Members(before + given) + {event};
          given := given + [event];
          assert taken == before + given;
          if stop(taken) {
            StoppedAt(accept, stop, all, processed, rest, batch, j + 1, given, before, taken);
            phase := Done;
            return true;
          }
          NoStopNext(stop, before + given[..|given| - 1], event);
        } else {
          if event.id in seen {
            SeenInBatch(accept, all, processed, rest, batch, given, event);
          }
          SkipOne(accept, batch, j, given);
        }
      }
      assert batch[..|batch|] == batch;
      GivenAll(accept, all, batch, given);
      Fewer(all, processed + Members(drainBuf));
      PrefixOfFull(accept, processed, Members(drainBuf));
      stopped := false;
    }

    // ---- callbacks ----

    /** The state while slot i hands over the row it has read: its request is no longer counted. */
    ghost predicate HandingOver(i: nat, row: Row)
      reads this
    {
      && !failed && SlotsOk(slots) && inflight + 1 == Outstanding(slots)
      && i < |slots| && slots[i].request == Read(row) && slots[i].head.None?
      && Parted() && Given()
    }

    /** Goes on past a row whose event is missing. */
    method PassOver(i: nat)
      requires phase != Done && HandingOver(i, None)
      modifies `slots, `inflight
      ensures Valid() && phase != Done && inflight > 0
      ensures TotalEffort(slots) < old(TotalEffort(slots))
    {
      hide OneEventPerId, UpTo, Full, NoStop, Outstanding, Remaining, TotalEffort, SlotsOk;
      PassedOver(slots, i);
      SomeOutstanding(slots);
      inflight := inflight + 1;
      slots := slots[i := slots[i].(request := Advance)];
    }

    /** Puts an event of the time being drained into the batch, and goes on. */
    method PushToBatch(i: nat, e: Event)
      requires phase == Draining && HandingOver(i, Some(e)) && e.createdAt == drainT
      modifies `slots, `inflight, `drainBuf
      ensures Valid() && phase != Done && inflight > 0
      ensures TotalEffort(slots) < old(TotalEffort(slots))
    {
      hide OneEventPerId, UpTo, Full, NoStop, Outstanding, Remaining, TotalEffort, SlotsOk;
      Drained(slots, i, e, drainBuf);
      SomeOutstanding(slots);
      drainBuf := drainBuf + [e];
      inflight := inflight + 1;
      slots := slots[i := slots[i].(request := Advance)];
    }

    /** Keeps an event at the head of its slot. */
    method HoldBack(i: nat, e: Event)
      requires phase != Done && HandingOver(i, Some(e)) && (phase == Draining ==> e.createdAt != drainT)
      modifies `slots
      ensures Valid() && phase != Done
      ensures TotalEffort(slots) < old(TotalEffort(slots))
    {
      hide OneEventPerId, UpTo, Full, NoStop, Outstanding, Remaining, TotalEffort, SlotsOk;
      HeldBack(slots, i, e);
      slots := slots[i := slots[i].(head := Some(e), request := NoRequest)];
    }

    /** A row has arrived: into the batch, or to the head of its slot, or past a missing event. */
    method OnEvent(i: nat, event: Row)
      requires if phase == Done then Finished() else HandingOver(i, event)
      modifies `slots, `seen, `inflight, `phase, `drainT, `drainBuf, `taken, `processed
      ensures Valid() && (phase == Done || inflight > 0)
      ensures phase != Done ==> TotalEffort(slots) < old(TotalEffort(slots))
    {
      hide OneEventPerId, UpTo, Full, NoStop, Outstanding, Remaining, TotalEffort, SlotsOk, Parted, Given;
      if phase == Done {
        return;
      }
      if event.None? {
        PassOver(i);
        return;
      }
      if phase == Draining && event.value.createdAt == drainT {
        PushToBatch(i, event.value);
        return;
      }
      HoldBack(i, event.value);
      Pump();
    }

    /** Closes the slot of a cursor that has come to its end. */
    method EndSlot(i: nat)
      requires phase != Done && i < |slots| && slots[i].request == Advance && slots[i].head.None? && slots[i].rest == []
      requires !failed && SlotsOk(slots) && inflight + 1 == Outstanding(slots) && Parted() && Given()
      modifies `slots
      ensures Valid() && phase != Done
      ensures TotalEffort(slots) < old(TotalEffort(slots))
    {
      hide OneEventPerId, UpTo, Full, NoStop, Outstanding, Remaining, TotalEffort, SlotsOk;
      Ended(slots, i);
      slots := slots[i := slots[i].(live := false, request := NoRequest)];
    }

    /** Takes the next row of a cursor; the request to read it counts as outstanding. */
    method TakeRow(i: nat) returns (row: Row)
      requires phase != Done && i < |slots| && slots[i].request == Advance && slots[i].head.None? && slots[i].rest != []
      requires !failed && SlotsOk(slots) && inflight + 1 == Outstanding(slots) && Parted() && Given()
      modifies `slots, `inflight
      ensures phase != Done && Valid() && inflight > 0
      ensures |slots| == |old(slots)| && slots[i].request == Read(row) && slots[i].head.None? && slots[i].direct == old(slots[i].direct)
      ensures TotalEffort(slots) < old(TotalEffort(slots))
    {
      hide OneEventPerId, UpTo, Full, NoStop, Outstanding, Remaining, TotalEffort, SlotsOk;
      row := slots[i].rest[0];
      RowRead(slots, i);
      slots := slots[i := slots[i].(live := true, rest := slots[i].rest[1..], request := Read(row))];
      inflight := inflight + 1;
      assert slots[i].request == Read(row);
      SomeOutstanding(slots);
    }

    /** A cursor has advanced: to a row, which may have to be read, or past its end. */
    method CursorSuccess(i: nat)
      requires Valid() && i < |slots| && slots[i].request == Advance && (phase != Done ==> slots[i].head.None?)
      modifies `slots, `seen, `inflight, `phase, `drainT, `drainBuf, `taken, `processed
      ensures Valid() && (phase == Done || inflight > 0)
      ensures phase != Done ==> TotalEffort(slots) < old(TotalEffort(slots))
    {
      hide OneEventPerId, UpTo, Full, NoStop, Outstanding, Remaining, TotalEffort, SlotsOk;
      inflight := inflight - 1;
      if phase == Done {
        return;
      }
      if slots[i].rest == [] {
        EndSlot(i);
        Pump();
        return;
      }
      var row := TakeRow(i);
      if slots[i].direct {
        inflight := inflight - 1;
        OnEvent(i, row);
      }
    }

    /** The event behind a tag row has been read. */
    method ReadSuccess(i: nat)
      requires Valid() && i < |slots| && slots[i].request.Read? && (phase != Done ==> slots[i].head.None?)
      modifies `slots, `seen, `inflight, `phase, `drainT, `drainBuf, `taken, `processed
      ensures Valid() && (phase == Done || inflight > 0)
      ensures phase != Done ==> TotalEffort(slots) < old(TotalEffort(slots))
    {
      hide OneEventPerId, UpTo, Full, NoStop, Outstanding, Remaining, TotalEffort, SlotsOk;
      inflight := inflight - 1;
      OnEvent(i, slots[i].request.row);
    }

    /**
     * Answers outstanding requests, whichever comes next, or lets one fail if they may, until the merge has
     * ended: as long as it has not, some request is outstanding.
     */
    method Run(mayFail: bool)
      requires Valid() && !failed && (phase == Done || inflight > 0)
      modifies this
      ensures phase == Done && Finished() && (failed ==> mayFail)
    {
      hide OneEventPerId, UpTo, Full, NoStop, Outstanding, Remaining, TotalEffort, Given, Parted, Finished;
      while phase != Done
        invariant Valid() && (phase == Done || inflight > 0) && (failed ==> mayFail)
        decreases if phase == Done then 0 else 1, TotalEffort(slots)
      {
        SomeOutstanding(slots);
        var i: nat :| i < |slots| && slots[i].request != NoRequest;
        assert SlotOk(slots[i]);
        var fails: bool := *;
        if mayFail && fails {
          Fail();
        } else if slots[i].request == Advance {
          CursorSuccess(i);
        } else {
          ReadSuccess(i);
        }
      }
    }
  }

  /**
   * kWayMerge: for cursors that are each newest first, and for every order in which their requests
   * are answered, the events taken are the newest-first list of all accepted events, each once, up to
   * the stop; after an error, which only a failing request brings about, they are a part of that list.
   */
  method KWayMerge(openers: seq<(bool, seq<Row>)>, accept: Event -> bool, stop: seq<Event> -> bool,
                   mayFail: bool, ghost all: set<Event>)
    returns (taken: seq<Event>, failed: bool)
    requires all == AllRows(openers) && OneEventPerId(all)
    requires forall i :: 0 <= i < |openers| ==> Descending(openers[i].1)
    ensures var full := UpTo(stop, Full(accept, all));
            if failed then taken <= full else taken == full
    ensures !mayFail ==> !failed
  {
    OpeningHolds(openers);
    if openers == [] {
      assert Full(accept, {}) == [];
      return [], false;
    }
    var merge := new Merge(openers, accept, stop, all);
    OpeningOutstanding(openers);
    merge.Run(mayFail);
    taken, failed := merge.taken, merge.failed;
  }

  function AllRows(openers: seq<(bool, seq<Row>)>): set<Event> {
    if openers == [] then {} else AllRows(openers[..|openers| - 1]) + Contents(openers[|openers| - 1].1)
  }

  lemma {:induction false} OpeningHolds(openers: seq<(bool, seq<Row>)>)
    ensures Remaining(Opening(openers)) == AllRows(openers)
  {
    if openers != [] {
      var n := |openers| - 1;
      OpeningHolds(openers[..n]);
      assert Opening(openers)[..n] == Opening(openers[..n]);
    }
  }

  // ---- one answer ----

  lemma RowDone(slots: seq<Slot>, i: nat, s: Slot, gone: set<Event>)
    requires i < |slots| && slots[i].head.None? && slots[i].request != NoRequest && Holding(s) + gone == Holding(slots[i])
    requires Effort(s) < Effort(slots[i])
    ensures Remaining(slots[i := s]) + gone == Remaining(slots)
    ensures Outstanding(slots[i := s]) == Outstanding(slots) - if s.request == NoRequest then 1 else 0
    ensures TotalEffort(slots[i := s]) < TotalEffort(slots)
  {
    UpdateCounts(slots, i, s);
    UpdateRemaining(slots, i, s, gone);
  }

  /** The row goes into the batch. */
  lemma Drained(slots: seq<Slot>, i: nat, e: Event, drainBuf: seq<Event>)
    requires i < |slots| && SlotsOk(slots) && slots[i].request == Read(Some(e)) && slots[i].head.None?
    ensures var s := slots[i].(request := Advance);
            && SlotsOk(slots[i := s])
            && Members(drainBuf + [e]) + Remaining(slots[i := s]) == Members(drainBuf) + Remaining(slots)
            && Remaining(slots[i := s]) <= Remaining(slots)
            && Outstanding(slots[i := s]) == Outstanding(slots)
            && TotalEffort(slots[i := s]) < TotalEffort(slots)
  {
    RowDone(slots, i, slots[i].(request := Advance), {e});
    assert Members(drainBuf + [e]) == Members(drainBuf) + {e};
  }

  /** The row stays at the head of its slot. */
  lemma HeldBack(slots: seq<Slot>, i: nat, e: Event)
    requires i < |slots| && SlotsOk(slots) && slots[i].request == Read(Some(e)) && slots[i].head.None?
    ensures var s := slots[i].(head := Some(e), request := NoRequest);
            && SlotsOk(slots[i := s])
            && Remaining(slots[i := s]) == Remaining(slots)
            && Outstanding(slots[i := s]) == Outstanding(slots) - 1
            && TotalEffort(slots[i := s]) < TotalEffort(slots)
    ensures e in Remaining(slots)
  {
    RowDone(slots, i, slots[i].(head := Some(e), request := NoRequest), {});
    RemainingAt(slots, e);
  }

  /** The row had no event: the cursor goes on. */
  lemma PassedOver(slots: seq<Slot>, i: nat)
    requires i < |slots| && SlotsOk(slots) && slots[i].request == Read(None) && slots[i].head.None?
    ensures var s := slots[i].(request := Advance);
            && SlotsOk(slots[i := s])
            && Remaining(slots[i := s]) == Remaining(slots)
            && Outstanding(slots[i := s]) == Outstanding(slots)
            && TotalEffort(slots[i := s]) < TotalEffort(slots)
  {
    RowDone(slots, i, slots[i].(request := Advance), {});
  }

  lemma Ended(slots: seq<Slot>, i: nat)
    requires i < |slots| && SlotsOk(slots) && slots[i].request == Advance && slots[i].head.None? && slots[i].rest == []
    ensures var s := slots[i].(live := false, request := NoRequest);
            && SlotsOk(slots[i := s])
            && Remaining(slots[i := s]) == Remaining(slots)
            && Outstanding(slots[i := s]) == Outstanding(slots) - 1
            && TotalEffort(slots[i := s]) < TotalEffort(slots)
  {
    RowDone(slots, i, slots[i].(live := false, request := NoRequest), {});
  }

  lemma RowRead(slots: seq<Slot>, i: nat)
    requires i < |slots| && SlotsOk(slots) && slots[i].request == Advance && slots[i].head.None? && slots[i].rest != []
    ensures var s := slots[i].(live := true, rest := slots[i].rest[1..], request := Read(slots[i].rest[0]));
            && SlotsOk(slots[i := s])
            && Remaining(slots[i := s]) == Remaining(slots)
            && Outstanding(slots[i := s]) == Outstanding(slots)
            && TotalEffort(slots[i := s]) < TotalEffort(slots)
  {
    RowDone(slots, i, slots[i].(live := true, rest := slots[i].rest[1..], request := Read(slots[i].rest[0])), {});
  }

  // ---- batches ----

  /** The events given out are the accepted ones of the first j of the batch, newest first. */
  ghost predicate GivenFrom(accept: Event -> bool, batch: seq<Event>, j: nat, given: seq<Event>)
    requires j <= |batch|
  {
    Sorted(given) && Members(given) == Accepted(accept, Members(batch[..j]))
  }

  lemma GivenNone(accept: Event -> bool, batch: seq<Event>)
    ensures GivenFrom(accept, batch, 0, [])
  {
    assert Members(batch[..0]) == {};
  }

  lemma Fewer(all: set<Event>, some: set<Event>)
    requires OneEventPerId(all) && some <= all
    ensures OneEventPerId(some)
  {
  }

  lemma AfterGiven(all: set<Event>, batch: seq<Event>, j: nat, x: Event, y: Event)
    requires OneEventPerId(all) && Members(batch) <= all && WeaklySorted(batch) && j <= |batch|
    requires x in batch[..j] && y in batch[j..] && x != y
    ensures Before(x, y)
  {
    var i :| 0 <= i < j && batch[i] == x;
    var k :| j <= k < |batch| && batch[k] == y;
    assert x in Members(batch) && y in Members(batch);
    WeaklyLater(batch, i, k);
    BeforeTotal(x, y);
  }

  lemma TakeOne(accept: Event -> bool, all: set<Event>, batch: seq<Event>, j: nat, given: seq<Event>, event: Event)
    requires OneEventPerId(all) && Members(batch) <= all && WeaklySorted(batch) && j < |batch|
    requires GivenFrom(accept, batch, j, given) && event == batch[j] && accept(event) && event !in given
    ensures GivenFrom(accept, batch, j + 1, given + [event])
  {
    hide OneEventPerId, WeaklySorted;
    if given != [] {
      var last := given[|given| - 1];
      assert last in Members(given);
      AfterGiven(all, batch, j, last, event);
    }
    SortedAppend(given, [event]);
    assert batch[..j + 1] == batch[..j] + [event];
    assert Members(batch[..j + 1]) == Members(batch[..j]) + {event};
    assert Members(given + [event]) == Members(given) + {event};
  }

  lemma SkipOne(accept: Event -> bool, batch: seq<Event>, j: nat, given: seq<Event>)
    requires j < |batch| && GivenFrom(accept, batch, j, given) && (accept(batch[j]) ==> batch[j] in given)
    ensures GivenFrom(accept, batch, j + 1, given)
  {
    assert batch[..j + 1] == batch[..j] + [batch[j]];
    assert Members(batch[..j + 1]) == Members(batch[..j]) + {batch[j]};
    assert accept(batch[j]) ==> batch[j] in Members(given);
  }

  lemma NoStopNext(stop: seq<Event> -> bool, taken: seq<Event>, event: Event)
    requires NoStop(stop, taken) && !stop(taken + [event])
    ensures NoStop(stop, taken + [event])
  {
    forall k | 0 < k <= |taken| + 1
      ensures !stop((taken + [event])[..k])
    {
      if k <= |taken| {
        assert (taken + [event])[..k] == taken[..k];
      } else {
        assert (taken + [event])[..k] == taken + [event];
      }
    }
  }

  /** An id seen before in a batch was seen in that batch. */
  lemma SeenInBatch(accept: Event -> bool, all: set<Event>, processed: set<Event>, rest: set<Event>,
                    batch: seq<Event>, given: seq<Event>, event: Event)
    requires OneEventPerId(all) && all == processed + rest && Newer(processed, rest) && Members(batch) <= rest && event in batch
    requires Members(given) <= Members(batch)
    requires event.id in set e | e in Members(Full(accept, processed) + given) :: e.id
    ensures event in given
  {
    assert event in Members(batch);
    var x :| x in Members(Full(accept, processed) + given) && x.id == event.id;
    assert forall y :: y in Full(accept, processed) ==> y in Members(Full(accept, processed));
    assert x in given ==> x in Members(given);
  }

  lemma GivenBefore(accept: Event -> bool, all: set<Event>, batch: seq<Event>, j: nat, given: seq<Event>, x: Event)
    requires OneEventPerId(all) && Members(batch) <= all && WeaklySorted(batch) && j <= |batch| && GivenFrom(accept, batch, j, given)
    requires given != [] && x in Accepted(accept, Members(batch)) - Members(given)
    ensures Before(given[|given| - 1], x)
  {
    hide WeaklySorted, OneEventPerId, Sorted;
    assert batch == batch[..j] + batch[j..];
    assert given[|given| - 1] in Members(given);
    assert x !in Members(batch[..j]);
    AfterGiven(all, batch, j, given[|given| - 1], x);
  }

  /** A batch given out in part is a prefix of its list. */
  lemma GivenPrefix(accept: Event -> bool, all: set<Event>, batch: seq<Event>, j: nat, given: seq<Event>)
    requires OneEventPerId(all) && Members(batch) <= all && WeaklySorted(batch) && j <= |batch| && GivenFrom(accept, batch, j, given)
    requires OneEventPerId(Members(batch))
    ensures given <= Full(accept, Members(batch))
  {
    hide WeaklySorted, OneEventPerId, Before, Accepted, Sorted;
    var whole := Accepted(accept, Members(batch));
    GivenAmong(accept, all, batch, j, given);
    var tail := List(whole - Members(given));
    if given != [] && tail != [] {
      assert tail[0] in Members(tail);
      GivenBefore(accept, all, batch, j, given, tail[0]);
    }
    SortedAppend(given, tail);
    assert Members(given + tail) == Members(given) + Members(tail);
    ListIs(given + tail, whole);
  }

  lemma GivenAmong(accept: Event -> bool, all: set<Event>, batch: seq<Event>, j: nat, given: seq<Event>)
    requires OneEventPerId(all) && Members(batch) <= all && j <= |batch| && GivenFrom(accept, batch, j, given)
    ensures var whole := Accepted(accept, Members(batch));
            Sorted(given) && Members(given) <= whole && OneEventPerId(whole) && OneEventPerId(whole - Members(given))
  {
    hide Sorted;
    assert Members(batch[..j]) <= Members(batch);
  }

  lemma GivenAll(accept: Event -> bool, all: set<Event>, batch: seq<Event>, given: seq<Event>)
    requires OneEventPerId(all) && Members(batch) <= all && GivenFrom(accept, batch, |batch|, given)
    ensures given == Full(accept, Members(batch))
  {
    assert batch[..|batch|] == batch;
    ListIs(given, Accepted(accept, Members(batch)));
  }

  lemma NoStopBefore(stop: seq<Event> -> bool, front: seq<Event>, full: seq<Event>)
    requires NoStop(stop, front) && front <= full
    ensures forall k :: 0 < k <= |front| ==> !stop(full[..k])
  {
    forall k | 0 < k <= |front|
      ensures !stop(full[..k])
    {
      assert full[..k] == front[..k];
    }
  }

  lemma StoppedAt(accept: Event -> bool, stop: seq<Event> -> bool, all: set<Event>, processed: set<Event>,
                  rest: set<Event>,
                  batch: seq<Event>, j: nat, given: seq<Event>, before: seq<Event>, taken: seq<Event>)
    requires OneEventPerId(all) && all == processed + rest && Newer(processed, rest) && Members(batch) <= rest
    requires WeaklySorted(batch) && j <= |batch| && GivenFrom(accept, batch, j, given) && given != []
    requires forall x, y :: x in Members(batch) && y in rest - Members(batch) ==> x.createdAt > y.createdAt
    requires before == Full(accept, processed) && taken == before + given
    requires NoStop(stop, before + given[..|given| - 1]) && stop(taken)
    ensures taken == UpTo(stop, Full(accept, all))
  {
    hide WeaklySorted, Sorted, OneEventPerId, UpTo, NoStop, Full, Accepted, GivenFrom;
    var others := rest - Members(batch);
    Fewer(all, rest);
    Fewer(all, processed);
    Fewer(all, Members(batch));
    GivenPrefix(accept, all, batch, j, given);
    PrefixOfFull(accept, processed, rest);
    PrefixOfFull(accept, Members(batch), others);
    assert Members(batch) + others == rest;
    var full := Full(accept, all);
    assert taken <= full;
    assert full[..|taken|] == taken;
    NoStopBefore(stop, before + given[..|given| - 1], full);
    UpToStops(stop, full, 0, |taken|);
  }

  // ---- slots between batches ----

  lemma HeadDrained(slots: seq<Slot>, i: nat, drainBuf: seq<Event>)
    requires i < |slots| && SlotsOk(slots) && slots[i].head.Some?
    ensures var e, s := slots[i].head.value, slots[i].(head := None, request := Advance);
            && Members(drainBuf + [e]) + Remaining(slots[i := s]) == Members(drainBuf) + Remaining(slots)
            && Outstanding(slots[i := s]) == Outstanding(slots) + 1
            && TotalEffort(slots[i := s]) <= TotalEffort(slots)
            && SlotOk(s) && slots[i].live
  {
    var e, s := slots[i].head.value, slots[i].(head := None, request := Advance);
    UpdateCounts(slots, i, s);
    UpdateRemaining(slots, i, s, {e});
    assert Members(drainBuf + [e]) == Members(drainBuf) + {e};
  }

  /** With nothing outstanding, no event is newer than the newest head. */
  lemma HeadsFirst(slots: seq<Slot>, t: int)
    requires SlotsOk(slots) && Outstanding(slots) == 0
    requires forall i :: 0 <= i < |slots| && slots[i].head.Some? ==> slots[i].head.value.createdAt <= t
    ensures NoneAfter(Remaining(slots), t)
  {
    SomeOutstanding(slots);
    forall e | e in Remaining(slots)
      ensures e.createdAt <= t
    {
      RemainingAt(slots, e);
      var i :| 0 <= i < |slots| && e in Holding(slots[i]);
      assert SlotOk(slots[i]);
    }
  }

  lemma NothingLeft(slots: seq<Slot>)
    requires SlotsOk(slots) && Outstanding(slots) == 0 && forall i :: 0 <= i < |slots| ==> slots[i].head.None?
    ensures Remaining(slots) == {}
  {
    SomeOutstanding(slots);
    forall e
      ensures e !in Remaining(slots)
    {
      RemainingAt(slots, e);
    }
  }

  /** With nothing outstanding, the batch of a time holds all events of that time. */
  lemma DrainedAll(slots: seq<Slot>, t: int)
    requires SlotsOk(slots) && Outstanding(slots) == 0
    requires forall i :: 0 <= i < |slots| && slots[i].head.Some? ==> slots[i].head.value.createdAt < t
    ensures NoneAfter(Remaining(slots), t - 1)
  {
    HeadsFirst(slots, t - 1);
  }

  function Opening(openers: seq<(bool, seq<Row>)>): seq<Slot> {
    seq(|openers|, i requires 0 <= i < |openers| => Slot(openers[i].0, false, None, openers[i].1, Advance))
  }

  lemma {:induction false} OpeningOutstanding(openers: seq<(bool, seq<Row>)>)
    ensures Outstanding(Opening(openers)) == |openers|
  {
    if openers != [] {
      var n := |openers| - 1;
      OpeningOutstanding(openers[..n]);
      assert Opening(openers)[..n] == Opening(openers[..n]);
    }
  }

  lemma PrefixOfFull(accept: Event -> bool, newer: set<Event>, older: set<Event>)
    requires OneEventPerId(newer + older) && Newer(newer, older)
    ensures Full(accept, newer + older) == Full(accept, newer) + Full(accept, older)
  {
    assert Accepted(accept, newer + older) == Accepted(accept, newer) + Accepted(accept, older);
    ListAppend(Accepted(accept, newer), Accepted(accept, older));
  }

  lemma {:induction false} UpToPrefix(stop: seq<Event> -> bool, taken: seq<Event>, list: seq<Event>, from: nat := 0)
    requires taken <= list && NoStop(stop, taken) && from <= |list|
    ensures from < |taken| ==> taken <= UpTo(stop, list, from)
    decreases |list| - from
  {
    if from < |taken| {
      assert list[..from + 1] == taken[..from + 1];
      UpToPrefix(stop, taken, list, from + 1);
      UpToLong(stop, list, from + 1);
    }
  }

  lemma {:induction false} UpToLong(stop: seq<Event> -> bool, list: seq<Event>, from: nat)
    requires from <= |list|
    ensures |UpTo(stop, list, from)| >= from && list[..from] <= UpTo(stop, list, from)
    decreases |list| - from
  {
    if from < |list| && !stop(list[..from + 1]) {
      UpToLong(stop, list, from + 1);
      assert list[..from + 1][..from] == list[..from];
    }
  }
}
