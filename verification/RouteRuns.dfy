/**
 * Runs of the routing table (src/gossip/gossip.ts): lists come in and pubkeys are looked up, and the table forgets
 * the pubkey used least recently when it is full.
 */
module RouteRuns {
  import opened Results
  import opened Events
  import opened Ordered
  import opened Routing
  import opened RouteTable
  import opened Sequences

  /** A lookup, or a list event of kind 10002 or 10050, under a lower-case pubkey. */
  datatype Step =
    | Consult(pk: string)
    | List(pk: string, items: seq<RelayItem>, mark: Mark)
    | DmList(pk: string, relays: seq<string>, mark: Mark)

  function Apply(m: Recency, step: Step, c: Limits): Recency {
    match step
    case Consult(pk) => Looked(m, pk)
    case List(pk, items, mark) => SetList(m, pk, items, mark.createdAt, Some(mark.id), c)
    case DmList(pk, relays, mark) => SetDm(m, pk, relays, mark.createdAt, Some(mark.id), c)
  }

  /** The table after the steps, from an empty one. */
  function Run(steps: seq<Step>, c: Limits): Recency {
    if steps == [] then Empty() else Apply(Run(steps[..|steps| - 1], c), steps[|steps| - 1], c)
  }

  /** The step brings a list of `k`. */
  predicate Lists(step: Step, k: string, dm: bool) {
    step.pk == k && if dm then step.DmList? else step.List?
  }

  /** The lists of `k` that came in, accepted or not. */
  function MarksOf(steps: seq<Step>, k: string, dm: bool): seq<Mark> {
    if steps == [] then []
    else
      var init, last := MarksOf(steps[..|steps| - 1], k, dm), steps[|steps| - 1];
      if Lists(last, k, dm) then init + [last.mark] else init
  }

  /** The step writes an entry for its pubkey. */
  predicate Writes(m: Recency, step: Step) {
    !step.Consult? && Accepts(SlotOf(m, step.pk, step.DmList?), step.mark.createdAt, Some(step.mark.id))
  }

  /** What a step writes. */
  function Entry(m: Recency, step: Step, c: Limits): Routes
    requires !step.Consult?
  {
    var prev, at, id := Prev(m, step.pk), step.mark.createdAt, Some(step.mark.id);
    if step.List? then WithList(prev, step.items, at, id, c) else WithDm(prev, step.relays, at, id, c)
  }

  /** What one write leaves in the table. */
  lemma PutIs(m: Recency, pk: string, entry: Routes, max: nat)
    requires WellFormed(m)
    ensures
      && var m' := Put(m, pk, entry, max);
      && WellFormed(m') && |m'.keys| <= max
      && m'.values.Keys <= m.values.Keys + {pk}
      && (forall k :: k in m'.values ==>
            if k == pk then m'.values[k] == entry else k in m.values && m'.values[k] == m.values[k])
      && (|m.values.Keys + {pk}| <= max ==> m'.values.Keys == m.values.Keys + {pk})
  {
    hide WellFormed, TouchKey, Trim;
    var t := TouchKey(m, pk, entry);
    TouchWellFormed(m, pk, entry);
    KeyCount(t);
    TrimIs(t, max);
    assert t.values.Keys == m.values.Keys + {pk};
  }

  lemma TrimIs(m: Recency, max: nat)
    requires WellFormed(m)
    ensures
      && var m' := Trim(m, max);
      && WellFormed(m') && |m'.keys| <= max && (|m.keys| <= max ==> m' == m)
      && forall k :: k in m'.values ==> k in m.values && m'.values[k] == m.values[k]
  {
    hide WellFormed, Excess;
    TrimWellFormed(m, max);
  }

  /** What one step leaves in the table. */
  lemma ApplyIs(m: Recency, step: Step, c: Limits, k: string)
    requires WellFormed(m)
    ensures
      && var m' := Apply(m, step, c);
      && WellFormed(m')
      && m'.values.Keys <= m.values.Keys + {step.pk}
      && (k in m'.values ==>
            if Writes(m, step) && step.pk == k then m'.values[k] == Entry(m, step, c)
            else k in m.values && m'.values[k] == m.values[k])
      && (|m.values.Keys + {step.pk}| <= c.maxPubkeys || !Writes(m, step) ==>
            m'.values.Keys == if Writes(m, step) then m.values.Keys + {step.pk} else m.values.Keys)
  {
    hide WellFormed, Put, Looked, WithList, WithDm, Accepts, SlotOf;
    LookedFits(m, step.pk);
    if Writes(m, step) {
      PutIs(Looked(m, step.pk), step.pk, Entry(m, step, c), c.maxPubkeys);
      assert Apply(m, step, c) == Put(Looked(m, step.pk), step.pk, Entry(m, step, c), c.maxPubkeys);
    } else {
      assert Apply(m, step, c) == Looked(m, step.pk);
    }
  }

  lemma KeyCount(m: Recency)
    requires WellFormed(m)
    ensures |m.keys| == |m.values.Keys|
  {
    DistinctCount(m.keys);
  }

  lemma {:induction false} RunWellFormed(steps: seq<Step>, c: Limits)
    ensures WellFormed(Run(steps, c))
  {
    if steps != [] {
      RunWellFormed(steps[..|steps| - 1], c);
      ApplyIs(Run(steps[..|steps| - 1], c), steps[|steps| - 1], c, "");
    }
  }

  // ---- the list in force ----

  /** The step makes the table forget `k`. */
  predicate Evicts(m: Recency, step: Step, c: Limits, k: string) {
    k !in Apply(m, step, c).values && (k in m.values || (Writes(m, step) && step.pk == k))
  }

  ghost predicate NeverEvicted(steps: seq<Step>, c: Limits, k: string) {
    forall i :: 0 <= i < |steps| ==> !Evicts(Run(steps[..i], c), steps[i], c, k)
  }

  lemma SlotNext(m: Recency, step: Step, c: Limits, k: string, dm: bool)
    requires WellFormed(m) && !Evicts(m, step, c, k)
    ensures SlotOf(Apply(m, step, c), k, dm) ==
      if Lists(step, k, dm) then Ingest(SlotOf(m, k, dm), step.mark) else SlotOf(m, k, dm)
  {
    hide Apply, WellFormed;
    ApplyIs(m, step, c, k);
  }

  /** As long as a pubkey is not forgotten, its list in force is the one that all its lists lead to. */
  lemma {:induction false} SlotFollows(steps: seq<Step>, c: Limits, k: string, dm: bool)
    requires NeverEvicted(steps, c, k)
    ensures SlotOf(Run(steps, c), k, dm) == IngestAll(MarksOf(steps, k, dm))
  {
    hide Apply, Evicts, SlotOf, Ingest, WellFormed;
    if steps == [] {
      NothingYet(c, k, dm);
    } else {
      var n := |steps| - 1;
      var init := steps[..n];
      assert forall i :: 0 <= i < n ==> init[..i] == steps[..i] && init[i] == steps[i];
      SlotFollows(init, c, k, dm);
      RunWellFormed(init, c);
      assert !Evicts(Run(init, c), steps[n], c, k);
      SlotNext(Run(init, c), steps[n], c, k, dm);
      MarksNext(steps, k, dm);
    }
  }

  lemma NothingYet(c: Limits, k: string, dm: bool)
    ensures SlotOf(Run([], c), k, dm) == IngestAll(MarksOf([], k, dm)) == Slot(0, None)
  {
  }

  lemma MarksNext(steps: seq<Step>, k: string, dm: bool)
    requires steps != []
    ensures
      && var init, last := steps[..|steps| - 1], steps[|steps| - 1];
      && IngestAll(MarksOf(steps, k, dm)) ==
           if Lists(last, k, dm) then Ingest(IngestAll(MarksOf(init, k, dm)), last.mark)
           else IngestAll(MarksOf(init, k, dm))
  {
    var init, last := steps[..|steps| - 1], steps[|steps| - 1];
    if Lists(last, k, dm) {
      var marks := MarksOf(init, k, dm);
      assert (marks + [last.mark])[..|marks|] == marks;
    }
  }

  /** So the list in force is among those that came in, none of them wins over it, and their order does not matter. */
  lemma LatestKept(steps: seq<Step>, c: Limits, k: string, dm: bool)
    requires NeverEvicted(steps, c, k)
    ensures
      && var slot, marks := SlotOf(Run(steps, c), k, dm), MarksOf(steps, k, dm);
      && (slot.id.None? <==> forall m :: m in marks ==> m.createdAt < 0)
      && (slot.id.Some? ==>
            Mark(slot.id.value, slot.at) in marks && forall m :: m in marks ==> !Wins(m, Mark(slot.id.value, slot.at)))
  {
    hide NeverEvicted, SlotOf, Run, MarksOf;
    SlotFollows(steps, c, k, dm);
    LatestInForce(MarksOf(steps, k, dm));
  }

  lemma ArrivalOrderFree(a: seq<Step>, b: seq<Step>, c: Limits, k: string, dm: bool)
    requires NeverEvicted(a, c, k) && NeverEvicted(b, c, k)
    requires forall m :: m in MarksOf(a, k, dm) <==> m in MarksOf(b, k, dm)
    ensures SlotOf(Run(a, c), k, dm) == SlotOf(Run(b, c), k, dm)
  {
    hide NeverEvicted, SlotOf, Run, MarksOf;
    SlotFollows(a, c, k, dm);
    SlotFollows(b, c, k, dm);
    IngestOrderFree(MarksOf(a, k, dm), MarksOf(b, k, dm));
  }

  /** The step brought the list `mark` of `k`, with these relays. */
  ghost predicate BroughtList(step: Step, c: Limits, k: string, mark: Mark, write: seq<string>, read: seq<string>) {
    && step.List? && step.pk == k && step.mark == mark
    && write == First(Collect(step.items, ForReading, c.normal), c.maxRelays)
    && read == First(Collect(step.items, ForWriting, c.normal), c.maxRelays)
  }

  ghost predicate BroughtDm(step: Step, c: Limits, k: string, mark: Mark, dm: seq<string>) {
    && step.DmList? && step.pk == k && step.mark == mark
    && dm == First(Collect(Plain(step.relays), ForReading, c.normal), c.maxRelays)
  }

  /** One of the steps brought the list in force, and its relays are those that are kept. */
  ghost predicate Brought(steps: seq<Step>, c: Limits, k: string, r: Routes) {
    && (r.listId.Some? ==>
          exists step :: step in steps && BroughtList(step, c, k, Mark(r.listId.value, r.updatedAt), r.write, r.read))
    && (r.dmListId.Some? ==>
          exists step :: step in steps && BroughtDm(step, c, k, Mark(r.dmListId.value, r.dmUpdatedAt), r.dm))
  }

  lemma BroughtMore(steps: seq<Step>, more: seq<Step>, c: Limits, k: string, r: Routes)
    requires Brought(steps, c, k, r) && forall step :: step in steps ==> step in more
    ensures Brought(more, c, k, r)
  {
    hide BroughtList, BroughtDm;
  }

  lemma BroughtEntry(steps: seq<Step>, c: Limits, m: Recency, step: Step)
    requires !step.Consult? && step in steps && Brought(steps, c, step.pk, Prev(m, step.pk))
    ensures Brought(steps, c, step.pk, Entry(m, step, c))
  {
    hide Prev, Collect, First;
    var r := Entry(m, step, c);
    if step.List? {
      assert BroughtList(step, c, step.pk, Mark(r.listId.value, r.updatedAt), r.write, r.read);
    } else {
      assert BroughtDm(step, c, step.pk, Mark(r.dmListId.value, r.dmUpdatedAt), r.dm);
    }
  }

  /** In every run, evictions included, the relays of a pubkey are those of its list in force. */
  lemma {:induction false} RelaysAreListed(steps: seq<Step>, c: Limits, k: string)
    ensures Brought(steps, c, k, Prev(Run(steps, c), k))
  {
    hide Brought, Apply, WellFormed;
    if steps == [] {
      NoneBrought(c, k);
    } else {
      var n := |steps| - 1;
      var init, step := steps[..n], steps[n];
      var m := Run(init, c);
      RelaysAreListed(init, c, k);
      BroughtMore(init, steps, c, k, Prev(m, k));
      RunWellFormed(init, c);
      ApplyIs(m, step, c, k);
      NoneKept(steps, c, k);
      if Writes(m, step) && step.pk == k {
        BroughtEntry(steps, c, m, step);
      }
    }
  }

  lemma NoneBrought(c: Limits, k: string)
    ensures Brought([], c, k, Prev(Run([], c), k))
  {
  }

  lemma NoneKept(steps: seq<Step>, c: Limits, k: string)
    ensures Brought(steps, c, k, NoRoutes())
  {
  }

  // ---- how many pubkeys the table can keep apart ----

  predicate AboutOnly(steps: seq<Step>, u: set<string>) {
    forall i :: 0 <= i < |steps| ==> steps[i].pk in u
  }

  /** With no more pubkeys than the table holds, none is ever forgotten. */
  lemma {:induction false} FewKept(steps: seq<Step>, c: Limits, u: set<string>, k: string)
    requires AboutOnly(steps, u) && |u| <= c.maxPubkeys
    ensures NeverEvicted(steps, c, k) && Run(steps, c).values.Keys <= u
  {
    hide Apply, WellFormed;
    if steps != [] {
      var n := |steps| - 1;
      var init := steps[..n];
      var m := Run(init, c);
      FewKept(init, c, u, k);
      RunWellFormed(init, c);
      ApplyIs(m, steps[n], c, k);
      SubsetCount(m.values.Keys + {steps[n].pk}, u);
      assert !Evicts(m, steps[n], c, k);
      forall i | 0 <= i < |steps|
        ensures !Evicts(Run(steps[..i], c), steps[i], c, k)
      {
        if i < n {
          assert init[..i] == steps[..i] && init[i] == steps[i];
        }
      }
    }
  }

  /** The table says of a list what it would say had it never forgotten anybody. */
  predicate Agrees(steps: seq<Step>, c: Limits, k: string, dm: bool, mark: Mark) {
    Accepts(SlotOf(Run(steps, c), k, dm), mark.createdAt, Some(mark.id)) ==
    Accepts(IngestAll(MarksOf(steps, k, dm)), mark.createdAt, Some(mark.id))
  }

  /** In every run about these pubkeys each list is accepted or refused as if nobody had been forgotten. */
  ghost predicate Remembers(u: set<string>, c: Limits) {
    forall steps: seq<Step>, k, dm, mark :: AboutOnly(steps, u) && k in u ==> Agrees(steps, c, k, dm, mark)
  }

  function Filling(k: string, others: seq<string>): seq<Step> {
    if others == [] then [List(k, [], Mark("x", 5))]
    else Filling(k, others[..|others| - 1]) + [List(others[|others| - 1], [], Mark("y", 1))]
  }

  /** A list of `k`, then lists of others. */
  lemma {:induction false} FillingMarks(k: string, others: seq<string>)
    requires k !in others
    ensures MarksOf(Filling(k, others), k, false) == [Mark("x", 5)]
    ensures AboutOnly(Filling(k, others), Elements(others) + {k})
  {
    var steps := Filling(k, others);
    if others == [] {
      assert steps[..0] == [];
      assert MarksOf(steps[..0], k, false) == [];
    } else {
      FillingMarks(k, others[..|others| - 1]);
      assert steps[..|steps| - 1] == Filling(k, others[..|others| - 1]);
      assert others[|others| - 1] in others;
    }
  }

  lemma {:induction false} FillingKeys(k: string, others: seq<string>, c: Limits)
    requires k !in others && Distinct(others) && |others| <= c.maxPubkeys
    ensures Run(Filling(k, others), c).keys == if |others| < c.maxPubkeys then [k] + others else others
  {
    hide WellFormed, Apply, Distinct;
    var steps := Filling(k, others);
    var n := |steps| - 1;
    RunWellFormed(steps[..n], c);
    if others == [] {
      assert steps[..0] == [];
      FillNext(Empty(), k, Mark("x", 5), c);
    } else {
      var init, o := others[..|others| - 1], others[|others| - 1];
      DistinctInit(others);
      KeysShift(k, others);
      FillingKeys(k, init, c);
      assert steps[..n] == Filling(k, init) && steps[n] == List(o, [], Mark("y", 1));
      FillNext(Run(Filling(k, init), c), o, Mark("y", 1), c);
    }
  }

  lemma KeysShift(k: string, others: seq<string>)
    requires others != [] && k !in others
    ensures
      && var init, o := others[..|others| - 1], others[|others| - 1];
      && ([k] + init + [o])[1..] == others && [k] + init + [o] == [k] + others && k !in init && k != o
  {
    var init, o := others[..|others| - 1], others[|others| - 1];
    assert others == init + [o];
  }

  /** A first list of a pubkey puts it at the end; the first pubkey goes if the table is full. */
  lemma FillNext(m: Recency, pk: string, mark: Mark, c: Limits)
    requires WellFormed(m) && pk !in m.keys && 0 < mark.createdAt && |m.keys| <= c.maxPubkeys
    ensures var keys := m.keys + [pk];
      Apply(m, List(pk, [], mark), c).keys == if |keys| <= c.maxPubkeys then keys else keys[1..]
  {
    assert pk !in Elements(m.keys);
    WithoutDistinct(m.keys, pk);
    TouchWellFormed(m, pk, WithList(NoRoutes(), [], mark.createdAt, Some(mark.id), c));
    hide WellFormed, WithList, TouchKey;
    assert Looked(m, pk) == m;
  }

  ghost function Pick(u: set<string>, n: nat): (keys: seq<string>)
    requires n <= |u|
    ensures |keys| == n && Distinct(keys) && Elements(keys) <= u
  {
    if n == 0 then []
    else
      var x :| x in u;
      var rest := Pick(u - {x}, n - 1);
      assert x !in Elements(rest);
      assert ([x] + rest)[1..] == rest;
      [x] + rest
  }

  /** A pubkey with a list of time 5 is forgotten after enough others, and then a list of time 3 is accepted. */
  lemma Forgets(u: set<string>, c: Limits) returns (steps: seq<Step>, k: string)
    requires |u| > c.maxPubkeys
    ensures AboutOnly(steps, u) && k in u && k !in Run(steps, c).values
    ensures MarksOf(steps, k, false) == [Mark("x", 5)]
    ensures !Agrees(steps, c, k, false, Mark("z", 3))
  {
    assert u != {};
    k :| k in u;
    var others := Pick(u - {k}, c.maxPubkeys);
    assert k !in Elements(others);
    steps := Filling(k, others);
    FillingMarks(k, others);
    FillingKeys(k, others, c);
    RunWellFormed(steps, c);
    assert k !in Elements(Run(steps, c).keys);
    hide Run, MarksOf, Filling, Pick;
    var marks := [Mark("x", 5)];
    assert marks[..0] == [];
    assert IngestAll(marks) == Slot(5, Some("x"));
  }

  /** The table remembers well enough if and only if it holds as many pubkeys as there are. */
  lemma RemembersExactly(u: set<string>, c: Limits)
    ensures Remembers(u, c) <==> |u| <= c.maxPubkeys
  {
    hide Agrees, AboutOnly, Run, MarksOf;
    if |u| <= c.maxPubkeys {
      forall steps: seq<Step>, k, dm, mark | AboutOnly(steps, u) && k in u
        ensures Agrees(steps, c, k, dm, mark)
      {
        FewAgree(steps, c, u, k, dm, mark);
      }
    } else {
      var steps, k := Forgets(u, c);
    }
  }

  lemma FewAgree(steps: seq<Step>, c: Limits, u: set<string>, k: string, dm: bool, mark: Mark)
    requires AboutOnly(steps, u) && |u| <= c.maxPubkeys
    ensures Agrees(steps, c, k, dm, mark)
  {
    hide NeverEvicted, Run, MarksOf;
    FewKept(steps, c, u, k);
    SlotFollows(steps, c, k, dm);
  }

  /** With room for one pubkey: after a list of another pubkey an older list takes over. */
  lemma OlderListTakesOver(normal: string -> Option<string>, maxRelays: nat)
    ensures
      && var c := Limits(maxRelays, 1, normal);
      && var steps := [List("a", [], Mark("x", 5)), List("b", [], Mark("y", 1)), List("a", [], Mark("z", 3))];
      && SlotOf(Run(steps, c), "a", false) == Slot(3, Some("z"))
      && IngestAll(MarksOf(steps, "a", false)) == Slot(5, Some("x"))
  {
    var c := Limits(maxRelays, 1, normal);
    var steps := [List("a", [], Mark("x", 5)), List("b", [], Mark("y", 1)), List("a", [], Mark("z", 3))];
    assert steps[..1] == Filling("a", []) && steps[..2] == Filling("a", ["b"]);
    assert Distinct(["b"]);
    FillingMarks("a", ["b"]);
    FillingKeys("a", ["b"], c);
    var m := Run(steps[..2], c);
    RunWellFormed(steps[..2], c);
    assert "a" !in Elements(m.keys);
    assert steps[..|steps| - 1] == steps[..2];
    ApplyIs(m, steps[2], c, "a");
    FillNext(m, "a", Mark("z", 3), c);
    assert "a" in Elements(Apply(m, steps[2], c).keys);
    MarksNext(steps, "a", false);
    var marks := [Mark("x", 5)];
    assert marks[..0] == [];
  }
}
