/** Filters compiled to chunked query plans, and their rows merged (src/storage/sqlite.ts). */
module SqlCompile {
  import opened Results
  import opened Events
  import opened Filters

  /** Bound values per IN list. */
  const IN_CHUNK: nat := 500

  /** A row of the tags table. */
  datatype TagRow = TagRow(eventId: string, name: string, value: string)

  datatype SqlValue = Text(text: string) | Number(number: int)

  /** What an IN list is compared with: a column of the event, or the values of its tags of that name. */
  datatype Column = IdColumn | PubkeyColumn | KindColumn | TagColumn(name: string)

  /** A WHERE term with its bound parameters. */
  datatype Term =
    | In(column: Column, values: seq<SqlValue>)
    | CreatedFrom(time: int)
    | CreatedTo(time: int)

  type QueryPlan = seq<Term>

  predicate ColumnHas(column: Column, e: Event, tags: set<TagRow>, v: SqlValue) {
    match column
    case IdColumn => v == Text(e.id)
    case PubkeyColumn => v == Text(e.pubkey)
    case KindColumn => v == Number(e.kind)
    case TagColumn(name) => v.Text? && TagRow(e.id, name, v.text) in tags
  }

  predicate InHolds(column: Column, values: seq<SqlValue>, e: Event, tags: set<TagRow>) {
    exists v :: v in values && ColumnHas(column, e, tags, v)
  }

  predicate TermHolds(t: Term, e: Event, tags: set<TagRow>) {
    match t
    case In(column, values) => InHolds(column, values, e, tags)
    case CreatedFrom(time) => e.createdAt >= time
    case CreatedTo(time) => e.createdAt <= time
  }

  predicate PlanHolds(p: QueryPlan, e: Event, tags: set<TagRow>) {
    forall t :: t in p ==> TermHolds(t, e, tags)
  }

  predicate SomePlanHolds(plans: seq<QueryPlan>, e: Event, tags: set<TagRow>) {
    exists p :: p in plans && PlanHolds(p, e, tags)
  }

  predicate TermBounded(t: Term) {
    t.In? ==> |t.values| <= IN_CHUNK
  }

  predicate Bounded(plans: seq<QueryPlan>) {
    forall p :: p in plans ==> forall t :: t in p ==> TermBounded(t)
  }

  // ---- the variants of one field ----

  method Chunks(values: seq<SqlValue>) returns (chunks: seq<seq<SqlValue>>)
    ensures forall i :: 0 <= i < |chunks| ==> |chunks[i]| <= IN_CHUNK
    ensures forall v :: v in values <==> exists i :: 0 <= i < |chunks| && v in chunks[i]
  {
    chunks := [];
    var i: nat := 0;
    while i < |values|
      invariant i <= |values|
      invariant forall i :: 0 <= i < |chunks| ==> |chunks[i]| <= IN_CHUNK
      invariant forall v :: v in values[..i] <==> exists k :: 0 <= k < |chunks| && v in chunks[k]
    {
      var end := if i + IN_CHUNK <= |values| then i + IN_CHUNK else |values|;
      ChunkNext(values, i, end, chunks);
      chunks := chunks + [values[i..end]];
      i := end;
    }
    assert values[..|values|] == values;
  }

  lemma ChunkNext(values: seq<SqlValue>, i: nat, end: nat, chunks: seq<seq<SqlValue>>)
    requires i <= end <= |values|
    requires forall v :: v in values[..i] <==> exists k :: 0 <= k < |chunks| && v in chunks[k]
    ensures forall v :: v in values[..end] <==> exists k :: 0 <= k < |chunks| + 1 && v in (chunks + [values[i..end]])[k]
  {
    var more := chunks + [values[i..end]];
    assert values[..end] == values[..i] + values[i..end];
    forall v
      ensures v in values[..end] <==> exists k :: 0 <= k < |more| && v in more[k]
    {
      if v in values[..i] {
        var k :| 0 <= k < |chunks| && v in chunks[k];
        assert more[k] == chunks[k];
      } else if v in values[i..end] {
        assert v in more[|chunks|];
      }
    }
  }

  /** pushIn: one variant for each chunk of the values. */
  method InVariants(column: Column, values: seq<SqlValue>) returns (variants: seq<QueryPlan>)
    ensures Bounded(variants)
    ensures forall e, tags :: SomePlanHolds(variants, e, tags) <==> InHolds(column, values, e, tags)
  {
    var chunks := Chunks(values);
    variants := seq(|chunks|, i requires 0 <= i < |chunks| => [In(column, chunks[i])]);
    forall e, tags
      ensures SomePlanHolds(variants, e, tags) <==> InHolds(column, values, e, tags)
    {
      if InHolds(column, values, e, tags) {
        var v :| v in values && ColumnHas(column, e, tags, v);
        var i :| 0 <= i < |chunks| && v in chunks[i];
        assert variants[i] in variants && PlanHolds(variants[i], e, tags);
      }
      if SomePlanHolds(variants, e, tags) {
        var p :| p in variants && PlanHolds(p, e, tags);
        var i :| 0 <= i < |variants| && variants[i] == p;
        assert p[0] in p;
        var v :| v in chunks[i] && ColumnHas(column, e, tags, v);
        assert v in values;
      }
    }
  }

  /** What the variants of all fields say together. */
  ghost predicate AllHold(fields: seq<seq<QueryPlan>>, e: Event, tags: set<TagRow>) {
    forall i :: 0 <= i < |fields| ==> SomePlanHolds(fields[i], e, tags)
  }

  /** The cartesian product of the variants across the fields. */
  method Product(fields: seq<seq<QueryPlan>>) returns (plans: seq<QueryPlan>)
    requires forall i :: 0 <= i < |fields| ==> Bounded(fields[i])
    ensures Bounded(plans)
    ensures forall e, tags :: SomePlanHolds(plans, e, tags) <==> AllHold(fields, e, tags)
  {
    hide SomePlanHolds, Bounded;
    plans := [[]];
    EmptyPlan();
    for i := 0 to |fields|
      invariant Bounded(plans)
      invariant forall e, tags :: SomePlanHolds(plans, e, tags) <==> AllHold(fields[..i], e, tags)
    {
      ghost var before := plans;
      plans := Times(plans, fields[i]);
      forall e, tags
        ensures SomePlanHolds(plans, e, tags) <==> AllHold(fields[..i + 1], e, tags)
      {
        assert SomePlanHolds(plans, e, tags) <==> SomePlanHolds(before, e, tags) && SomePlanHolds(fields[i], e, tags);
        assert AllHold(fields[..i + 1], e, tags) <==> AllHold(fields[..i], e, tags) && SomePlanHolds(fields[i], e, tags) by {
          assert fields[..i + 1] == fields[..i] + [fields[i]];
        }
      }
    }
    assert fields[..|fields|] == fields;
  }

  lemma EmptyPlan()
    ensures Bounded([[]]) && forall e, tags :: SomePlanHolds([[]], e, tags)
  {
    forall e, tags
      ensures SomePlanHolds([[]], e, tags)
    {
      var none: QueryPlan := [];
      assert none in [none] && PlanHolds(none, e, tags);
    }
  }

  /** Every plan with every variant of one more field. */
  method Times(plans: seq<QueryPlan>, field: seq<QueryPlan>) returns (next: seq<QueryPlan>)
    requires Bounded(plans) && Bounded(field)
    ensures Bounded(next)
    ensures forall e, tags :: SomePlanHolds(next, e, tags) <==> SomePlanHolds(plans, e, tags) && SomePlanHolds(field, e, tags)
  {
    next := [];
    for i := 0 to |plans|
      invariant forall p :: p in next <==> exists j, k :: 0 <= j < i && 0 <= k < |field| && p == plans[j] + field[k]
    {
      for k := 0 to |field|
        invariant forall p :: p in next <==>
                    (exists j, l :: 0 <= j < i && 0 <= l < |field| && p == plans[j] + field[l]) ||
                    (exists l :: 0 <= l < k && p == plans[i] + field[l])
      {
        next := next + [plans[i] + field[k]];
      }
    }
    ProductHolds(plans, field, next);
  }

  lemma ProductHolds(plans: seq<QueryPlan>, field: seq<QueryPlan>, next: seq<QueryPlan>)
    requires Bounded(plans) && Bounded(field)
    requires forall p :: p in next <==> exists j, k :: 0 <= j < |plans| && 0 <= k < |field| && p == plans[j] + field[k]
    ensures Bounded(next)
    ensures forall e, tags :: SomePlanHolds(next, e, tags) <==> SomePlanHolds(plans, e, tags) && SomePlanHolds(field, e, tags)
  {
    forall e, tags
      ensures SomePlanHolds(next, e, tags) <==> SomePlanHolds(plans, e, tags) && SomePlanHolds(field, e, tags)
    {
      if SomePlanHolds(plans, e, tags) && SomePlanHolds(field, e, tags) {
        var p :| p in plans && PlanHolds(p, e, tags);
        var q :| q in field && PlanHolds(q, e, tags);
        assert p + q in next && PlanHolds(p + q, e, tags);
      }
      if SomePlanHolds(next, e, tags) {
        var p :| p in next && PlanHolds(p, e, tags);
        var j, k :| 0 <= j < |plans| && 0 <= k < |field| && p == plans[j] + field[k];
        assert plans[j] in plans && field[k] in field;
        assert forall t :: t in plans[j] || t in field[k] ==> t in p;
      }
    }
    forall p, t | p in next && t in p
      ensures TermBounded(t)
    {
      var j, k :| 0 <= j < |plans| && 0 <= k < |field| && p == plans[j] + field[k];
      assert plans[j] in plans && field[k] in field;
    }
  }

  // ---- compiling a filter ----

  /** The rows of the tags table for a stored event: single-letter tags with a value. */
  function TagRows(e: Event): set<TagRow> {
    set tag | tag in e.tags && |tag| > 1 && |tag[0]| == 1 :: TagRow(e.id, tag[0], TagKey(tag[0], tag[1]))
  }

  /** The tags table lists exactly the rows of the event. */
  ghost predicate Indexed(e: Event, tags: set<TagRow>) {
    forall row: TagRow :: row.eventId == e.id ==> (row in tags <==> row in TagRows(e))
  }

  /** The tag constraints that the tags table cannot answer. */
  predicate IsDeferred(f: Filter) {
    exists name :: name in f.tags && |name| != 1
  }

  /** Everything the filter says that the tables can answer. */
  predicate IndexedMatch(f: Filter, e: Event) {
    && (f.ids.Some? ==> ListsLower(f.ids.value, e.id))
    && (f.kinds.Some? ==> e.kind in f.kinds.value)
    && (f.authors.Some? ==> ListsLower(f.authors.value, e.pubkey))
    && (forall name :: name in f.tags && |name| == 1 ==> HasTag(e, name, f.tags[name]))
    && (f.since.Some? ==> f.since.value <= e.createdAt)
    && (f.until.Some? ==> e.createdAt <= f.until.value)
  }

  function LowerTexts(values: seq<string>): seq<SqlValue> {
    seq(|values|, i requires 0 <= i < |values| => Text(Lower(values[i])))
  }

  function Numbers(values: seq<int>): seq<SqlValue> {
    seq(|values|, i requires 0 <= i < |values| => Number(values[i]))
  }

  function TagTexts(name: string, values: seq<string>): seq<SqlValue> {
    seq(|values|, i requires 0 <= i < |values| => Text(TagKey(name, values[i])))
  }

  lemma LowerTextsAre(values: seq<string>, x: string)
    ensures Text(x) in LowerTexts(values) <==> ListsLower(values, x)
  {
    if ListsLower(values, x) {
      var v :| v in values && Lower(v) == x;
      var i :| 0 <= i < |values| && values[i] == v;
      assert LowerTexts(values)[i] == Text(x);
    }
  }

  lemma NumbersAre(values: seq<int>, x: int)
    ensures Number(x) in Numbers(values) <==> x in values
  {
    if x in values {
      var i :| 0 <= i < |values| && values[i] == x;
      assert Numbers(values)[i] == Number(x);
    }
  }

  /** The tags table answers a single-letter tag constraint. */
  lemma TagInIs(name: string, values: seq<string>, e: Event, tags: set<TagRow>)
    requires Indexed(e, tags) && |name| == 1
    ensures InHolds(TagColumn(name), TagTexts(name, values), e, tags) <==> HasTag(e, name, values)
  {
    var texts := TagTexts(name, values);
    if HasTag(e, name, values) {
      var tag :| tag in e.tags && TagHits(tag, name, values);
      var v :| v in values && TagKey(name, v) == TagKey(name, tag[1]);
      var i :| 0 <= i < |values| && values[i] == v;
      assert texts[i] in texts;
      assert TagRow(e.id, name, TagKey(name, v)) in TagRows(e);
      assert ColumnHas(TagColumn(name), e, tags, texts[i]);
    }
    if InHolds(TagColumn(name), texts, e, tags) {
      var x :| x in texts && ColumnHas(TagColumn(name), e, tags, x);
      var i :| 0 <= i < |texts| && texts[i] == x;
      assert TagRow(e.id, name, x.text) in TagRows(e);
      var tag :| tag in e.tags && |tag| > 1 && |tag[0]| == 1 && TagRow(e.id, tag[0], TagKey(tag[0], tag[1])) == TagRow(e.id, name, x.text);
      assert values[i] in values && TagHits(tag, name, values);
    }
  }

  datatype Compiled = Compiled(plans: seq<QueryPlan>, deferred: bool)

  lemma AllHoldNext(fields: seq<seq<QueryPlan>>, variants: seq<QueryPlan>)
    ensures forall e, tags :: AllHold(fields + [variants], e, tags) <==> AllHold(fields, e, tags) && SomePlanHolds(variants, e, tags)
  {
    hide SomePlanHolds;
    forall e, tags
      ensures AllHold(fields + [variants], e, tags) <==> AllHold(fields, e, tags) && SomePlanHolds(variants, e, tags)
    {
      var more := fields + [variants];
      assert more[|fields|] == variants;
      if AllHold(more, e, tags) {
        forall i | 0 <= i < |fields|
          ensures SomePlanHolds(fields[i], e, tags)
        {
          assert more[i] == fields[i];
        }
      }
    }
  }

  lemma OneTerm(t: Term)
    ensures Bounded([[t]]) <==> TermBounded(t)
    ensures forall e, tags :: SomePlanHolds([[t]], e, tags) <==> TermHolds(t, e, tags)
  {
    var p: QueryPlan := [t];
    assert t in p && p in [p];
    forall e, tags
      ensures SomePlanHolds([[t]], e, tags) <==> TermHolds(t, e, tags)
    {
      assert PlanHolds(p, e, tags) <==> TermHolds(t, e, tags);
      assert SomePlanHolds([p], e, tags) <==> PlanHolds(p, e, tags);
    }
  }

  // ---- field by field ----

  predicate IdsMatch(f: Filter, e: Event) {
    f.ids.Some? ==> ListsLower(f.ids.value, e.id)
  }

  predicate AuthorsMatch(f: Filter, e: Event) {
    f.authors.Some? ==> ListsLower(f.authors.value, e.pubkey)
  }

  predicate KindsMatch(f: Filter, e: Event) {
    f.kinds.Some? ==> e.kind in f.kinds.value
  }

  predicate TimeMatch(f: Filter, e: Event) {
    (f.since.Some? ==> f.since.value <= e.createdAt) && (f.until.Some? ==> e.createdAt <= f.until.value)
  }

  ghost predicate AllBounded(fields: seq<seq<QueryPlan>>) {
    forall i :: 0 <= i < |fields| ==> Bounded(fields[i])
  }

  method IdField(f: Filter) returns (fields: seq<seq<QueryPlan>>)
    ensures AllBounded(fields) && forall e, tags :: AllHold(fields, e, tags) <==> IdsMatch(f, e)
  {
    fields := [];
    if f.ids.Some? {
      var values := LowerTexts(f.ids.value);
      var variants := InVariants(IdColumn, values);
      forall e, tags
        ensures InHolds(IdColumn, values, e, tags) <==> IdsMatch(f, e)
      {
        LowerTextsAre(f.ids.value, e.id);
      }
      AllHoldNext(fields, variants);
      fields := fields + [variants];
    }
  }

  method AuthorField(f: Filter) returns (fields: seq<seq<QueryPlan>>)
    ensures AllBounded(fields) && forall e, tags :: AllHold(fields, e, tags) <==> AuthorsMatch(f, e)
  {
    fields := [];
    if f.authors.Some? {
      var values := LowerTexts(f.authors.value);
      var variants := InVariants(PubkeyColumn, values);
      forall e, tags
        ensures InHolds(PubkeyColumn, values, e, tags) <==> AuthorsMatch(f, e)
      {
        LowerTextsAre(f.authors.value, e.pubkey);
      }
      AllHoldNext(fields, variants);
      fields := fields + [variants];
    }
  }

  method KindField(f: Filter) returns (fields: seq<seq<QueryPlan>>)
    ensures AllBounded(fields) && forall e, tags :: AllHold(fields, e, tags) <==> KindsMatch(f, e)
  {
    fields := [];
    if f.kinds.Some? {
      var values := Numbers(f.kinds.value);
      var variants := InVariants(KindColumn, values);
      forall e, tags
        ensures InHolds(KindColumn, values, e, tags) <==> KindsMatch(f, e)
      {
        NumbersAre(f.kinds.value, e.kind);
      }
      AllHoldNext(fields, variants);
      fields := fields + [variants];
    }
  }

  method TimeFields(f: Filter) returns (fields: seq<seq<QueryPlan>>)
    ensures AllBounded(fields) && forall e, tags :: AllHold(fields, e, tags) <==> TimeMatch(f, e)
  {
    hide Bounded, SomePlanHolds;
    fields := [];
    if f.since.Some? {
      OneTerm(CreatedFrom(f.since.value));
      AllHoldNext(fields, [[CreatedFrom(f.since.value)]]);
      fields := fields + [[[CreatedFrom(f.since.value)]]];
    }
    if f.until.Some? {
      OneTerm(CreatedTo(f.until.value));
      AllHoldNext(fields, [[CreatedTo(f.until.value)]]);
      fields := fields + [[[CreatedTo(f.until.value)]]];
    }
  }

  /** The tag constraints among `names` that the tables can answer. */
  ghost predicate TagsMatch(f: Filter, names: set<string>, e: Event) {
    forall name :: name in f.tags && name in names && |name| == 1 ==> HasTag(e, name, f.tags[name])
  }

  /** One field for each single-letter tag; `none` when one of them lists no values. */
  method TagFields(f: Filter) returns (fields: seq<seq<QueryPlan>>, deferred: bool, none: bool)
    ensures AllBounded(fields)
    ensures none ==> forall e :: !Matches(f, e)
    ensures !none ==> deferred == IsDeferred(f)
    ensures !none ==> forall e, tags :: Indexed(e, tags) ==> (AllHold(fields, e, tags) <==> TagsMatch(f, f.tags.Keys, e))
  {
    hide SomePlanHolds, Bounded;
    fields, deferred, none := [], false, false;
    var names := f.tags.Keys;
    ghost var seen: set<string> := {};
    while names != {}
      invariant AllBounded(fields) && names !! seen && names + seen == f.tags.Keys
      invariant deferred == exists name :: name in seen && |name| != 1
      invariant forall e, tags :: Indexed(e, tags) ==> (AllHold(fields, e, tags) <==> TagsMatch(f, seen, e))
      decreases |names|
    {
      var name :| name in names;
      names := names - {name};
      ghost var before := seen;
      seen := seen + {name};
      TagsNext(f, before, name);
      var values := f.tags[name];
      if |name| != 1 {
        deferred := true;
        continue;
      }
      if |values| == 0 {
        NoValues(f, name);
        none := true;
        return;
      }
      var texts := TagTexts(name, values);
      var variants := InVariants(TagColumn(name), texts);
      forall e, tags | Indexed(e, tags)
        ensures SomePlanHolds(variants, e, tags) <==> HasTag(e, name, values)
      {
        TagInIs(name, values, e, tags);
      }
      AllHoldNext(fields, variants);
      fields := fields + [variants];
    }
  }

  lemma TagsNext(f: Filter, names: set<string>, name: string)
    requires name in f.tags
    ensures forall e :: TagsMatch(f, names + {name}, e) <==> TagsMatch(f, names, e) && (|name| == 1 ==> HasTag(e, name, f.tags[name]))
  {
  }

  lemma NoValues(f: Filter, name: string)
    requires name in f.tags && f.tags[name] == []
    ensures forall e :: !Matches(f, e)
  {
    forall e
      ensures !Matches(f, e)
    {
      assert !HasTag(e, name, []);
    }
  }

  lemma AllHoldAppend(a: seq<seq<QueryPlan>>, b: seq<seq<QueryPlan>>)
    requires AllBounded(a) && AllBounded(b)
    ensures AllBounded(a + b)
    ensures forall e, tags :: AllHold(a + b, e, tags) <==> AllHold(a, e, tags) && AllHold(b, e, tags)
  {
    hide SomePlanHolds, Bounded;
    forall e, tags
      ensures AllHold(a + b, e, tags) <==> AllHold(a, e, tags) && AllHold(b, e, tags)
    {
      assert forall i :: 0 <= i < |a| ==> (a + b)[i] == a[i];
      assert forall i :: 0 <= i < |b| ==> (a + b)[|a| + i] == b[i];
    }
  }

  /**
   * compileFilter: plans whose rows together are those that match, as far as the tables can tell; no
   * list binds more than 500 values. Without plans nothing matches.
   */
  method CompileFilter(f: Filter) returns (r: Option<Compiled>)
    ensures r.None? ==> forall e :: !Matches(f, e)
    ensures r.Some? ==> Bounded(r.value.plans) && r.value.deferred == IsDeferred(f)
    ensures r.Some? ==> forall e, tags :: Indexed(e, tags) ==> (SomePlanHolds(r.value.plans, e, tags) <==> IndexedMatch(f, e))
  {
    hide SomePlanHolds, Bounded, AllHold, HasTag, ListsLower;
    if (f.ids.Some? && |f.ids.value| == 0) || (f.authors.Some? && |f.authors.value| == 0) || (f.kinds.Some? && |f.kinds.value| == 0) {
      NothingListed(f);
      return None;
    }
    var ids := IdField(f);
    var authors := AuthorField(f);
    var kinds := KindField(f);
    var times := TimeFields(f);
    var tagged, deferred, none := TagFields(f);
    if none {
      return None;
    }
    AllHoldAppend(ids, authors);
    AllHoldAppend(ids + authors, kinds);
    AllHoldAppend(ids + authors + kinds, times);
    AllHoldAppend(ids + authors + kinds + times, tagged);
    var plans := Product(ids + authors + kinds + times + tagged);
    r := Some(Compiled(plans, deferred));
  }

  lemma NothingListed(f: Filter)
    requires (f.ids.Some? && |f.ids.value| == 0) || (f.authors.Some? && |f.authors.value| == 0) || (f.kinds.Some? && |f.kinds.value| == 0)
    ensures forall e :: !Matches(f, e)
  {
  }

  /** Without multi-letter tags the tables tell all. */
  lemma NothingDeferred(f: Filter, e: Event)
    requires !IsDeferred(f)
    ensures IndexedMatch(f, e) <==> Matches(f, e)
  {
  }
}
