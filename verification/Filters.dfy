/** NIP-01 filters and what they match (src/core/filter.ts). */
module Filters {
  import opened Results
  import opened Events

  datatype Filter = Filter(
    ids: Option<seq<string>>,
    kinds: Option<seq<int>>,
    authors: Option<seq<string>>,
    tags: map<string, seq<string>>,
    since: Option<int>,
    until: Option<int>,
    limit: Option<nat>
  )

  /** The value of a tag, for the tags whose values are hex and compared without case. */
  function TagKey(name: string, value: string): string {
    if name == "e" || name == "p" then Lower(value) else value
  }

  predicate TagHits(tag: Tag, name: string, values: seq<string>) {
    |tag| > 1 && tag[0] == name && exists v :: v in values && TagKey(name, v) == TagKey(name, tag[1])
  }

  predicate HasTag(e: Event, name: string, values: seq<string>) {
    exists tag :: tag in e.tags && TagHits(tag, name, values)
  }

  predicate ListsLower(values: seq<string>, x: string) {
    exists v :: v in values && Lower(v) == x
  }

  /** Every constraint of the filter holds of the event; `limit` is none of them. */
  predicate Matches(f: Filter, e: Event) {
    && (f.ids.Some? ==> ListsLower(f.ids.value, e.id))
    && (f.kinds.Some? ==> e.kind in f.kinds.value)
    && (f.authors.Some? ==> ListsLower(f.authors.value, e.pubkey))
    && (forall name :: name in f.tags ==> HasTag(e, name, f.tags[name]))
    && (f.since.Some? ==> f.since.value <= e.createdAt)
    && (f.until.Some? ==> e.createdAt <= f.until.value)
  }

  /** The loop behind `some` over a list of hex strings. */
  method ListsLowerLoop(values: seq<string>, x: string) returns (found: bool)
    ensures found == ListsLower(values, x)
  {
    for i := 0 to |values|
      invariant forall j :: 0 <= j < i ==> Lower(values[j]) != x
    {
      if Lower(values[i]) == x {
        assert values[i] in values;
        return true;
      }
    }
    found := false;
  }

  method HasTagLoop(e: Event, name: string, values: seq<string>) returns (hit: bool)
    ensures hit == HasTag(e, name, values)
  {
    for i := 0 to |e.tags|
      invariant forall k :: 0 <= k < i ==> !TagHits(e.tags[k], name, values)
    {
      var tag := e.tags[i];
      if |tag| > 1 && tag[0] == name {
        for j := 0 to |values|
          invariant forall k :: 0 <= k < j ==> TagKey(name, values[k]) != TagKey(name, tag[1])
        {
          if TagKey(name, values[j]) == TagKey(name, tag[1]) {
            assert values[j] in values && TagHits(tag, name, values) && tag in e.tags;
            return true;
          }
        }
      }
    }
    hit := false;
  }

  /** matchFilter: the checks in the order of the source, each of which may end the search. */
  method MatchFilter(f: Filter, e: Event) returns (r: bool)
    ensures r == Matches(f, e)
  {
    if f.ids.Some? {
      var hit := ListsLowerLoop(f.ids.value, e.id);
      if !hit {
        return false;
      }
    }
    if f.kinds.Some? && e.kind !in f.kinds.value {
      return false;
    }
    if f.authors.Some? {
      var hit := ListsLowerLoop(f.authors.value, e.pubkey);
      if !hit {
        return false;
      }
    }
    var names := f.tags.Keys;
    while names != {}
      invariant names <= f.tags.Keys
      invariant forall name :: name in f.tags && name !in names ==> HasTag(e, name, f.tags[name])
      decreases |names|
    {
      var name :| name in names;
      names := names - {name};
      var hit := HasTagLoop(e, name, f.tags[name]);
      if !hit {
        return false;
      }
    }
    r := (f.since.None? || f.since.value <= e.createdAt) && (f.until.None? || e.createdAt <= f.until.value);
  }

  predicate MatchesAny(filters: seq<Filter>, e: Event) {
    exists f :: f in filters && Matches(f, e)
  }
}
