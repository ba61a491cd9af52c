/** The secondary maps of the index, from a key to the ids filed under it (src/core/collections.ts). */
module Indexes {
  import opened Events

  /** What a secondary map is keyed by; the source spells the last two as one string each. */
  datatype Key =
    | PubkeyKey(pubkey: string)
    | KindKey(kind: int)
    | KindPubkeyKey(kind: int, pubkey: string)
    | TagKeyOf(name: string, value: string)

  /** Which of the four secondary maps. */
  datatype Side = Pubkeys | Kinds | KindPubkeys | EpTags

  type SetMap = map<Key, set<string>>

  function AddToSetMap(m: SetMap, key: Key, id: string): SetMap {
    m[key := (if key in m then m[key] else {}) + {id}]
  }

  /** Removes the id, and the set with it once that is empty. */
  function RemoveFromSetMap(m: SetMap, key: Key, id: string): SetMap {
    if key !in m then m
    else if m[key] - {id} == {} then m - {key}
    else m[key := m[key] - {id}]
  }

  /** The keys of the e and p tags that have a value. */
  function EpKeys(tags: seq<Tag>): seq<Key> {
    if tags == [] then []
    else
      var tag := tags[|tags| - 1];
      EpKeys(tags[..|tags| - 1])
      + if |tag| > 1 && (tag[0] == "e" || tag[0] == "p") then [TagKeyOf(tag[0], Lower(tag[1]))] else []
  }

  function KeysOf(side: Side, e: Event): seq<Key> {
    match side
    case Pubkeys => [PubkeyKey(e.pubkey)]
    case Kinds => [KindKey(e.kind)]
    case KindPubkeys => [KindPubkeyKey(e.kind, e.pubkey)]
    case EpTags => EpKeys(e.tags)
  }

  function AddAll(m: SetMap, keys: seq<Key>, id: string): SetMap {
    if keys == [] then m else AddToSetMap(AddAll(m, keys[..|keys| - 1], id), keys[|keys| - 1], id)
  }

  function RemoveAll(m: SetMap, keys: seq<Key>, id: string): SetMap {
    if keys == [] then m else RemoveFromSetMap(RemoveAll(m, keys[..|keys| - 1], id), keys[|keys| - 1], id)
  }

  function At(m: SetMap, key: Key): set<string> {
    if key in m then m[key] else {}
  }

  function Having(byId: map<string, Event>, side: Side, key: Key): set<string> {
    set id | id in byId && key in KeysOf(side, byId[id])
  }

  /** The secondary map lists exactly the ids of the stored events with the key, and keeps no empty set. */
  ghost predicate Mirrors(m: SetMap, byId: map<string, Event>, side: Side) {
    forall key :: At(m, key) == Having(byId, side, key) && (key in m ==> m[key] != {})
  }

  lemma {:induction false} AddAllAt(m: SetMap, keys: seq<Key>, id: string, key: Key)
    ensures var r := AddAll(m, keys, id);
            && At(r, key) == At(m, key) + (if key in keys then {id} else {})
            && (key in r && r[key] == {} ==> key in m && m[key] == {})
  {
    if keys != [] {
      AddAllAt(m, keys[..|keys| - 1], id, key);
      assert keys == keys[..|keys| - 1] + [keys[|keys| - 1]];
    }
  }

  lemma {:induction false} RemoveAllAt(m: SetMap, keys: seq<Key>, id: string, key: Key)
    ensures var r := RemoveAll(m, keys, id);
            && At(r, key) == At(m, key) - (if key in keys then {id} else {})
            && (key in r && r[key] == {} ==> key in m && m[key] == {})
  {
    if keys != [] {
      RemoveAllAt(m, keys[..|keys| - 1], id, key);
      assert keys == keys[..|keys| - 1] + [keys[|keys| - 1]];
    }
  }

  /** Filing a new event under all its keys keeps the mirror. */
  lemma InsertMirrors(m: SetMap, byId: map<string, Event>, side: Side, e: Event)
    requires Mirrors(m, byId, side) && e.id !in byId
    ensures Mirrors(AddAll(m, KeysOf(side, e), e.id), byId[e.id := e], side)
  {
    forall key
      ensures At(AddAll(m, KeysOf(side, e), e.id), key) == Having(byId[e.id := e], side, key)
      ensures key in AddAll(m, KeysOf(side, e), e.id) ==> AddAll(m, KeysOf(side, e), e.id)[key] != {}
    {
      AddAllAt(m, KeysOf(side, e), e.id, key);
      assert At(m, key) == Having(byId, side, key);
    }
  }

  lemma RemoveMirrors(m: SetMap, byId: map<string, Event>, side: Side, id: string)
    requires Mirrors(m, byId, side) && id in byId
    ensures Mirrors(RemoveAll(m, KeysOf(side, byId[id]), id), byId - {id}, side)
  {
    forall key
      ensures At(RemoveAll(m, KeysOf(side, byId[id]), id), key) == Having(byId - {id}, side, key)
      ensures key in RemoveAll(m, KeysOf(side, byId[id]), id) ==> RemoveAll(m, KeysOf(side, byId[id]), id)[key] != {}
    {
      RemoveAllAt(m, KeysOf(side, byId[id]), id, key);
      assert At(m, key) == Having(byId, side, key);
    }
  }

  /** A tag constraint on e or p is met exactly by the events filed under one of its values. */
  lemma {:induction false} EpKeysAre(tags: seq<Tag>, name: string, value: string)
    requires name == "e" || name == "p"
    ensures TagKeyOf(name, value) in EpKeys(tags) <==>
              exists tag :: tag in tags && |tag| > 1 && tag[0] == name && Lower(tag[1]) == value
  {
    if tags != [] {
      EpKeysAre(tags[..|tags| - 1], name, value);
      assert tags == tags[..|tags| - 1] + [tags[|tags| - 1]];
    }
  }
}
