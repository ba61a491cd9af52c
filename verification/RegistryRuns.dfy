/**
 * Every run of the subscription registry (src/relay/subscription-registry.ts): what all its operations keep,
 * how often a REQ is closed on the wire, and what a handler is told.
 */
module RegistryRuns {
  import opened Events
  import opened Filters
  import opened Ordered
  import opened RegistrySpec

  // ---- the operations keep the three maps, the groups and the subscriptions in step ----

  lemma MemberWithout<K>(keys: seq<K>, key: K, x: K)
    ensures x in Without(keys, key) <==> x in keys && x != key
  {
    WithoutDistinct(keys, key);
    assert x in Elements(Without(keys, key)) <==> x in Elements(keys) - {key};
  }

  ghost predicate CanRetire(s: Registry, g: Ref) {
    Sound(s) && g < |s.all| && g in s.groups && Registered(s, g)
  }

  /** What the end of the group `g` does to the maps and to the subscriptions. */
  ghost predicate Retired(s: Registry, g: Ref, s': Registry)
    requires g < |s.all| && g in s.groups
  {
    && s'.subs == Delete(s.subs, s.all[g].id)
    && s'.liveBySubId == s.liveBySubId - {s.all[g].id}
    && (forall fp :: fp in s'.liveByFp <==> fp in s.liveByFp && s.liveByFp[fp] != g)
    && (forall fp :: fp in s'.liveByFp ==> s'.liveByFp[fp] == s.liveByFp[fp])
    && s'.groups == s.groups[g := s.groups[g].(attachments := [])]
    && |s'.all| == |s.all|
    && forall x: Ref :: x < |s.all| ==>
         s'.all[x] == if x == g || s.all[x].role == Handle(g) then s.all[x].(closed := true) else s.all[x]
  }

  lemma RetireFacts(s: Registry, g: Ref)
    requires CanRetire(s, g)
    ensures Retired(s, g, Retire(s, g))
  {
    hide WellFormed, Delete, WireAgrees, SubAgrees, Shut;
    var s' := Retire(s, g);
    assert GroupAgrees(s, g);
    forall x: Ref | x < |s.all|
      ensures s'.all[x] == if x == g || s.all[x].role == Handle(g) then s.all[x].(closed := true) else s.all[x]
    {
      assert Reached(s, x);
      if x in s.groups[g].attachments {
        assert IsHandle(s, g, x);
      }
    }
    forall fp
      ensures fp in s'.liveByFp <==> fp in s.liveByFp && s.liveByFp[fp] != g
    {
      assert fp in s.liveByFp ==> PrintAgrees(s, fp);
    }
  }

  lemma RetireWires(s: Registry, g: Ref, s': Registry)
    requires CanRetire(s, g) && Retired(s, g, s')
    ensures forall id :: id in s'.liveBySubId ==> WireAgrees(s', id)
  {
    hide WellFormed, Reached, GroupAgrees, SubAgrees, PrintAgrees;
    forall id | id in s'.liveBySubId
      ensures WireAgrees(s', id)
    {
      assert WireAgrees(s, id);
    }
  }

  lemma RetireSubs(s: Registry, g: Ref, s': Registry)
    requires CanRetire(s, g) && Retired(s, g, s')
    ensures WellFormed(s'.subs) && forall id :: id in s'.subs.values ==> SubAgrees(s', id)
  {
    hide WellFormed, Reached, GroupAgrees, WireAgrees, PrintAgrees;
    DeleteWellFormed(s.subs, s.all[g].id);
    forall id | id in s'.subs.values
      ensures SubAgrees(s', id)
    {
      assert SubAgrees(s, id);
    }
  }

  lemma RetirePrints(s: Registry, g: Ref, s': Registry)
    requires CanRetire(s, g) && Retired(s, g, s')
    ensures forall fp :: fp in s'.liveByFp ==> PrintAgrees(s', fp)
  {
    hide WellFormed, Reached, GroupAgrees, SubAgrees;
    forall fp | fp in s'.liveByFp
      ensures PrintAgrees(s', fp)
    {
      assert PrintAgrees(s, fp);
      assert WireAgrees(s, s.all[s.liveByFp[fp]].id);
    }
  }

  lemma RetireGroups(s: Registry, g: Ref, s': Registry)
    requires CanRetire(s, g) && Retired(s, g, s')
    ensures forall h :: h in s'.groups ==> GroupAgrees(s', h)
  {
    hide WellFormed, MapsSound, Delete, Reached;
    forall h | h in s'.groups
      ensures GroupAgrees(s', h)
    {
      assert GroupAgrees(s, h);
    }
  }

  /** The id of a registered wire leads to it in both maps. */
  lemma WireListed(s: Registry, g: Ref)
    requires CanRetire(s, g)
    ensures s.all[g].id in s.subs.values && s.subs.values[s.all[g].id] == g
  {
    hide GroupAgrees, Reached;
    assert WireAgrees(s, s.all[g].id);
  }

  lemma RetireReached(s: Registry, g: Ref, s': Registry)
    requires CanRetire(s, g) && Retired(s, g, s')
    ensures forall r: Ref :: r < |s'.all| ==> Reached(s', r)
  {
    hide MapsSound, GroupAgrees, Without;
    WireListed(s, g);
    forall r: Ref | r < |s'.all|
      ensures Reached(s', r)
    {
      assert Reached(s, r);
    }
  }

  /** A registered group ends. */
  lemma RetiredSound(s: Registry, g: Ref, s': Registry)
    requires CanRetire(s, g) && Retired(s, g, s')
    ensures Sound(s')
  {
    hide Retired, Registered, WireAgrees, SubAgrees, PrintAgrees, WellFormed, GroupAgrees, Reached;
    RetireWires(s, g, s');
    RetireSubs(s, g, s');
    RetirePrints(s, g, s');
    RetireGroups(s, g, s');
    RetireReached(s, g, s');
  }

  /** Nothing changes but the flags and the watermarks of subscriptions, the messages and the calls. */
  ghost predicate SameShape(s: Registry, s': Registry) {
    && s'.subs == s.subs && s'.liveByFp == s.liveByFp && s'.liveBySubId == s.liveBySubId && s'.groups == s.groups
    && |s'.all| == |s.all|
    && forall x: Ref :: x < |s.all| ==>
         && s'.all[x].id == s.all[x].id && s'.all[x].role == s.all[x].role
         && s'.all[x].closed == s.all[x].closed && s'.all[x].filters == s.all[x].filters
  }

  lemma ShapeMaps(s: Registry, s': Registry)
    requires Sound(s) && SameShape(s, s')
    ensures MapsSound(s')
  {
    hide WellFormed, Reached, GroupAgrees;
    forall id | id in s'.liveBySubId
      ensures WireAgrees(s', id)
    {
      assert WireAgrees(s, id);
    }
    forall id | id in s'.subs.values
      ensures SubAgrees(s', id)
    {
      assert SubAgrees(s, id);
    }
    forall fp | fp in s'.liveByFp
      ensures PrintAgrees(s', fp)
    {
      assert PrintAgrees(s, fp);
    }
  }

  lemma ShapeSound(s: Registry, s': Registry)
    requires Sound(s) && SameShape(s, s')
    ensures Sound(s')
  {
    ShapeMaps(s, s');
    hide MapsSound;
    forall h | h in s'.groups
      ensures GroupAgrees(s', h)
    {
      assert GroupAgrees(s, h);
    }
    forall r: Ref | r < |s'.all|
      ensures Reached(s', r)
    {
      assert Reached(s, r);
    }
  }

  /** The open handle `r` leaves the group `g`, on which others stay. */
  ghost predicate Left(s: Registry, g: Ref, r: Ref, s': Registry)
    requires r < |s.all| && g in s.groups
  {
    && s'.subs == s.subs && s'.liveByFp == s.liveByFp && s'.liveBySubId == s.liveBySubId
    && s'.groups == s.groups[g := s.groups[g].(attachments := Without(s.groups[g].attachments, r))]
    && s'.groups[g].attachments != []
    && s'.all == s.all[r := s.all[r].(closed := true)]
  }

  lemma LeftMaps(s: Registry, g: Ref, r: Ref, s': Registry)
    requires Sound(s) && r < |s.all| && s.all[r].role == Handle(g) && Attached(s, g, r) && Left(s, g, r, s')
    ensures MapsSound(s')
  {
    hide WellFormed, Reached, GroupAgrees;
    forall id | id in s'.liveBySubId
      ensures WireAgrees(s', id)
    {
      assert WireAgrees(s, id);
    }
    forall id | id in s'.subs.values
      ensures SubAgrees(s', id)
    {
      assert SubAgrees(s, id);
    }
    forall fp | fp in s'.liveByFp
      ensures PrintAgrees(s', fp)
    {
      assert PrintAgrees(s, fp);
    }
  }

  lemma LeftGroups(s: Registry, g: Ref, r: Ref, s': Registry)
    requires Sound(s) && r < |s.all| && s.all[r].role == Handle(g) && Attached(s, g, r) && Left(s, g, r, s')
    ensures forall h :: h in s'.groups ==> GroupAgrees(s', h)
  {
    hide MapsSound, Reached;
    var refs := s.groups[g].attachments;
    WithoutDistinct(refs, r);
    forall a
      ensures a in Without(refs, r) <==> a in refs && a != r
    {
      MemberWithout(refs, r, a);
    }
    hide Without, Distinct, Elements;
    forall h | h in s'.groups
      ensures GroupAgrees(s', h)
    {
      assert GroupAgrees(s, h);
    }
  }

  lemma LeftSound(s: Registry, g: Ref, r: Ref, s': Registry)
    requires Sound(s) && r < |s.all| && s.all[r].role == Handle(g) && Attached(s, g, r) && Left(s, g, r, s')
    ensures Sound(s')
  {
    LeftMaps(s, g, r, s');
    LeftGroups(s, g, r, s');
    hide MapsSound, GroupAgrees;
    forall x: Ref | x < |s'.all|
      ensures Reached(s', x)
    {
      MemberWithout(s.groups[g].attachments, r, x);
      assert Reached(s, x);
    }
  }

  /** Nothing is kept under the id of the REQ `r` but `r` itself, as long as that is open. */
  ghost predicate Loose(s: Registry, r: Ref) {
    && r < |s.all| && !s.all[r].role.Handle? && s.all[r].id !in s.liveBySubId
    && (Held(s, s.all[r].id) ==> s.subs.values[s.all[r].id] == r)
  }

  lemma OpenLoose(s: Registry, r: Ref)
    requires Sound(s) && r < |s.all| && s.all[r].role == Exclusive && !s.all[r].closed
    ensures Loose(s, r)
  {
    hide GroupAgrees;
    assert Reached(s, r);
    assert s.all[r].id in s.liveBySubId ==> WireAgrees(s, s.all[r].id);
  }

  /** The REQ `r` is taken off the list, and closed. */
  ghost predicate Unlisted(s: Registry, r: Ref, s': Registry)
    requires r < |s.all|
  {
    && s'.subs == Delete(s.subs, s.all[r].id)
    && s'.liveByFp == s.liveByFp && s'.liveBySubId == s.liveBySubId && s'.groups == s.groups
    && s'.all == s.all[r := s.all[r].(closed := true)]
  }

  lemma UnlistedMaps(s: Registry, r: Ref, s': Registry)
    requires Sound(s) && Loose(s, r) && Unlisted(s, r, s')
    ensures MapsSound(s')
  {
    hide WellFormed, Reached, GroupAgrees;
    DeleteWellFormed(s.subs, s.all[r].id);
    forall id | id in s'.liveBySubId
      ensures WireAgrees(s', id)
    {
      assert WireAgrees(s, id);
    }
    forall id | id in s'.subs.values
      ensures SubAgrees(s', id)
    {
      assert SubAgrees(s, id);
    }
    forall fp | fp in s'.liveByFp
      ensures PrintAgrees(s', fp)
    {
      assert PrintAgrees(s, fp);
    }
  }

  lemma UnlistedReached(s: Registry, r: Ref, s': Registry)
    requires Sound(s) && Loose(s, r) && Unlisted(s, r, s')
    ensures forall x: Ref :: x < |s'.all| ==> Reached(s', x)
  {
    hide MapsSound, GroupAgrees, Without;
    forall x: Ref | x < |s'.all|
      ensures Reached(s', x)
    {
      assert Reached(s, x);
    }
  }

  lemma UnlistedGroups(s: Registry, r: Ref, s': Registry)
    requires Sound(s) && Loose(s, r) && Unlisted(s, r, s')
    ensures forall h :: h in s'.groups ==> GroupAgrees(s', h)
  {
    hide MapsSound, Reached, Delete, Held;
    forall h | h in s'.groups
      ensures GroupAgrees(s', h)
    {
      assert GroupAgrees(s, h);
    }
  }

  lemma UnlistedSound(s: Registry, r: Ref, s': Registry)
    requires Sound(s) && Loose(s, r) && Unlisted(s, r, s')
    ensures Sound(s')
  {
    hide MapsSound, GroupAgrees, Reached, Held, Delete;
    UnlistedMaps(s, r, s');
    UnlistedGroups(s, r, s');
    UnlistedReached(s, r, s');
  }

  // ---- opening ----

  ghost predicate Listed(s: Registry, id: string, filters: seq<Filter>, aborted: bool, s': Registry) {
    && s'.all == s.all + [Born(id, filters, Exclusive, aborted)]
    && s'.subs == Enter(if aborted then Delete(s.subs, id) else s.subs, id, |s.all|)
    && s'.liveByFp == s.liveByFp && s'.liveBySubId == s.liveBySubId && s'.groups == s.groups
  }

  /** No live group is kept under an id that is not held, and no open REQ has it. */
  lemma FreeKeys(s: Registry, id: string)
    requires Sound(s) && !Held(s, id)
    ensures id !in s.liveBySubId
    ensures forall x: Ref :: x < |s.all| && !s.all[x].role.Handle? && !s.all[x].closed ==> s.all[x].id != id
    ensures WellFormed(Delete(s.subs, id))
  {
    hide GroupAgrees;
    assert id in s.liveBySubId ==> WireAgrees(s, id);
    DeleteWellFormed(s.subs, id);
    hide WellFormed, Delete;
    forall x: Ref | x < |s.all| && !s.all[x].role.Handle? && !s.all[x].closed
      ensures s.all[x].id != id
    {
      assert Reached(s, x);
    }
  }

  lemma ListedMaps(s: Registry, id: string, filters: seq<Filter>, aborted: bool, s': Registry)
    requires Sound(s) && !Held(s, id) && Listed(s, id, filters, aborted, s')
    ensures MapsSound(s')
  {
    hide Reached, GroupAgrees, WellFormed;
    FreeKeys(s, id);
    EnterWellFormed(if aborted then Delete(s.subs, id) else s.subs, id, |s.all|);
    forall x | x in s'.liveBySubId
      ensures WireAgrees(s', x)
    {
      assert WireAgrees(s, x);
    }
    forall x | x in s'.subs.values
      ensures SubAgrees(s', x)
    {
      if x != id {
        assert SubAgrees(s, x);
      }
    }
    forall fp | fp in s'.liveByFp
      ensures PrintAgrees(s', fp)
    {
      assert PrintAgrees(s, fp);
    }
  }

  /** Groups that an operation leaves alone stay as they are when subscriptions are added. */
  lemma GrownGroup(s: Registry, h: Ref, s': Registry)
    requires Sound(s) && |s.all| <= |s'.all| && s'.all[..|s.all|] == s.all
    requires h in s.groups && h in s'.groups && s'.groups[h] == s.groups[h]
    requires Registered(s, h) ==> Registered(s', h)
    ensures GroupAgrees(s', h)
  {
    hide MapsSound, Reached, Registered;
    assert GroupAgrees(s, h);
    forall x: Ref | x < |s.all|
      ensures s'.all[x] == s.all[x]
    {
      assert s'.all[..|s.all|][x] == s.all[x];
    }
    forall a | a in s'.groups[h].attachments
      ensures IsHandle(s', h, a)
    {
      assert IsHandle(s, h, a);
    }
  }

  lemma ListedReached(s: Registry, id: string, filters: seq<Filter>, aborted: bool, s': Registry)
    requires Sound(s) && !Held(s, id) && Listed(s, id, filters, aborted, s')
    ensures forall x: Ref :: x < |s'.all| ==> Reached(s', x)
  {
    hide MapsSound, Without, GroupAgrees, Held;
    FreeKeys(s, id);
    forall x: Ref | x < |s'.all|
      ensures Reached(s', x)
    {
      if x < |s.all| {
        assert Reached(s, x);
      }
    }
  }

  lemma ListedSound(s: Registry, id: string, filters: seq<Filter>, aborted: bool, s': Registry)
    requires Sound(s) && !Held(s, id) && Listed(s, id, filters, aborted, s')
    ensures Sound(s')
  {
    hide MapsSound, GroupAgrees, Reached, Enter, Delete;
    ListedMaps(s, id, filters, aborted, s');
    ListedReached(s, id, filters, aborted, s');
    assert s'.all[..|s.all|] == s.all;
    forall h | h in s'.groups
      ensures GroupAgrees(s', h)
    {
      GrownGroup(s, h, s');
    }
  }

  ghost predicate Joined(s: Registry, g: Ref, filters: seq<Filter>, aborted: bool, s': Registry)
    requires g < |s.all| && g in s.groups
  {
    && s'.subs == s.subs && s'.liveByFp == s.liveByFp && s'.liveBySubId == s.liveBySubId
    && s'.all == s.all + [Born(s.all[g].id, filters, Handle(g), aborted)]
    && s'.groups == if aborted then s.groups
                    else s.groups[g := s.groups[g].(attachments := s.groups[g].attachments + [|s.all|])]
  }

  lemma JoinedMaps(s: Registry, g: Ref, filters: seq<Filter>, aborted: bool, s': Registry)
    requires Sound(s) && g < |s.all| && g in s.groups && Registered(s, g) && Joined(s, g, filters, aborted, s')
    ensures MapsSound(s')
  {
    hide Reached, GroupAgrees, WellFormed;
    forall x | x in s'.liveBySubId
      ensures WireAgrees(s', x)
    {
      assert WireAgrees(s, x);
    }
    forall x | x in s'.subs.values
      ensures SubAgrees(s', x)
    {
      assert SubAgrees(s, x);
    }
    forall fp | fp in s'.liveByFp
      ensures PrintAgrees(s', fp)
    {
      assert PrintAgrees(s, fp);
    }
  }

  lemma JoinedGroup(s: Registry, g: Ref, filters: seq<Filter>, s': Registry)
    requires Sound(s) && g < |s.all| && g in s.groups && Registered(s, g) && Joined(s, g, filters, false, s')
    ensures GroupAgrees(s', g)
  {
    hide MapsSound, Reached;
    var refs: seq<Ref> := s.groups[g].attachments;
    var a: Ref := |s.all|;
    assert GroupAgrees(s, g);
    assert !IsHandle(s, g, a);
    DistinctSnoc<Ref>(refs, a);
    assert s'.groups[g].attachments == refs + [a];
    forall a | a in refs + [|s.all|]
      ensures IsHandle(s', g, a)
    {
      if a in refs {
        assert IsHandle(s, g, a);
      }
    }
  }

  lemma JoinedGroups(s: Registry, g: Ref, filters: seq<Filter>, aborted: bool, s': Registry)
    requires Sound(s) && g < |s.all| && g in s.groups && Registered(s, g) && Joined(s, g, filters, aborted, s')
    ensures forall h :: h in s'.groups ==> GroupAgrees(s', h)
  {
    hide MapsSound, GroupAgrees, Reached;
    assert s'.all[..|s.all|] == s.all;
    forall h | h in s'.groups
      ensures GroupAgrees(s', h)
    {
      if h == g && !aborted {
        JoinedGroup(s, g, filters, s');
      } else {
        GrownGroup(s, h, s');
      }
    }
  }

  lemma JoinedReached(s: Registry, g: Ref, filters: seq<Filter>, aborted: bool, s': Registry)
    requires Sound(s) && g < |s.all| && g in s.groups && Registered(s, g) && Joined(s, g, filters, aborted, s')
    ensures forall x: Ref :: x < |s'.all| ==> Reached(s', x)
  {
    hide MapsSound, GroupAgrees;
    forall x: Ref | x < |s'.all|
      ensures Reached(s', x)
    {
      if x < |s.all| {
        assert Reached(s, x);
      }
    }
  }

  lemma JoinedSound(s: Registry, g: Ref, filters: seq<Filter>, aborted: bool, s': Registry)
    requires Sound(s) && g < |s.all| && g in s.groups && Registered(s, g) && Joined(s, g, filters, aborted, s')
    ensures Sound(s')
  {
    hide MapsSound, GroupAgrees, Reached, Joined, Registered;
    JoinedMaps(s, g, filters, aborted, s');
    JoinedGroups(s, g, filters, aborted, s');
    JoinedReached(s, g, filters, aborted, s');
  }

  /** A wire and its first handle. */
  ghost predicate Started(s: Registry, fp: string, filters: seq<Filter>, id: string, s': Registry) {
    var g := |s.all|;
    && s'.all == s.all + [Born(id, filters, Wire, false), Born(id, filters, Handle(g), false)]
    && s'.groups == s.groups[g := LiveGroup(fp, [g + 1])]
    && s'.liveByFp == s.liveByFp[fp := g]
    && s'.liveBySubId == s.liveBySubId[id := g]
    && s'.subs == Enter(s.subs, id, g)
  }

  lemma StartedMaps(s: Registry, fp: string, filters: seq<Filter>, id: string, s': Registry)
    requires Sound(s) && !Held(s, id) && Started(s, fp, filters, id, s')
    ensures MapsSound(s')
  {
    hide Reached, GroupAgrees, WellFormed;
    FreeKeys(s, id);
    EnterWellFormed(s.subs, id, |s.all|);
    hide Delete;
    forall x | x in s'.liveBySubId
      ensures WireAgrees(s', x)
    {
      if x != id {
        assert WireAgrees(s, x);
      }
    }
    forall x | x in s'.subs.values
      ensures SubAgrees(s', x)
    {
      if x != id {
        assert SubAgrees(s, x);
      }
    }
    forall x | x in s'.liveByFp
      ensures PrintAgrees(s', x)
    {
      if x != fp {
        assert PrintAgrees(s, x);
      }
    }
  }

  /** No group was ever kept under a subscription that is yet to be made. */
  lemma GroupsOld(s: Registry)
    requires Sound(s)
    ensures |s.all| !in s.groups
  {
    assert |s.all| in s.groups ==> GroupAgrees(s, |s.all|);
  }

  lemma StartedReached(s: Registry, fp: string, filters: seq<Filter>, id: string, s': Registry)
    requires Sound(s) && !Held(s, id) && Started(s, fp, filters, id, s')
    ensures forall x: Ref :: x < |s'.all| ==> Reached(s', x)
  {
    hide MapsSound, Delete;
    FreeKeys(s, id);
    GroupsOld(s);
    hide GroupAgrees;
    var g := |s.all|;
    assert s'.all[g] == Born(id, filters, Wire, false) && s'.all[g + 1] == Born(id, filters, Handle(g), false);
    assert s'.liveBySubId[id] == g && s'.groups[g].attachments == [g + 1];
    assert Registered(s', g) && Attached(s', g, g + 1);
    forall x: Ref | x < g
      ensures Reached(s', x)
    {
      assert Reached(s, x) && s'.all[x] == s.all[x];
    }
  }

  lemma StartedGroups(s: Registry, fp: string, filters: seq<Filter>, id: string, s': Registry)
    requires Sound(s) && !Held(s, id) && Started(s, fp, filters, id, s')
    ensures forall h :: h in s'.groups ==> GroupAgrees(s', h)
  {
    hide MapsSound, Enter, Reached;
    FreeKeys(s, id);
    assert s'.all[..|s.all|] == s.all;
    var one: seq<Ref> := [|s.all| + 1];
    assert Distinct(one);
    forall h | h in s'.groups
      ensures GroupAgrees(s', h)
    {
      if h != |s.all| {
        assert GroupAgrees(s, h);
        GrownGroup(s, h, s');
      }
    }
  }

  lemma StartedSound(s: Registry, fp: string, filters: seq<Filter>, id: string, s': Registry)
    requires Sound(s) && !Held(s, id) && Started(s, fp, filters, id, s')
    ensures Sound(s')
  {
    hide MapsSound, GroupAgrees, Reached, Enter;
    StartedMaps(s, fp, filters, id, s');
    StartedReached(s, fp, filters, id, s');
    StartedGroups(s, fp, filters, id, s');
    assert s'.all[..|s.all|] == s.all;
  }

  /** A wire that was given up before its REQ was sent, as its only handle was aborted. */
  ghost predicate Abandoned(s: Registry, fp: string, filters: seq<Filter>, id: string, s': Registry) {
    var g := |s.all|;
    && s'.all == s.all + [Born(id, filters, Wire, true), Born(id, filters, Handle(g), true)]
    && s'.groups == s.groups[g := LiveGroup(fp, [])]
    && s'.liveByFp == s.liveByFp - {fp}
    && s'.liveBySubId == s.liveBySubId
    && s'.subs == Delete(s.subs, id)
  }

  lemma AbandonedMaps(s: Registry, fp: string, filters: seq<Filter>, id: string, s': Registry)
    requires Sound(s) && !Held(s, id) && Abandoned(s, fp, filters, id, s')
    ensures MapsSound(s')
  {
    hide Reached, WellFormed, GroupAgrees, Held, Without;
    GroupsOld(s);
    FreeKeys(s, id);
    forall x | x in s'.liveBySubId
      ensures WireAgrees(s', x)
    {
      assert WireAgrees(s, x);
    }
    forall x | x in s'.subs.values
      ensures SubAgrees(s', x)
    {
      assert SubAgrees(s, x);
    }
    forall x | x in s'.liveByFp
      ensures PrintAgrees(s', x)
    {
      assert PrintAgrees(s, x);
    }
  }

  lemma AbandonedGroups(s: Registry, fp: string, filters: seq<Filter>, id: string, s': Registry)
    requires Sound(s) && !Held(s, id) && Abandoned(s, fp, filters, id, s')
    ensures forall h :: h in s'.groups ==> GroupAgrees(s', h)
  {
    hide MapsSound, Reached;
    assert s'.all[..|s.all|] == s.all;
    assert Distinct<Ref>([]);
    forall h | h in s'.groups
      ensures GroupAgrees(s', h)
    {
      if h != |s.all| {
        assert GroupAgrees(s, h);
        GrownGroup(s, h, s');
      }
    }
  }

  lemma AbandonedReached(s: Registry, fp: string, filters: seq<Filter>, id: string, s': Registry)
    requires Sound(s) && !Held(s, id) && Abandoned(s, fp, filters, id, s')
    ensures forall x: Ref :: x < |s'.all| ==> Reached(s', x)
  {
    hide MapsSound;
    GroupsOld(s);
    FreeKeys(s, id);
    hide GroupAgrees;
    forall x: Ref | x < |s'.all|
      ensures Reached(s', x)
    {
      if x < |s.all| {
        assert Reached(s, x);
      }
    }
  }

  lemma AbandonedSound(s: Registry, fp: string, filters: seq<Filter>, id: string, s': Registry)
    requires Sound(s) && !Held(s, id) && Abandoned(s, fp, filters, id, s')
    ensures Sound(s')
  {
    hide MapsSound, GroupAgrees, Reached;
    AbandonedMaps(s, fp, filters, id, s');
    AbandonedGroups(s, fp, filters, id, s');
    AbandonedReached(s, fp, filters, id, s');
    assert s'.all[..|s.all|] == s.all;
  }

  // ---- every operation ----

  /** An open handle is attached to a registered group that lists it. */
  lemma HandleOpen(s: Registry, r: Ref)
    requires Sound(s) && r < |s.all| && s.all[r].role.Handle? && !s.all[r].closed
    ensures var g := s.all[r].role.of;
      && g < |s.all| && g in s.groups && Attached(s, g, r) && Registered(s, g)
      && s.all[g].role == Wire && !s.all[g].closed && IsHandle(s, g, r)
  {
    assert Reached(s, r);
    assert GroupAgrees(s, s.all[r].role.of);
    assert WireAgrees(s, s.all[r].id);
  }

  /** The handle `r` is the only one that its group still lists. */
  predicate Last(s: Registry, r: Ref) {
    && r < |s.all| && s.all[r].role.Handle?
    && s.all[r].role.of in s.groups && s.groups[s.all[r].role.of].attachments == [r]
  }

  lemma {:induction false} OnlyOne(refs: seq<Ref>, r: Ref)
    requires Distinct(refs) && r in refs
    ensures Without(refs, r) == [] <==> refs == [r]
  {
    if refs[0] == r {
      WithoutDistinct(refs[1..], r);
      assert refs == [r] + refs[1..];
    } else {
      OnlyOne(refs[1..], r);
    }
  }

  /** Messages and calls are no part of what `Retired` says. */
  lemma RetiredToo(s: Registry, g: Ref, t: Registry, sent: seq<Message>, calls: seq<Call>)
    requires g < |s.all| && g in s.groups && Retired(s, g, t)
    ensures Retired(s, g, t.(sent := sent, calls := calls))
  {
    hide Delete;
  }

  /** What one close of an open handle does: `CloseOne`, said without it. */
  lemma CloseFacts(s: Registry, r: Ref, reason: string, open: bool)
    requires Sound(s) && r < |s.all| && s.all[r].role.Handle? && !s.all[r].closed
    ensures
      && var g := s.all[r].role.of;
      && g < |s.all| && g in s.groups && Attached(s, g, r)
      && var s' := CloseOne(s, r, reason, open);
      && s'.calls == s.calls + [OnClose(r, reason)]
      && s'.sent == s.sent + (if Last(s, r) && open then [Close(s.all[g].id)] else [])
      && (if Last(s, r) then Retired(s, g, s') else Left(s, g, r, s'))
  {
    hide Retire, Retired, Without, Distinct;
    var g := s.all[r].role.of;
    HandleOpen(s, r);
    RetireFacts(s, g);
    assert GroupAgrees(s, g);
    OnlyOne(s.groups[g].attachments, r);
    var s' := CloseOne(s, r, reason, open);
    hide Sound, GroupAgrees;
    if Last(s, r) {
      RetiredToo(s, g, Retire(s, g), s'.sent, s'.calls);
    } else {
      assert s'.all == s.all[r := s.all[r].(closed := true)];
    }
  }

  /**
   * Closing the last handle of a group on an open socket sends one CLOSE of its wire and takes the group off
   * all maps; closing any other handle sends nothing and leaves the group registered.
   */
  lemma LastHandleCloses(s: Registry, r: Ref, reason: string, open: bool)
    requires Sound(s) && r < |s.all| && s.all[r].role.Handle? && !s.all[r].closed
    ensures
      && var g := s.all[r].role.of;
      && g < |s.all|
      && Attached(s, g, r)
      && var s' := CloseOne(s, r, reason, open);
      && var id := s.all[g].id;
      && s'.sent == s.sent + (if Last(s, r) && open then [Close(id)] else [])
      && (Last(s, r) <==> !Registered(s', g)) && (Last(s, r) <==> id !in s'.subs.values)
      && (Last(s, r) ==> forall fp :: fp in s'.liveByFp ==> s'.liveByFp[fp] != g)
      && |s'.all| == |s.all|
      && forall x: Ref :: x < |s.all| && !s.all[x].closed ==>
           (s'.all[x].closed <==> x == r || (Last(s, r) && x == g))
  {
    var g := s.all[r].role.of;
    CloseFacts(s, r, reason, open);
    HandleOpen(s, r);
    assert WireAgrees(s, s.all[g].id);
    var s' := CloseOne(s, r, reason, open);
    hide CloseOne, MapsSound, GroupAgrees;
    forall x: Ref | x < |s.all| && !s.all[x].closed
      ensures s'.all[x].closed <==> x == r || (Last(s, r) && x == g)
    {
      assert Reached(s, x);
    }
  }

  lemma CloseOneSound(s: Registry, r: Ref, reason: string, open: bool)
    requires Sound(s) && r < |s.all| && s.all[r].role != Wire
    ensures Sound(CloseOne(s, r, reason, open))
  {
    hide MapsSound, GroupAgrees, Reached, Retired, Left, Sound, Shut, Delete, Retire, Without;
    var s' := CloseOne(s, r, reason, open);
    if s.all[r].closed {
    } else if s.all[r].role.Handle? {
      var g := s.all[r].role.of;
      HandleOpen(s, r);
      CloseFacts(s, r, reason, open);
      if Last(s, r) {
        RetiredSound(s, g, s');
      } else {
        LeftSound(s, g, r, s');
      }
    } else {
      assert s'.all == s.all[r := s.all[r].(closed := true)];
      OpenLoose(s, r);
      UnlistedSound(s, r, s');
    }
  }

  lemma EoseOneSound(s: Registry, r: Ref, open: bool)
    requires Sound(s) && r < |s.all| && s.all[r].role != Wire
    ensures Sound(EoseOne(s, r, open))
  {
    hide MapsSound, GroupAgrees, CloseOne, Sound;
    if !s.all[r].closed && !s.all[r].eosed {
      var s' := s.(all := s.all[r := s.all[r].(eosed := true)], calls := s.calls + [OnEose(r)]);
      ShapeSound(s, s');
      if s.all[r].role == Exclusive {
        CloseOneSound(s', r, "eose", open);
      }
    }
  }

  lemma ListedRole(s: Registry, id: string)
    requires Sound(s) && id in s.subs.values
    ensures var r := s.subs.values[id];
      r < |s.all| && !s.all[r].role.Handle? && (s.all[r].role == Wire ==> r in s.groups)
  {
    assert SubAgrees(s, id);
    assert s.all[s.subs.values[id]].role == Wire ==> WireAgrees(s, id);
  }

  lemma HandleEoseShape(s: Registry, id: string, open: bool)
    requires Sound(s)
    requires id in s.subs.values ==> s.subs.values[id] < |s.all| && s.all[s.subs.values[id]].role == Wire
    ensures SameShape(s, HandleEose(s, id, open))
  {
    hide Sound, MapsSound, GroupAgrees, Reached, Waiting, Eoses, EoseOne;
  }

  lemma HandleEoseSound(s: Registry, id: string, open: bool)
    requires Sound(s)
    ensures Sound(HandleEose(s, id, open))
  {
    assert id in s.subs.values ==> SubAgrees(s, id);
    hide MapsSound, GroupAgrees, Reached, EoseOne, Sound, SameShape, Waiting, Eoses;
    if id in s.subs.values && s.all[s.subs.values[id]].role != Wire {
      EoseOneSound(s, s.subs.values[id], open);
    } else {
      HandleEoseShape(s, id, open);
      ShapeSound(s, HandleEose(s, id, open));
    }
  }

  lemma NotedShape(s: Registry, s': Registry, noted: seq<Ref>, e: Event, now: int)
    requires s' == s.(all := NotedBy(s.all, noted, e, now), calls := s'.calls)
    ensures SameShape(s, s')
  {
  }

  lemma HandleEventSound(s: Registry, id: string, e: Event, now: int, have: set<Ref>, accepted: bool)
    requires Sound(s)
    ensures Sound(HandleEvent(s, id, e, now, have, accepted))
    ensures SameShape(s, HandleEvent(s, id, e, now, have, accepted))
  {
    hide Sound, MatchesAny, Recipients, NotedBy, Receipts, Deliveries;
    var s' := HandleEvent(s, id, e, now, have, accepted);
    if id in s.subs.values {
      var r := s.subs.values[id];
      ListedRole(s, id);
      var refs := if s.all[r].role == Wire then s.groups[r].attachments else [r];
      var to := Recipients(s.all, refs, have);
      if s'.all != s.all {
        NotedShape(s, s', if s.all[r].role == Wire then [r] + to else to, e, now);
      }
    }
    ShapeSound(s, s');
  }

  lemma EndGroupSound(s: Registry, g: Ref, close: bool, reason: string)
    requires CanRetire(s, g)
    ensures Sound(EndGroup(s, g, close, reason))
    ensures Retired(s, g, EndGroup(s, g, close, reason))
  {
    var s' := EndGroup(s, g, close, reason);
    hide Retire, Retired, Sound;
    RetireFacts(s, g);
    RetiredToo(s, g, Retire(s, g), s'.sent, s'.calls);
    RetiredSound(s, g, s');
  }

  /** A group is kept under an id exactly when the id leads to it, and it is a registered one. */
  lemma LiveRetires(s: Registry, id: string)
    requires Sound(s)
    ensures LiveAt(s, id).Some? <==> id in s.liveBySubId
    ensures LiveAt(s, id).Some? ==> CanRetire(s, LiveAt(s, id).value) && s.all[LiveAt(s, id).value].id == id
  {
    hide GroupAgrees, Reached;
    assert id in s.liveBySubId ==> WireAgrees(s, id);
  }

  /** No other open one-shot REQ is listed under the id of `r`. */
  ghost predicate CanDrop(s: Registry, r: Ref)
    requires r < |s.all|
  {
    Held(s, s.all[r].id) && s.all[r].id !in s.liveBySubId ==> s.subs.values[s.all[r].id] == r
  }

  /** A drop that ends no group: all it changes is what `Unlisted` says. */
  lemma DropUnlists(s: Registry, r: Ref, reason: string)
    requires Sound(s) && r < |s.all| && !s.all[r].role.Handle? && s.all[r].id !in s.liveBySubId
    ensures Unlisted(s, r, Drop(s, r, reason))
  {
    LiveRetires(s, s.all[r].id);
    hide Sound, Delete;
    assert Drop(s, r, reason).all == s.all[r := s.all[r].(closed := true)];
  }

  lemma DropSound(s: Registry, r: Ref, reason: string)
    requires Sound(s) && r < |s.all| && !s.all[r].role.Handle? && CanDrop(s, r)
    ensures Sound(Drop(s, r, reason))
  {
    hide Sound, EndGroup, CanRetire, Delete, Held, Unlisted;
    LiveRetires(s, s.all[r].id);
    if s.all[r].id in s.liveBySubId {
      EndGroupSound(s, LiveAt(s, s.all[r].id).value, false, reason);
    } else {
      DropUnlists(s, r, reason);
      UnlistedSound(s, r, Drop(s, r, reason));
    }
  }

  /** A one-shot REQ that is taken off the list while it is open is out of reach. */
  lemma TakenOff(s: Registry, id: string, s': Registry)
    requires Sound(s) && Held(s, id) && id !in s.liveBySubId
    requires |s.all| <= |s'.all| && s'.all[s.subs.values[id]] == s.all[s.subs.values[id]]
    requires id !in s'.subs.values || s'.subs.values[id] != s.subs.values[id]
    ensures !Sound(s')
  {
    assert SubAgrees(s, id);
    hide MapsSound, GroupAgrees;
    assert !Reached(s', s.subs.values[id]);
  }

  /** Dropping a REQ keeps the registry in order unless another open one-shot REQ has taken its id over. */
  lemma DropExactly(s: Registry, r: Ref, reason: string)
    requires Sound(s) && r < |s.all| && !s.all[r].role.Handle?
    ensures Sound(Drop(s, r, reason)) <==> CanDrop(s, r)
  {
    hide Sound, Drop;
    if CanDrop(s, r) {
      DropSound(s, r, reason);
    } else {
      DropUnlists(s, r, reason);
      TakenOff(s, s.all[r].id, Drop(s, r, reason));
    }
  }

  /** An open REQ is what its own id leads to. */
  lemma OpenCanDrop(s: Registry, r: Ref)
    requires Sound(s) && r < |s.all| && !s.all[r].role.Handle? && !s.all[r].closed
    ensures CanDrop(s, r)
  {
    hide MapsSound, GroupAgrees;
    assert Reached(s, r);
  }

  lemma ReplaySound(s: Registry, r: Ref)
    requires Sound(s) && r < |s.all|
    ensures Sound(Replay(s, r)) && SameShape(s, Replay(s, r))
  {
    hide MapsSound, GroupAgrees, Reached, With, ReplayFilters, Sound;
    ShapeSound(s, Replay(s, r));
  }

  lemma RearmedSound(s: Registry, r: Ref)
    requires Sound(s) && r < |s.all|
    ensures Sound(Rearmed(s, r)) && SameShape(s, Rearmed(s, r))
  {
    hide MapsSound, GroupAgrees, Reached, With, Sound;
    ShapeSound(s, Rearmed(s, r));
  }

  lemma AuthRetrySound(s: Registry, r: Ref, reason: string, authed: bool, open: bool, sends: bool)
    requires Sound(s) && r < |s.all| && !s.all[r].role.Handle? && CanDrop(s, r)
    ensures Sound(AuthRetry(s, r, reason, authed, open, sends))
  {
    hide Replay, Rearmed, Drop, Sound;
    if !authed || s.all[r].closed || !open {
      DropSound(s, r, reason);
    } else if sends {
      ReplaySound(s, r);
    } else {
      RearmedSound(s, r);
      DropSound(Rearmed(s, r), r, reason);
    }
  }

  /**
   * authRetry after its REQ was closed drops what is kept under the id then: it keeps the registry in order unless
   * another open one-shot REQ has taken the id over.
   */
  lemma AuthRetryExactly(s: Registry, r: Ref, reason: string, authed: bool, open: bool, sends: bool)
    requires Sound(s) && r < |s.all| && !s.all[r].role.Handle?
    ensures Sound(AuthRetry(s, r, reason, authed, open, sends)) <==> CanDrop(s, r)
  {
    hide Sound, Drop, Replay, Rearmed, CanDrop;
    if s.all[r].closed {
      DropExactly(s, r, reason);
    } else {
      OpenCanDrop(s, r);
      AuthRetrySound(s, r, reason, authed, open, sends);
    }
  }

  lemma BeginRetryShape(s: Registry, r: Ref)
    requires r < |s.all|
    ensures SameShape(s, BeginRetry(s, r))
  {
  }

  lemma BeginRetrySound(s: Registry, r: Ref)
    requires Sound(s) && r < |s.all|
    ensures Sound(BeginRetry(s, r))
  {
    hide Sound, SameShape, BeginRetry;
    BeginRetryShape(s, r);
    ShapeSound(s, BeginRetry(s, r));
  }

  lemma ReplayAllSound(s: Registry, room: nat)
    requires Sound(s)
    ensures Sound(ReplayAll(s, room)) && SameShape(s, ReplayAll(s, room))
  {
    hide MapsSound, GroupAgrees, Reached, Withs, Queue, Reqs, Sound;
    ShapeSound(s, ReplayAll(s, room));
  }

  /** After closeAll nothing is registered, attached or open. */
  lemma CloseAllSound(s: Registry, reason: string)
    requires Sound(s)
    ensures Sound(CloseAll(s, reason)) && |CloseAll(s, reason).all| == |s.all|
    ensures forall r: Ref :: r < |s.all| ==> CloseAll(s, reason).all[r].closed
  {
    hide Farewells, Exclusives;
    var s' := CloseAll(s, reason);
    assert MapsSound(s');
    hide MapsSound;
    forall g | g in s'.groups
      ensures GroupAgrees(s', g)
    {
      assert GroupAgrees(s, g);
    }
    hide GroupAgrees;
  }

  lemma OpenExclusiveSound(s: Registry, filters: seq<Filter>, id: string, aborted: bool, open: bool, reconnect: bool)
    requires Sound(s) && !Held(s, id)
    ensures Sound(OpenExclusive(s, filters, id, aborted, open, reconnect))
  {
    hide MapsSound, GroupAgrees, Reached, Sound, Enter, Delete;
    ListedSound(s, id, filters, aborted, OpenExclusive(s, filters, id, aborted, open, reconnect));
  }

  lemma JoinableRegistered(s: Registry, fp: string)
    requires Sound(s) && Joinable(s, fp).Some?
    ensures var g := Joinable(s, fp).value;
      && g < |s.all| && g in s.groups && Registered(s, g) && s.groups[g].fp == fp
      && s.all[g].role == Wire && !s.all[g].closed
  {
    hide GroupAgrees, Reached;
    assert PrintAgrees(s, fp);
    assert WireAgrees(s, s.all[s.liveByFp[fp]].id);
  }

  /** A repeated id unhooks the REQ that holds it. */
  lemma HeldBreaks(s: Registry, id: string, s': Registry)
    requires Sound(s) && Held(s, id)
    requires |s.all| <= |s'.all| && s'.all[s.subs.values[id]] == s.all[s.subs.values[id]]
    requires id !in s'.subs.values || s'.subs.values[id] == |s.all|
    requires id in s.liveBySubId ==>
      s'.liveBySubId == s.liveBySubId || id !in s'.liveBySubId || s'.liveBySubId[id] == |s.all|
    ensures !Sound(s')
  {
    if id in s.liveBySubId {
      assert WireAgrees(s, id);
      hide GroupAgrees;
      assert Sound(s') ==> Reached(s', s.subs.values[id]);
      assert Sound(s') && id in s'.liveBySubId ==> WireAgrees(s', id);
    } else {
      TakenOff(s, id, s');
    }
  }

  /** Opening a one-shot REQ keeps the registry in order exactly when no open REQ is listed under the id. */
  lemma OpenExclusiveExactly(s: Registry, filters: seq<Filter>, id: string, aborted: bool, open: bool,
                             reconnect: bool)
    requires Sound(s)
    ensures Sound(OpenExclusive(s, filters, id, aborted, open, reconnect)) <==> !Held(s, id)
  {
    hide Sound;
    if Held(s, id) {
      HeldBreaks(s, id, OpenExclusive(s, filters, id, aborted, open, reconnect));
    } else {
      OpenExclusiveSound(s, filters, id, aborted, open, reconnect);
    }
  }

  lemma StartSound(s: Registry, fp: string, filters: seq<Filter>, id: string, aborted: bool, open: bool,
                   reconnect: bool)
    requires Sound(s) && !Held(s, id)
    ensures Sound(Start(s, fp, filters, id, aborted, open, reconnect))
  {
    hide Sound, Held, Enter, Delete;
    var s' := Start(s, fp, filters, id, aborted, open, reconnect);
    if aborted {
      FreeKeys(s, id);
      assert s'.liveBySubId == s.liveBySubId;
      AbandonedSound(s, fp, filters, id, s');
    } else {
      StartedSound(s, fp, filters, id, s');
    }
  }

  /** So does opening a live one with a wire of its own. */
  lemma StartExactly(s: Registry, fp: string, filters: seq<Filter>, id: string, aborted: bool, open: bool,
                     reconnect: bool)
    requires Sound(s)
    ensures Sound(Start(s, fp, filters, id, aborted, open, reconnect)) <==> !Held(s, id)
  {
    hide Sound;
    if Held(s, id) {
      HeldBreaks(s, id, Start(s, fp, filters, id, aborted, open, reconnect));
    } else {
      StartSound(s, fp, filters, id, aborted, open, reconnect);
    }
  }

  /** A live REQ that joins a wire takes no id, so any will do. */
  lemma OpenLiveExactly(s: Registry, fp: string, filters: seq<Filter>, id: string, aborted: bool, open: bool,
                        reconnect: bool)
    requires Sound(s)
    ensures Sound(OpenLive(s, fp, filters, id, aborted, open, reconnect)) <==> Joinable(s, fp).Some? || !Held(s, id)
  {
    hide Sound, Held, Start, Join, Joinable;
    if Joinable(s, fp).Some? {
      var g := Joinable(s, fp).value;
      JoinableRegistered(s, fp);
      JoinMeets(s, g, filters, aborted);
      JoinedSound(s, g, filters, aborted, Join(s, g, filters, aborted));
    } else {
      StartExactly(s, fp, filters, id, aborted, open, reconnect);
    }
  }

  lemma JoinMeets(s: Registry, g: Ref, filters: seq<Filter>, aborted: bool)
    requires g < |s.all| && g in s.groups
    ensures Joined(s, g, filters, aborted, Join(s, g, filters, aborted))
  {
  }
}
