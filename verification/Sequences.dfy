/** Small facts about sequences and sets, kept apart so that larger proofs need not search for them. */
module Sequences {

  lemma LastSplit<T>(s: seq<T>)
    requires s != []
    ensures s == s[..|s| - 1] + [s[|s| - 1]]
  {
  }

  lemma Associates<T>(a: seq<T>, b: seq<T>, c: seq<T>)
    ensures (a + b) + c == a + (b + c)
  {
  }

  lemma AssociatesAll<T>(a: seq<T>, b: seq<T>, c: seq<T>, d: seq<T>, e: seq<T>)
    ensures a + b + c + d + e == a + (b + (c + d + e))
    ensures e == [] ==> a + b + c + d == a + (b + (c + d))
  {
  }

  lemma SubsetCount<T>(some: set<T>, more: set<T>)
    requires some <= more
    ensures |some| <= |more|
  {
    assert more == some + (more - some);
  }
}
