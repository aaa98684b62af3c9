/** Deletion from an unordered table by moving the last entry into the gap, as the session table
    and the descriptor tables of Chapter07 and Chapter11 do. */
module SwapDelete {

  function Remove<T>(s: seq<T>, i: nat): seq<T>
    requires i < |s|
  {
    s[i := s[|s| - 1]][..|s| - 1]
  }

  /** What stands at each index afterwards. */
  lemma RemoveIndex<T>(s: seq<T>, i: nat)
    requires i < |s|
    ensures |Remove(s, i)| == |s| - 1
    ensures forall k :: 0 <= k < |s| - 1 ==> Remove(s, i)[k] == s[if k == i then |s| - 1 else k]
  {}

  /** The entry is gone, every other one is kept. */
  lemma RemoveKeepsOthers<T>(s: seq<T>, i: nat)
    requires i < |s|
    ensures multiset(s) == multiset(Remove(s, i)) + multiset{s[i]}
  {
    var last := s[|s| - 1];
    assert s == s[..|s| - 1] + [last];
    if i < |s| - 1 {
      assert multiset(s[..|s| - 1][i := last]) == multiset(s[..|s| - 1]) - multiset{s[i]} + multiset{last};
      assert Remove(s, i) == s[..|s| - 1][i := last];
    } else {
      assert Remove(s, i) == s[..|s| - 1];
    }
  }
}
