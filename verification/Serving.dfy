/** Which descriptors a sweep has served, for the two sweeps of Chapter07. */
module Serving {

  ghost predicate NoRepeats(s: seq<int>) {
    forall i, j :: 0 <= i < j < |s| ==> s[i] != s[j]
  }

  ghost function Elements(s: seq<int>): set<int> {
    set k | 0 <= k < |s| :: s[k]
  }

  /** The served descriptors whose peer had closed. */
  ghost function HungUp(served: seq<int>, recv: int -> int): set<int> {
    set k | 0 <= k < |served| && recv(served[k]) == 0 :: served[k]
  }

  lemma ServeOne(served: seq<int>, fd: int, recv: int -> int)
    requires NoRepeats(served) && fd !in Elements(served)
    ensures NoRepeats(served + [fd])
    ensures Elements(served + [fd]) == Elements(served) + {fd}
    ensures HungUp(served + [fd], recv) == HungUp(served, recv) + if recv(fd) == 0 then {fd} else {}
    ensures fd !in HungUp(served, recv)
  {
    var more := served + [fd];
    assert more[|served|] == fd;
    assert forall k :: 0 <= k < |served| ==> more[k] == served[k];
  }
}
