/** The bounded ring of Chapter08/cond_var.c and Chapter10/cond_var_rts.c as a value: the
    array, the index of the oldest element and the number of elements.

    Both the index and the write position wrap lazily: they may rest at the capacity, one past
    the last slot, until the next access moves them to slot 0. */
module Rings {

  datatype Ring = Ring(item: seq<int>, idx: nat, cnt: nat) {

    ghost predicate Valid() {
      0 < |item| && idx <= |item| && cnt <= |item|
    }

    /** The slot of the `k`-th oldest element. */
    ghost function Slot(k: nat): nat
      requires Valid() && k < |item|
    {
      if idx + k < |item| then idx + k else idx + k - |item|
    }

    /** The queued values, oldest first. */
    ghost function Contents(): (q: seq<int>)
      requires Valid()
      ensures |q| == cnt
    {
      seq(cnt, k requires 0 <= k < cnt => item[Slot(k)])
    }

    /** Where a push starts writing. */
    function FirstFree(): nat
      requires 0 < |item|
    {
      (idx + cnt) % |item|
    }

    /** `j` is the lazily wrapped position of the first free slot. */
    ghost predicate Cursor(j: nat)
      requires Valid()
    {
      && j <= |item|
      && (cnt < |item| ==> (if j == |item| then 0 else j) == Slot(cnt))
    }

    /** One iteration of the push loop: wrap the cursor, store, count. */
    function Put(j: nat, v: int): (Ring, nat)
      requires 0 < |item| && j <= |item|
    {
      var w := if j == |item| then 0 else j;
      (Ring(item[w := v], idx, cnt + 1), w + 1)
    }

    /** The taking branch of a pop: wrap the index, load, advance, count. */
    function Take(): (Ring, int)
      requires 0 < |item| && idx <= |item| && 0 < cnt
    {
      var i := if idx == |item| then 0 else idx;
      (Ring(item, i + 1, cnt - 1), item[i])
    }
  }

  lemma FirstFreeIsCursor(r: Ring)
    requires r.Valid()
    ensures r.Cursor(r.FirstFree())
  {
    var n := r.idx + r.cnt;
    if n < |r.item| {
      assert n % |r.item| == n;
    } else if n < 2 * |r.item| {
      assert n == |r.item| + (n - |r.item|);
      assert n % |r.item| == n - |r.item|;
    }
  }

  /** A put on a ring that is not full appends the value and leaves a correct cursor, wherever
      the index and the cursor rest. */
  lemma PutAppends(r: Ring, j: nat, v: int)
    requires r.Valid() && r.Cursor(j) && r.cnt < |r.item|
    ensures r.Put(j, v).0.Valid() && r.Put(j, v).0.Cursor(r.Put(j, v).1)
    ensures r.Put(j, v).0.Contents() == r.Contents() + [v]
  {
    var r' := r.Put(j, v).0;
    assert forall k: nat :: k < |r.item| ==> r'.Slot(k) == r.Slot(k);
    assert forall k: nat :: k < r.cnt ==> r.Slot(k) != r.Slot(r.cnt);
  }

  /** A take removes the oldest value. */
  lemma TakeRemovesOldest(r: Ring)
    requires r.Valid() && 0 < r.cnt
    ensures r.Take().0.Valid()
    ensures [r.Take().1] + r.Take().0.Contents() == r.Contents()
  {
    var r' := r.Take().0;
    assert r.Slot(0) == if r.idx == |r.item| then 0 else r.idx;
    assert forall k: nat :: k < r'.cnt ==> r'.Slot(k) == r.Slot(k + 1);
  }
}
