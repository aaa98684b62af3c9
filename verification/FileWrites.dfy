/** Writes at an offset into a file, and batches of them that complete in any order. */
module FileWrites {

  type File = seq<int>

  datatype Write = Write(off: nat, data: seq<int>)

  /** A write at an offset: it may lengthen the file, and a gap before it reads as zeros. */
  function WriteAt(f: File, w: Write): File {
    if w.data == [] then f
    else
      var end := w.off + |w.data|;
      seq(if |f| >= end then |f| else end,
          k requires 0 <= k => if w.off <= k < end then w.data[k - w.off] else if k < |f| then f[k] else 0)
  }

  /** A write behind the end of the file leaves zeros between. */
  lemma GapIsZero(f: File, w: Write, k: nat)
    requires w.data != [] && |f| <= k < w.off
    ensures |WriteAt(f, w)| == w.off + |w.data| && WriteAt(f, w)[k] == 0
  {}

  /** The writes one after the other. */
  function WriteAll(f: File, ws: seq<Write>): File
    decreases |ws|
  {
    if ws == [] then f else WriteAll(WriteAt(f, ws[0]), ws[1..])
  }

  predicate Apart(v: Write, w: Write) {
    v.off + |v.data| <= w.off || w.off + |w.data| <= v.off
  }

  /** The intervals written are pairwise disjoint. */
  ghost predicate Disjoint(ws: seq<Write>) {
    forall i, j :: 0 <= i < j < |ws| ==> Apart(ws[i], ws[j])
  }

  function Without<T>(s: seq<T>, p: nat): seq<T>
    requires p < |s|
  {
    s[..p] + s[p + 1..]
  }

  lemma ApartCommute(f: File, v: Write, w: Write)
    requires Apart(v, w)
    ensures WriteAt(WriteAt(f, v), w) == WriteAt(WriteAt(f, w), v)
  {}

  lemma WithoutDisjoint(ws: seq<Write>, p: nat)
    requires Disjoint(ws) && p < |ws|
    ensures Disjoint(Without(ws, p))
  {
    forall i, j | 0 <= i < j < |Without(ws, p)|
      ensures Apart(Without(ws, p)[i], Without(ws, p)[j])
    {
      assert Apart(ws[if i < p then i else i + 1], ws[if j < p then j else j + 1]);
    }
  }

  /** Whichever of several disjoint writes completes first, the remaining ones lead to the same
      file. */
  lemma {:induction false} AnyFirst(f: File, ws: seq<Write>, p: nat)
    requires Disjoint(ws) && p < |ws|
    ensures WriteAll(WriteAt(f, ws[p]), Without(ws, p)) == WriteAll(f, ws)
    decreases p
  {
    hide WriteAt, WriteAll, Disjoint, Without;
    WithoutCons(ws, p);
    if p == 0 {
      FirstThen(f, ws[0], ws[1..]);
    } else {
      TakeApart(ws, p);
      ApartCommute(f, ws[0], ws[p]);
      AnyFirst(WriteAt(f, ws[0]), ws[1..], p - 1);
      SwapFirst(f, ws[0], ws[p], ws[1..], Without(ws[1..], p - 1));
    }
  }

  lemma TakeApart(ws: seq<Write>, p: nat)
    requires Disjoint(ws) && 0 < p < |ws|
    ensures Apart(ws[0], ws[p]) && Disjoint(ws[1..])
  {
    WithoutDisjoint(ws, 0);
    assert Without(ws, 0) == ws[1..];
  }

  lemma SwapFirst(f: File, v: Write, w: Write, all: seq<Write>, others: seq<Write>)
    requires WriteAt(WriteAt(f, v), w) == WriteAt(WriteAt(f, w), v)
    requires WriteAll(WriteAt(WriteAt(f, v), w), others) == WriteAll(WriteAt(f, v), all)
    ensures WriteAll(WriteAt(f, w), [v] + others) == WriteAll(f, [v] + all)
  {
    hide *;
    FirstThen(WriteAt(f, w), v, others);
    FirstThen(f, v, all);
  }

  lemma WithoutCons<T>(ws: seq<T>, p: nat)
    requires p < |ws|
    ensures ws == [ws[0]] + ws[1..]
    ensures Without(ws, p) == if p == 0 then ws[1..] else [ws[0]] + Without(ws[1..], p - 1)
  {}

  lemma FirstThen(f: File, w: Write, rest: seq<Write>)
    ensures WriteAll(f, [w] + rest) == WriteAll(WriteAt(f, w), rest)
  {
    assert ([w] + rest)[1..] == rest;
  }

  lemma WithoutLoses(ws: seq<Write>, p: nat)
    requires p < |ws|
    ensures multiset(Without(ws, p)) == multiset(ws) - multiset{ws[p]}
  {
    var front, back := ws[..p], ws[p + 1..];
    assert ws == front + [ws[p]] + back;
    assert multiset(ws) == multiset(front) + multiset{ws[p]} + multiset(back);
    assert multiset(front + back) == multiset(front) + multiset(back);
  }

  lemma WithoutMultiset(ws: seq<Write>, p: nat, order: seq<Write>)
    requires p < |ws| && order != [] && ws[p] == order[0] && multiset(order) == multiset(ws)
    ensures multiset(order[1..]) == multiset(Without(ws, p))
  {
    assert Without(order, 0) == order[1..];
    WithoutLoses(ws, p);
    WithoutLoses(order, 0);
  }

  /** Every order of completion gives the same file. */
  lemma {:induction false} AnyOrder(f: File, ws: seq<Write>, order: seq<Write>)
    requires Disjoint(ws) && multiset(order) == multiset(ws)
    ensures WriteAll(f, order) == WriteAll(f, ws)
    decreases |order|
  {
    hide WriteAt, Disjoint, Without;
    if order == [] {
      assert |ws| == |multiset(ws)|;
    } else {
      assert order[0] in multiset(order);
      var p: nat :| p < |ws| && ws[p] == order[0];
      AnyFirst(f, ws, p);
      WithoutDisjoint(ws, p);
      WithoutMultiset(ws, p, order);
      AnyOrder(WriteAt(f, ws[p]), Without(ws, p), order[1..]);
    }
  }

  /** Two adjacent writes are one. */
  lemma Adjacent(f: File, off: nat, a: seq<int>, b: seq<int>)
    ensures WriteAt(WriteAt(f, Write(off, a)), Write(off + |a|, b)) == WriteAt(f, Write(off, a + b))
  {
    var g, h := WriteAt(WriteAt(f, Write(off, a)), Write(off + |a|, b)), WriteAt(f, Write(off, a + b));
    if a == [] {
      assert a + b == b;
    } else if b == [] {
      assert a + b == a;
    } else {
      assert |g| == |h|;
    }
  }

  /** The file holding `input` in front of whatever an older, longer file has beyond it. */
  function Copied(former: File, input: File): (f: File)
    ensures |f| == if |former| >= |input| then |former| else |input|
    ensures f[..|input|] == input
    ensures forall k :: |input| <= k < |f| ==> f[k] == former[k]
  {
    var f := WriteAt(former, Write(0, input));
    assert input != [] ==> f[..|input|] == input;
    f
  }
}
