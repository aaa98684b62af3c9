/** The copy loop in `main` of Chapter10/aio_listio.c (LIO_WAIT), on its slot buffers and control
    blocks. The lengths that read returns and the order in which the writes of a list complete are
    left open; ListioMachine covers LIO_NOWAIT and every interleaving. */
module ListioCopy {
  import opened FileWrites
  import opened ListioMachine

  /** `read`: some positive number of bytes, at most the slot size and the rest of the file, and
      0 exactly at its end. */
  method ReadSome(input: seq<int>, pos: nat, slotSize: nat) returns (data: seq<int>)
    requires pos <= |input| && 0 < slotSize
    ensures |data| <= slotSize && pos + |data| <= |input| && data == input[pos..pos + |data|]
    ensures data == [] <==> pos == |input|
  {
    var n: nat := 0;
    if pos < |input| {
      n :| 0 < n <= slotSize && pos + n <= |input|
         by {
        assert 0 < 1 <= slotSize && pos + 1 <= |input|;
      }
    }
    data := input[pos..pos + n];
  }

  /** `lio_listio` with LIO_WAIT on the first `n` control blocks: the writes complete one by one,
      in any order. */
  method ListIo(former: File, rbuf: array<seq<int>>, blk: array<Block>, n: nat) returns (file: File)
    requires Disjoint(Writes(rbuf[..], blk[..], FirstNats(n)))
    ensures file == WriteAll(former, Writes(rbuf[..], blk[..], FirstNats(n)))
  {
    file := former;
    var todo := Writes(rbuf[..], blk[..], FirstNats(n));
    while todo != []
      invariant Disjoint(todo)
      invariant WriteAll(file, todo) == WriteAll(former, Writes(rbuf[..], blk[..], FirstNats(n)))
      decreases |todo|
    {
      var p: nat :| p < |todo|
         by {
        assert 0 < |todo|;
      }
      AnyFirst(file, todo, p);
      WithoutDisjoint(todo, p);
      file, todo := WriteAt(file, todo[p]), Without(todo, p);
    }
  }

  /** Copies `input` over a file that holds `former`. `nonEmpty` is the number of reads that delivered
      bytes, `lists` the number of lists submitted: one for every `slots` reads, the last of which
      finds the end of the input. */
  method Copy(input: seq<int>, former: File, slots: nat, slotSize: nat)
    returns (file: File, totLen: nat, nonEmpty: nat, lists: nat)
    requires 0 < slots && 0 < slotSize
    ensures totLen == |input|
    ensures file == Copied(former, input)
    ensures 0 < lists && (lists - 1) * slots <= nonEmpty < lists * slots
  {
    hide Copied, WriteAll, WriteAt, Filled, Writes, Disjoint, FirstNats;
    var rbuf := new seq<int>[slots](_ => []);
    var blk := new Block[slots](_ => Cleared);
    var i: nat := 0;
    file, totLen, nonEmpty, lists := former, 0, 0, 0;
    NothingYet(former, input, rbuf[..], blk[..]);
    while true
      invariant i < slots && rbuf.Length == blk.Length == slots && totLen <= |input|
      invariant Filled(input, rbuf[..], blk[..], i, totLen)
      invariant Base(blk[..], i, totLen) <= totLen
      invariant file == Copied(former, input[..Base(blk[..], i, totLen)])
      invariant nonEmpty == lists * slots + i
      decreases |input| - totLen
    {
      FilledBounded(input, rbuf[..], blk[..], i, totLen);
      var data := ReadSome(input, totLen, slotSize);
      var ret := |data|;
      FilledGrows(input, rbuf[..], blk[..], i, totLen, ret);
      ghost var rbuf', blk' := rbuf[..][i := data], blk[..][i := Block(totLen, ret, i)];
      rbuf[i] := data;
      blk[i] := Block(totLen, ret, i);
      assert rbuf[..] == rbuf' && blk[..] == blk';
      totLen := totLen + ret;
      i := i + 1;
      nonEmpty := if ret == 0 then nonEmpty else nonEmpty + 1;
      if i == slots || ret == 0 {
        var n := if ret == 0 then i - 1 else i;
        AllIncreasing(n);
        BatchDisjoint(input, rbuf[..], blk[..], n, totLen, FirstNats(n));
        BatchExtends(former, input, rbuf[..], blk[..], n, totLen);
        file := ListIo(file, rbuf, blk, n);
        forall k | 0 <= k < blk.Length {
          blk[k] := Cleared;
        }
        OneMore(lists, slots);
        i, lists := 0, lists + 1;
        NothingFilled(input, rbuf[..], blk[..], totLen);
      }
      if ret == 0 {
        assert input[..totLen] == input;
        break;
      }
    }
  }

  lemma OneMore(q: nat, d: nat)
    ensures (q + 1) * d == q * d + d
  {}

  lemma NothingFilled(input: seq<int>, rbuf: seq<seq<int>>, blk: seq<Block>, pos: nat)
    requires |rbuf| == |blk| && pos <= |input|
    ensures Filled(input, rbuf, blk, 0, pos)
  {}

  /** Before the first read nothing is filled and nothing copied. */
  lemma NothingYet(former: File, input: seq<int>, rbuf: seq<seq<int>>, blk: seq<Block>)
    requires |rbuf| == |blk|
    ensures Filled(input, rbuf, blk, 0, 0) && former == Copied(former, input[..0])
  {
    assert input[..0] == [];
  }

  lemma FilledBounded(input: seq<int>, rbuf: seq<seq<int>>, blk: seq<Block>, n: nat, end: nat)
    requires Filled(input, rbuf, blk, n, end)
    ensures Base(blk, n, end) <= end <= |input|
  {
    if 0 < n {
      BlockAt(input, rbuf, blk, n, end, 0);
    }
  }
}
