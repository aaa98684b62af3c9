/** Whole runs of the batched copy of Chapter10/aio_listio.c, in both build modes.

    The main thread reads into one slot after the other and submits the filled slots as one list of
    writes. A submitted write takes its data from the slot's buffer when it completes, and the
    writes complete in any order. With LIO_WAIT the main thread goes on once all have completed; with
    LIO_NOWAIT a notification thread is started then, and both meet at a barrier. A read returns
    any positive number of bytes up to the slot size and the rest of the file, and 0 exactly at its
    end. `lio_listio` may refuse a list for lack of resources, and the program does not look at its
    result: nothing of the list is written then, and no notification comes. */
module ListioMachine {
  import opened Behaviors
  import opened FileWrites

  /** A control block: file offset, number of bytes, and the slot its buffer pointer refers to. */
  datatype Block = Cleared | Block(off: nat, len: nat, slot: nat)

  datatype Point =
    | Reading      // at the top of the loop
    | Submitting   // before lio_listio
    | Collecting   // in lio_listio with LIO_WAIT, or at the barrier
    | Clearing     // before the memset of the control blocks
    | Finished

  /** `pos` is the read position, which is also `tot_len`; `ret` is the last result of read;
      `pending` are the submitted control blocks whose writes have not completed. `notified` and
      `arrived` describe the notification thread: started, and waiting at the barrier. `lost` says that
      the present list was refused, and `refused` records whether any was. */
  datatype State = State(
    input: seq<int>, former: File, slotSize: nat, nowait: bool,
    file: File, pos: nat, i: nat, ret: nat, rbuf: seq<seq<int>>, blk: seq<Block>,
    point: Point, pending: seq<nat>, notified: bool, arrived: bool, lost: bool, refused: bool)

  /** The control blocks from `k` on are as memset leaves them. */
  predicate ZeroedFrom(blk: seq<Block>, k: nat) {
    forall l :: k <= l < |blk| ==> blk[l] == Cleared
  }

  ghost predicate Init(s: State) {
    && 0 < s.slotSize && 0 < |s.rbuf| == |s.blk|
    && s.file == s.former && s.pos == 0 && s.i == 0 && ZeroedFrom(s.blk, 0)
    && s.point == Reading && s.pending == [] && !s.notified && !s.arrived && !s.lost && !s.refused
  }

  datatype Action =
    | Read(n: nat)     // the main thread reads n bytes and fills in the control block
    | Submit           // lio_listio queues the list
    | Refuse           // lio_listio refuses it
    | Collect          // the main thread goes on after the list
    | Clear            // the memset
    | Complete(p: nat) // one pending write completes
    | Notify           // the list is complete: the notification thread starts
    | Arrive           // the notification thread reaches the barrier

  /** Number of list entries passed to lio_listio. */
  function Entries(s: State): int {
    if s.ret == 0 then s.i - 1 else s.i
  }

  predicate Enabled(s: State, a: Action) {
    match a
    case Read(n) =>
      && s.point == Reading && s.i < |s.rbuf| && s.i < |s.blk| && s.pos <= |s.input|
      && (if s.pos == |s.input| then n == 0 else 0 < n <= s.slotSize && s.pos + n <= |s.input|)
    case Submit => s.point == Submitting && 0 <= Entries(s)
    case Refuse => s.point == Submitting
    case Collect => s.point == Collecting && if s.nowait then s.arrived else s.pending == []
    case Clear => s.point == Clearing
    case Complete(p) =>
      && p < |s.pending| && s.pending[p] < |s.blk|
      && var b := s.blk[s.pending[p]]; b.Block? && b.slot < |s.rbuf| && b.len <= |s.rbuf[b.slot]|
    case Notify => s.point == Collecting && s.nowait && s.pending == [] && !s.notified && !s.lost
    case Arrive => s.notified && !s.arrived
  }

  /** The write a control block asks for, with the data its buffer holds now. */
  function Requested(rbuf: seq<seq<int>>, blk: seq<Block>, k: nat): Write {
    if k < |blk| && blk[k].Block? && blk[k].slot < |rbuf| && blk[k].len <= |rbuf[blk[k].slot]|
    then Write(blk[k].off, rbuf[blk[k].slot][..blk[k].len])
    else Write(0, [])
  }

  function FirstNats(n: nat): seq<nat> {
    seq(n, k => k)
  }

  function Do(s: State, a: Action): State
    requires Enabled(s, a)
  {
    match a
    case Read(n) =>
      var t := s.(rbuf := s.rbuf[s.i := s.input[s.pos..s.pos + n]], ret := n,
                  blk := s.blk[s.i := Block(s.pos, n, s.i)], pos := s.pos + n, i := s.i + 1);
      if t.i == |s.rbuf| || n == 0 then t.(point := Submitting) else t
    case Submit => s.(point := Collecting, pending := FirstNats(Entries(s)))
    case Refuse => s.(point := Collecting, lost := true, refused := true)
    case Collect => s.(point := Clearing, notified := false, arrived := false, lost := false)
    case Clear =>
      s.(blk := seq(|s.blk|, k => Cleared), i := 0, point := if s.ret == 0 then Finished else Reading)
    case Complete(p) =>
      s.(file := WriteAt(s.file, Requested(s.rbuf, s.blk, s.pending[p])), pending := Without(s.pending, p))
    case Notify => s.(notified := true)
    case Arrive => s.(arrived := true)
  }

  ghost predicate Next(s: State, t: State) {
    exists a :: Enabled(s, a) && t == Do(s, a)
  }

  // ---------------------------------------------------------------- invariant

  /** The first `n` control blocks cover adjacent, non-empty pieces of the input up to `end`, and
      their buffers hold those pieces. */
  ghost predicate Filled(input: seq<int>, rbuf: seq<seq<int>>, blk: seq<Block>, n: nat, end: nat) {
    && n <= |blk| == |rbuf| && end <= |input|
    && (0 < n ==>
          var b := blk[n - 1];
          && b.Block? && b.slot == n - 1 && 0 < b.len == |rbuf[n - 1]| && b.off + b.len == end
          && rbuf[n - 1] == input[b.off..end]
          && Filled(input, rbuf, blk, n - 1, b.off))
  }

  /** Where a batch of `n` blocks that ends at `end` starts in the input. */
  function Base(blk: seq<Block>, n: nat, end: nat): nat {
    if 0 < n <= |blk| && blk[0].Block? then blk[0].off else end
  }

  function Writes(rbuf: seq<seq<int>>, blk: seq<Block>, ks: seq<nat>): seq<Write> {
    seq(|ks|, p requires 0 <= p < |ks| => Requested(rbuf, blk, ks[p]))
  }

  ghost predicate Increasing(ks: seq<nat>, n: int) {
    && (forall p :: 0 <= p < |ks| ==> ks[p] < n)
    && (forall p, q :: 0 <= p < q < |ks| ==> ks[p] < ks[q])
  }

  /** `n` blocks are filled, and unless a list was refused the file holds the copy of everything
      before them. */
  ghost predicate Gathered(s: State, n: int) {
    && 0 <= n && Filled(s.input, s.rbuf, s.blk, n, s.pos) && Base(s.blk, n, s.pos) <= s.pos <= |s.input|
    && (!s.refused ==> s.file == Copied(s.former, s.input[..Base(s.blk, n, s.pos)]))
  }

  /** The pending writes of `n` filled blocks complete the copy up to `pos`, unless a list was
      refused. */
  ghost predicate Pending(s: State, n: int) {
    && 0 <= n && Filled(s.input, s.rbuf, s.blk, n, s.pos) && Increasing(s.pending, n)
    && (!s.refused ==> WriteAll(s.file, Writes(s.rbuf, s.blk, s.pending)) == Copied(s.former, s.input[..s.pos]))
  }

  ghost predicate Inv(s: State) {
    && 0 < s.slotSize && 0 < |s.rbuf| == |s.blk| && s.pos <= |s.input| && s.i <= |s.rbuf|
    && (s.arrived ==> s.notified) && (s.notified ==> s.nowait && s.point == Collecting && s.pending == [])
    && (!s.point.Reading? && s.ret == 0 ==> s.pos == |s.input|)
    && (s.lost ==> s.refused && s.point == Collecting && s.pending == [] && !s.notified)
    && (s.refused && s.nowait ==> s.lost)
    && match s.point
       case Reading => s.pending == [] && s.i < |s.rbuf| && Gathered(s, s.i)
       case Submitting => s.pending == [] && Gathered(s, Entries(s))
       case Collecting => Pending(s, Entries(s))
       case _ =>
         && s.pending == [] && (s.point.Finished? ==> s.ret == 0)
         && (!s.refused ==> s.file == Copied(s.former, s.input[..s.pos]))
  }

  // ---------------------------------------------------------------- the submitted batch

  lemma {:induction false} BlockAt(input: seq<int>, rbuf: seq<seq<int>>, blk: seq<Block>, n: nat, end: nat, k: nat)
    requires Filled(input, rbuf, blk, n, end) && k < n
    ensures blk[k].Block? && blk[k].slot == k && 0 < blk[k].len == |rbuf[k]| && blk[k].off + blk[k].len <= end
    ensures Requested(rbuf, blk, k) == Write(blk[k].off, rbuf[k])
    decreases n
  {
    if k < n - 1 {
      BlockAt(input, rbuf, blk, n - 1, blk[n - 1].off, k);
    } else {
      assert rbuf[k][..blk[k].len] == rbuf[k];
    }
  }

  lemma {:induction false} BlocksInOrder(input: seq<int>, rbuf: seq<seq<int>>, blk: seq<Block>, n: nat, end: nat,
                                         k: nat, l: nat)
    requires Filled(input, rbuf, blk, n, end) && k < l < n
    ensures Apart(Requested(rbuf, blk, k), Requested(rbuf, blk, l))
    decreases n
  {
    if l < n - 1 {
      BlocksInOrder(input, rbuf, blk, n - 1, blk[n - 1].off, k, l);
    } else {
      BlockAt(input, rbuf, blk, n - 1, blk[n - 1].off, k);
      BlockAt(input, rbuf, blk, n, end, l);
    }
  }

  /** The writes of a batch go to disjoint intervals. */
  lemma BatchDisjoint(input: seq<int>, rbuf: seq<seq<int>>, blk: seq<Block>, n: nat, end: nat, ks: seq<nat>)
    requires Filled(input, rbuf, blk, n, end) && Increasing(ks, n)
    ensures Disjoint(Writes(rbuf, blk, ks))
  {
    var ws := Writes(rbuf, blk, ks);
    forall p, q | 0 <= p < q < |ws|
      ensures Apart(ws[p], ws[q])
    {
      BlocksInOrder(input, rbuf, blk, n, end, ks[p], ks[q]);
    }
  }

  lemma {:induction false} LastThen(f: File, ws: seq<Write>, w: Write)
    ensures WriteAll(f, ws + [w]) == WriteAt(WriteAll(f, ws), w)
    decreases |ws|
  {
    hide WriteAt;
    if ws == [] {
      assert [w][1..] == [];
    } else {
      assert (ws + [w])[1..] == ws[1..] + [w];
      LastThen(WriteAt(f, ws[0]), ws[1..], w);
    }
  }

  /** Writing a piece of the input behind what is copied already. */
  lemma CopyMore(former: File, input: seq<int>, a: nat, b: nat)
    requires a <= b <= |input|
    ensures WriteAt(Copied(former, input[..a]), Write(a, input[a..b])) == Copied(former, input[..b])
  {
    Adjacent(former, 0, input[..a], input[a..b]);
    assert input[..a] + input[a..b] == input[..b];
  }

  lemma WritesSnoc(rbuf: seq<seq<int>>, blk: seq<Block>, m: nat)
    requires 0 < m
    ensures Writes(rbuf, blk, FirstNats(m))
            == Writes(rbuf, blk, FirstNats(m - 1)) + [Requested(rbuf, blk, m - 1)]
  {}

  /** The writes of a batch, done in order, extend the copy to the end of the batch. */
  lemma {:induction false} BatchExtends(former: File, input: seq<int>, rbuf: seq<seq<int>>, blk: seq<Block>,
                                        n: nat, end: nat)
    requires Filled(input, rbuf, blk, n, end)
    ensures Base(blk, n, end) <= end
    ensures WriteAll(Copied(former, input[..Base(blk, n, end)]), Writes(rbuf, blk, FirstNats(n)))
            == Copied(former, input[..end])
    decreases n
  {
    hide WriteAt, WriteAll, Copied, Writes, Requested;
    if n == 0 {
      NoWrites(rbuf, blk, Copied(former, input[..end]));
    } else {
      var b := blk[n - 1];
      BatchExtends(former, input, rbuf, blk, n - 1, b.off);
      BlockAt(input, rbuf, blk, n, end, n - 1);
      BlockAt(input, rbuf, blk, n, end, 0);
      WritesSnoc(rbuf, blk, n);
      LastThen(Copied(former, input[..Base(blk, n, end)]), Writes(rbuf, blk, FirstNats(n - 1)),
               Requested(rbuf, blk, n - 1));
      CopyMore(former, input, b.off, end);
    }
  }

  lemma NoWrites(rbuf: seq<seq<int>>, blk: seq<Block>, f: File)
    ensures WriteAll(f, Writes(rbuf, blk, FirstNats(0))) == f
  {
    assert Writes(rbuf, blk, FirstNats(0)) == [];
  }

  // ---------------------------------------------------------------- every step

  lemma {:induction false} FilledElsewhere(input: seq<int>, rbuf: seq<seq<int>>, blk: seq<Block>, n: nat, end: nat,
                                           i: nat, piece: seq<int>, b: Block)
    requires Filled(input, rbuf, blk, n, end) && n <= i < |blk|
    ensures Filled(input, rbuf[i := piece], blk[i := b], n, end)
    decreases n
  {
    if 0 < n {
      FilledElsewhere(input, rbuf, blk, n - 1, blk[n - 1].off, i, piece, b);
    }
  }

  /** A slot filled behind the batch extends it if bytes were read, and leaves it as it is if not;
      where the batch starts stays the same. */
  lemma FilledGrows(input: seq<int>, rbuf: seq<seq<int>>, blk: seq<Block>, i: nat, pos: nat, n: nat)
    requires Filled(input, rbuf, blk, i, pos) && i < |blk| && pos + n <= |input|
    ensures var rbuf', blk' := rbuf[i := input[pos..pos + n]], blk[i := Block(pos, n, i)];
            if 0 < n then
              Filled(input, rbuf', blk', i + 1, pos + n) && Base(blk', i + 1, pos + n) == Base(blk, i, pos)
            else
              Filled(input, rbuf', blk', i, pos) && Base(blk', i, pos) == Base(blk, i, pos)
  {
    FilledElsewhere(input, rbuf, blk, i, pos, i, input[pos..pos + n], Block(pos, n, i));
    if 0 < i {
      BlockAt(input, rbuf, blk, i, pos, 0);
    }
  }

  lemma ReadKeepsInv(s: State, n: nat)
    requires Inv(s) && Enabled(s, Read(n))
    ensures Inv(Do(s, Read(n)))
  {
    hide Copied, Filled, Base, Pending;
    FilledGrows(s.input, s.rbuf, s.blk, s.i, s.pos, n);
    var t := Do(s, Read(n));
    if n > 0 {
      assert Gathered(t, s.i + 1);
    } else {
      assert Gathered(t, s.i);
    }
  }

  lemma AllIncreasing(n: nat)
    ensures Increasing(FirstNats(n), n)
  {}

  lemma SubmitKeepsInv(s: State)
    requires Inv(s) && Enabled(s, Submit)
    ensures Inv(Do(s, Submit))
  {
    hide Copied, WriteAll, Writes, FirstNats, Increasing, Filled;
    var n: nat := Entries(s);
    AllIncreasing(n);
    BatchExtends(s.former, s.input, s.rbuf, s.blk, n, s.pos);
  }

  lemma RefuseKeepsInv(s: State)
    requires Inv(s) && Enabled(s, Refuse)
    ensures Inv(Do(s, Refuse))
  {
    hide Copied, WriteAll, Writes, Filled;
  }

  lemma WithoutIncreasing(ks: seq<nat>, n: nat, p: nat)
    requires Increasing(ks, n) && p < |ks|
    ensures Increasing(Without(ks, p), n)
  {
    assert forall q :: 0 <= q < |Without(ks, p)| ==> Without(ks, p)[q] == ks[if q < p then q else q + 1];
  }

  lemma WithoutWrites(rbuf: seq<seq<int>>, blk: seq<Block>, ks: seq<nat>, p: nat)
    requires p < |ks|
    ensures Writes(rbuf, blk, Without(ks, p)) == Without(Writes(rbuf, blk, ks), p)
  {}

  lemma CompleteKeepsInv(s: State, p: nat)
    requires Inv(s) && Enabled(s, Complete(p))
    ensures Inv(Do(s, Complete(p)))
  {
    hide Copied, WriteAll, WriteAt, Filled, Increasing, Without, Gathered;
    BatchDisjoint(s.input, s.rbuf, s.blk, Entries(s), s.pos, s.pending);
    AnyFirst(s.file, Writes(s.rbuf, s.blk, s.pending), p);
    WithoutIncreasing(s.pending, Entries(s), p);
    WithoutWrites(s.rbuf, s.blk, s.pending, p);
  }

  lemma NothingPending(s: State)
    requires s.pending == []
    ensures WriteAll(s.file, Writes(s.rbuf, s.blk, s.pending)) == s.file
  {
    assert Writes(s.rbuf, s.blk, s.pending) == [];
  }

  lemma StepKeepsInv(s: State, t: State)
    requires Inv(s) && Next(s, t)
    ensures Inv(t)
  {
    hide Copied, WriteAll, WriteAt, Writes, Filled, Increasing;
    var a :| Enabled(s, a) && t == Do(s, a);
    match a {
      case Read(n) => ReadKeepsInv(s, n);
      case Submit => SubmitKeepsInv(s);
      case Refuse => RefuseKeepsInv(s);
      case Complete(p) => CompleteKeepsInv(s, p);
      case Collect => NothingPending(s);
      case Clear => ClearKeepsInv(s);
      case Notify =>
      case Arrive =>
    }
  }

  lemma ClearKeepsInv(s: State)
    requires Inv(s) && Enabled(s, Clear)
    ensures Inv(Do(s, Clear))
  {
    hide Copied;
  }

  // ---------------------------------------------------------------- whole runs

  lemma InitHasInv(s: State)
    requires Init(s)
    ensures Inv(s)
  {
    assert s.input[..0] == [];
  }

  lemma RunHasInv(run: seq<State>)
    requires IsRun(Next, run) && Init(run[0])
    ensures forall k :: 0 <= k < |run| ==> Inv(run[k])
  {
    hide Inv, Next, Init;
    InitHasInv(run[0]);
    forall s, t | Inv(s) && Next(s, t) ensures Inv(t) {
      StepKeepsInv(s, t);
    }
    Invariance(Next, Inv, run);
  }

  lemma NextKeepsJob(s: State, t: State)
    requires Next(s, t)
    ensures t.input == s.input && t.former == s.former && |t.rbuf| == |s.rbuf|
  {
    hide WriteAt, Requested, Without, Enabled;
    var a :| Enabled(s, a) && t == Do(s, a);
    DoKeepsJob(s, a);
  }

  lemma DoKeepsJob(s: State, a: Action)
    requires Enabled(s, a)
    ensures var t := Do(s, a);
            && t.input == s.input && t.former == s.former && |t.rbuf| == |s.rbuf| && t.nowait == s.nowait
            && (t.refused <==> s.refused || a == Refuse)
  {
    hide WriteAt, Requested, Without, FirstNats, Entries;
    match a {
      case Read(n) =>
      case Clear =>
      case Complete(p) =>
      case _ =>
    }
  }

  /** The input and the file's former contents are the same all along a run. */
  lemma {:induction false} RunKeepsJob(run: seq<State>, k: nat)
    requires IsRun(Next, run) && k < |run|
    ensures run[k].input == run[0].input && run[k].former == run[0].former && |run[k].rbuf| == |run[0].rbuf|
  {
    if 0 < k {
      assert Next(run[k - 1], run[k]);
      NextKeepsJob(run[k - 1], run[k]);
      RunKeepsJob(run[..k], k - 1);
    }
  }

  /** lio_listio refuses a list. */
  ghost predicate Refusal(s: State, t: State) {
    Enabled(s, Refuse) && t == Do(s, Refuse)
  }

  /** One of the first `k` steps refused a list. */
  ghost predicate RefusedBefore(run: seq<State>, k: nat)
    requires k < |run|
  {
    exists m :: 0 <= m < k && Refusal(run[m], run[m + 1])
  }

  lemma RefusalStep(s: State, t: State)
    requires Next(s, t)
    ensures t.nowait == s.nowait && (t.refused <==> s.refused || Refusal(s, t))
  {
    hide Do, Enabled;
    var a :| Enabled(s, a) && t == Do(s, a);
    DoKeepsJob(s, a);
    if Enabled(s, Refuse) {
      DoKeepsJob(s, Refuse);
    }
  }

  lemma {:induction false} RefusedExactly(run: seq<State>, k: nat)
    requires IsRun(Next, run) && Init(run[0]) && k < |run|
    ensures run[k].nowait == run[0].nowait && (run[k].refused <==> RefusedBefore(run, k))
  {
    hide Next, Refusal;
    if 0 < k {
      assert Next(run[k - 1], run[k]);
      RefusalStep(run[k - 1], run[k]);
      RefusedExactly(run, k - 1);
    }
  }

  /** For every input, every schedule of short reads and every order of completions, in both
      modes: when the program is done it has read everything, nothing is pending, and if every list
      was accepted the file is the input followed by what an older, longer file had beyond it. */
  lemma CopyCorrect(run: seq<State>, k: nat)
    requires IsRun(Next, run) && Init(run[0]) && k < |run| && run[k].point == Finished
    ensures run[k].pos == |run[0].input| && run[k].pending == []
    ensures !RefusedBefore(run, k) ==> run[k].file == Copied(run[0].former, run[0].input)
  {
    hide Next, Copied, RefusedBefore;
    RunHasInv(run);
    RefusedExactly(run, k);
    RunKeepsJob(run, k);
    assert Inv(run[k]);
    assert run[0].input[..|run[0].input|] == run[0].input;
  }

  /** No slot is refilled and no control block cleared while a write from it is in flight, and a
      submitted block is never empty and goes where its data came from. */
  lemma BuffersSafe(run: seq<State>, k: nat)
    requires IsRun(Next, run) && Init(run[0]) && k < |run|
    ensures run[k].point == Reading || run[k].point == Clearing ==> run[k].pending == []
    ensures forall p :: 0 <= p < |run[k].pending| ==>
              && run[k].pending[p] < |run[k].blk|
              && var b := run[k].blk[run[k].pending[p]];
                 && b.Block? && b.slot < |run[k].rbuf| && 0 < b.len == |run[k].rbuf[b.slot]|
                 && b.off + b.len <= run[k].pos
  {
    hide Next, Copied;
    RunHasInv(run);
    var s := run[k];
    forall p | 0 <= p < |s.pending|
      ensures && s.pending[p] < |s.blk|
              && var b := s.blk[s.pending[p]];
                 && b.Block? && b.slot < |s.rbuf| && 0 < b.len == |s.rbuf[b.slot]| && b.off + b.len <= s.pos
    {
      BlockAt(s.input, s.rbuf, s.blk, Entries(s), s.pos, s.pending[p]);
    }
  }

  // ---------------------------------------------------------------- the copy ends

  /** Rounds of the loop that may still come, each of at most |rbuf| + 8 steps. */
  function RoundsLeft(s: State): int {
    if s.point != Reading && s.ret == 0 then 0 else |s.input| - s.pos + 1
  }

  function StepsInRound(s: State): int {
    match s.point
    case Submitting => |s.rbuf| + 6
    case Collecting => 2 + |s.pending| + (if s.notified then 0 else 1) + (if s.arrived then 0 else 1)
    case Clearing => 1
    case _ => 0
  }

  /** An upper bound of the steps left. */
  function Measure(s: State): int {
    RoundsLeft(s) * (|s.rbuf| + 8) + StepsInRound(s)
  }

  lemma OneRoundLess(a: int, b: int, w: int)
    requires a < b && 0 <= w
    ensures a * w + w <= b * w
  {
    assert (b - 1 - a) * w >= 0;
    assert (b - 1 - a) * w == b * w - w - a * w;
  }

  lemma StepDecreases(s: State, t: State)
    requires Inv(s) && Next(s, t)
    ensures Measure(t) < Measure(s)
  {
    hide Copied, Filled, WriteAll, WriteAt, Writes;
    var a :| Enabled(s, a) && t == Do(s, a);
    if a.Read? {
      assert RoundsLeft(t) < RoundsLeft(s);
      OneRoundLess(RoundsLeft(t), RoundsLeft(s), |s.rbuf| + 8);
    } else {
      OtherStepDecreases(s, a);
    }
  }

  lemma OtherStepDecreases(s: State, a: Action)
    requires Inv(s) && Enabled(s, a) && !a.Read?
    ensures RoundsLeft(Do(s, a)) == RoundsLeft(s) && |Do(s, a).rbuf| == |s.rbuf|
    ensures StepsInRound(Do(s, a)) < StepsInRound(s)
  {
    hide Copied, Filled, WriteAll, WriteAt, Writes, Gathered, Requested;
    assert a.Complete? ==> s.point == Collecting;
  }

  lemma MeasureNatural(s: State)
    requires Inv(s)
    ensures 0 <= Measure(s)
  {}

  /** The program can go on until it is done, or waits at the barrier for the notification of a
      refused list: any other list completes, its notification comes and the barrier opens. */
  lemma StuckExactlyWhenFinished(s: State)
    requires Inv(s)
    ensures (exists t :: Next(s, t)) <==> s.point != Finished && !(s.nowait && s.refused)
  {
    hide Copied, WriteAll, WriteAt;
    var a :=
      match s.point
      case Reading =>
        Read(if s.pos == |s.input| then 0 else 1)
      case Submitting => Submit
      case Collecting =>
        if s.pending != [] then Complete(0)
        else if !s.nowait || s.arrived then Collect
        else if s.notified then Arrive else Notify
      case _ => Clear;
    if s.point == Collecting && s.pending != [] {
      BlockAt(s.input, s.rbuf, s.blk, Entries(s), s.pos, s.pending[0]);
    }
    if s.point != Finished && !(s.nowait && s.refused) {
      assert Enabled(s, a);
      assert Next(s, Do(s, a));
    }
  }

  lemma {:induction false} RunsAreFinite(run: seq<State>)
    requires IsRun(Next, run) && Inv(run[0])
    ensures |run| - 1 <= Measure(run[0])
    decreases |run|
  {
    hide Inv, Next, Measure;
    MeasureNatural(run[0]);
    if |run| > 1 {
      assert Next(run[0], run[1]);
      StepKeepsInv(run[0], run[1]);
      StepDecreases(run[0], run[1]);
      RunsAreFinite(run[1..]);
    }
  }

  /** Every run is finite, and one that cannot be prolonged has finished, exactly unless a list was
      refused in LIO_NOWAIT mode: then the main thread is left at the barrier. */
  lemma CopyEnds(run: seq<State>)
    requires IsRun(Next, run) && Init(run[0])
    ensures |run| - 1 <= Measure(run[0])
    ensures var last := run[|run| - 1];
            (!exists t :: Next(last, t)) ==>
              (last.point == Finished <==> !(run[0].nowait && RefusedBefore(run, |run| - 1)))
  {
    hide Next, Measure, Copied, RefusedBefore, Gathered, Pending;
    RunHasInv(run);
    RunsAreFinite(run);
    RefusedExactly(run, |run| - 1);
    StuckExactlyWhenFinished(run[|run| - 1]);
  }

  // ---------------------------------------------------------------- the steps of the main thread

  /** A read delivers the next bytes into the next slot, none exactly at the end of the input; the
      list is submitted exactly when all slots are filled or the end is reached. */
  lemma ReadStep(s: State, t: State)
    requires Inv(s) && Next(s, t) && s.point == Reading
    ensures s.pos <= t.pos <= |s.input| && t.pos - s.pos <= s.slotSize && (t.pos == s.pos <==> s.pos == |s.input|)
    ensures t.i == s.i + 1 && s.i < |s.rbuf| == |t.rbuf| && t.rbuf == s.rbuf[s.i := s.input[s.pos..t.pos]]
    ensures t.point == if t.i == |t.rbuf| || t.pos == s.pos then Submitting else Reading
  {
    hide Gathered, Pending;
    var a :| Enabled(s, a) && t == Do(s, a);
  }

  /** Every number of bytes that read may deliver can be the one it delivers. */
  lemma AnyReadNext(s: State, n: nat)
    requires Inv(s) && s.point == Reading
    requires if s.pos == |s.input| then n == 0 else 0 < n <= s.slotSize && s.pos + n <= |s.input|
    ensures exists t :: Next(s, t) && t.pos == s.pos + n
  {
    hide Gathered, Pending;
    var t := Do(s, Read(n));
    assert Next(s, t);
  }

  /** Every pending write can be the next to complete, and then the bytes of its slot are in the
      file. */
  lemma AnyWriteNext(s: State, p: nat)
    requires Inv(s) && p < |s.pending|
    ensures s.pending[p] < |s.blk| && s.pending[p] < |s.rbuf| && s.blk[s.pending[p]].Block?
    ensures exists t :: Next(s, t) && t.pending == Without(s.pending, p) && t.point == s.point
                        && t.file == WriteAt(s.file, Write(s.blk[s.pending[p]].off, s.rbuf[s.pending[p]]))
  {
    hide Gathered, WriteAt, Requested, Without, Base, Copied, WriteAll, Writes;
    BlockAt(s.input, s.rbuf, s.blk, Entries(s), s.pos, s.pending[p]);
    var t := Do(s, Complete(p));
    assert Next(s, t);
  }

  /** A list may be accepted or refused; an accepted one is all slots that hold bytes. */
  lemma ListNext(s: State)
    requires Inv(s) && s.point == Submitting
    ensures 0 <= Entries(s) <= |s.rbuf| && forall k :: 0 <= k < Entries(s) ==> 0 < |s.rbuf[k]|
    ensures exists t :: Next(s, t) && t.pending == FirstNats(Entries(s)) && !t.lost
    ensures exists t :: Refusal(s, t)
  {
    hide WriteAt, Requested, Without, Base, Copied, WriteAll, Writes, FirstNats;
    forall k: nat | k < Entries(s)
      ensures 0 < |s.rbuf[k]|
    {
      BlockAt(s.input, s.rbuf, s.blk, Entries(s), s.pos, k);
    }
    assert Next(s, Do(s, Submit));
    assert Refusal(s, Do(s, Refuse));
  }

  // ---------------------------------------------------------------- the barrier

  /** The main thread gets past a list. */
  predicate Pass(s: State, t: State) {
    s.point == Collecting && t.point == Clearing
  }

  /** lio_listio accepts a list, the notification thread starts, and it reaches the barrier. */
  predicate Acceptance(s: State, t: State) {
    s.point == Submitting && t.point == Collecting && !t.lost
  }

  predicate Notice(s: State, t: State) {
    !s.notified && t.notified
  }

  predicate Arrival(s: State, t: State) {
    !s.arrived && t.arrived
  }

  /** The main thread gets past a list only when its writes have completed, and with LIO_NOWAIT only
      together with the notification thread. */
  lemma BarrierMeets(s: State, t: State)
    requires Inv(s) && Next(s, t) && Pass(s, t)
    ensures s.pending == [] && (s.nowait ==> s.notified && s.arrived && !s.lost)
    ensures !t.notified && !t.arrived
  {
    hide Gathered, Pending, Requested, WriteAt, Without;
    var a :| Enabled(s, a) && t == Do(s, a);
  }

  /** One step with LIO_NOWAIT: who is where. */
  lemma NowaitStep(s: State, t: State)
    requires Inv(s) && Next(s, t) && s.nowait
    ensures Waits(t) - Waits(s) == (if Acceptance(s, t) then 1 else 0) - (if Pass(s, t) then 1 else 0)
    ensures Flag(t.notified) - Flag(s.notified) == (if Notice(s, t) then 1 else 0) - (if Pass(s, t) then 1 else 0)
    ensures Flag(t.arrived) - Flag(s.arrived) == (if Arrival(s, t) then 1 else 0) - (if Pass(s, t) then 1 else 0)
  {
    hide Gathered, Pending, Requested, WriteAt, Without;
    var a :| Enabled(s, a) && t == Do(s, a);
  }

  function Flag(b: bool): int {
    if b then 1 else 0
  }

  /** Whether an accepted list is under way. */
  function Waits(s: State): int {
    Flag(s.point == Collecting && !s.lost)
  }

  /** With LIO_NOWAIT there is one notification for each accepted list, it reaches the barrier once, and
      the main thread gets past the list once, after that: in every reachable state the counts differ
      only by what is under way. */
  lemma {:induction false} OneNoticePerList(run: seq<State>, k: nat)
    requires IsRun(Next, run) && Init(run[0]) && run[0].nowait && k < |run|
    ensures run[k].nowait
    ensures Count(Acceptance, run, k) == Count(Pass, run, k) + Waits(run[k])
    ensures Count(Notice, run, k) == Count(Pass, run, k) + Flag(run[k].notified)
    ensures Count(Arrival, run, k) == Count(Pass, run, k) + Flag(run[k].arrived)
  {
    hide Next, Inv, Acceptance, Notice, Arrival, Pass, Waits;
    if k == 0 {
      NothingUnderWay(run[0]);
    } else {
      OneNoticePerList(run, k - 1);
      RunHasInv(run);
      assert Next(run[k - 1], run[k]);
      RefusalStep(run[k - 1], run[k]);
      NowaitStep(run[k - 1], run[k]);
    }
  }

  lemma NothingUnderWay(s: State)
    requires Init(s)
    ensures Waits(s) == 0
  {}

  /** At the top of the loop every control block that is not filled is zero, and so are all at the end. */
  ghost predicate Zeroed(s: State) {
    && (s.point == Reading ==> ZeroedFrom(s.blk, s.i))
    && (s.point == Finished ==> ZeroedFrom(s.blk, 0))
  }

  lemma ZeroedStep(s: State, t: State)
    requires Inv(s) && Next(s, t) && Zeroed(s)
    ensures Zeroed(t)
  {
    hide Gathered, Pending, Requested, WriteAt, Without, FirstNats, ZeroedFrom;
    var a :| Enabled(s, a) && t == Do(s, a);
    if a.Read? {
      ZeroedBehind(s.blk, s.i, Block(s.pos, a.n, s.i));
    } else if a.Clear? {
      Memset(|s.blk|);
    }
  }

  lemma ZeroedBehind(blk: seq<Block>, i: nat, b: Block)
    requires i < |blk| && ZeroedFrom(blk, i)
    ensures ZeroedFrom(blk[i := b], i + 1)
  {}

  lemma Memset(n: nat)
    ensures ZeroedFrom(seq(n, k => Cleared), 0)
  {}

  lemma {:induction false} BlocksZeroed(run: seq<State>, k: nat)
    requires IsRun(Next, run) && Init(run[0]) && k < |run|
    ensures Zeroed(run[k])
  {
    if k > 0 {
      hide Next, Inv, Zeroed;
      BlocksZeroed(run, k - 1);
      RunHasInv(run);
      assert Next(run[k - 1], run[k]);
      ZeroedStep(run[k - 1], run[k]);
    }
  }

  /** A copy can start with any input, any former file, any slots and either build mode. */
  lemma AnyStart(input: seq<int>, former: File, slotSize: nat, rbuf: seq<seq<int>>, ret: nat, nowait: bool)
    requires 0 < slotSize && rbuf != []
    ensures Init(State(input, former, slotSize, nowait, former, 0, 0, ret, rbuf, seq(|rbuf|, _ => Cleared),
                       Reading, [], false, false, false, false))
  {}
}
