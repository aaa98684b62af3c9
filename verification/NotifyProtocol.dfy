/** The work queue of Chapter10/cond_var_rts.c: the threads of QueueProtocol, where a worker
    queues one real-time signal to the process after each job and a signal thread receives them.

    The signal is blocked in every thread, so it is only ever taken by `sigwaitinfo`. Instances of
    the same real-time signal queue up in the order they were sent (POSIX.1-2008, System Interfaces,
    section 2.4.2); `sigqueue` is taken to succeed. The worker's step from `Done` back to the top of
    its loop is the one that sends. */
module NotifyProtocol {
  import opened Behaviors
  import opened QueueProtocol
  import opened Rings
  import opened Sums

  /** `q` is the queue and its threads; `pending` holds the sender of each queued signal, oldest
      first. `processed`, `jobs` and `received` record the history: the values processed, the jobs
      processed by each worker and the signals received from each worker. */
  datatype Notified = Notified(q: State, pending: seq<nat>,
                               processed: multiset<int>, jobs: seq<nat>, received: seq<nat>)

  ghost predicate NotifyInit(s: Notified) {
    && Init(s.q) && s.pending == [] && s.processed == multiset{}
    && |s.jobs| == |s.received| == |s.q.cons|
    && forall i :: 0 <= i < |s.jobs| ==> s.jobs[i] == s.received[i] == 0
  }

  datatype Event = Thread(a: Action) | Receive

  predicate CanHappen(s: Notified, e: Event) {
    match e
    case Thread(a) => Enabled(s.q, a) && (a.Consume? ==> a.i < |s.jobs|)
    case Receive => s.pending != [] && s.pending[0] < |s.received|
  }

  function Happen(s: Notified, e: Event): Notified
    requires CanHappen(s, e)
  {
    match e
    case Receive =>
      var w := s.pending[0];
      s.(pending := s.pending[1..], received := s.received[w := s.received[w] + 1])
    case Thread(a) =>
      var t := s.(q := Do(s.q, a));
      if a.Consume? && s.q.cons[a.i].Processing? then
        t.(processed := s.processed + multiset{s.q.cons[a.i].value}, jobs := s.jobs[a.i := s.jobs[a.i] + 1])
      else if a.Consume? && s.q.cons[a.i].Done? then
        t.(pending := s.pending + [a.i])
      else t
  }

  ghost predicate NotifyNext(s: Notified, t: Notified) {
    exists e :: CanHappen(s, e) && t == Happen(s, e)
  }

  // ---------------------------------------------------------------- where every byte is

  function Count(values: seq<int>, x: int): nat {
    multiset(values)[x]
  }

  /** How often the value `x` was read. */
  function CountRead(chunks: seq<seq<int>>, x: int): nat {
    if chunks == [] then 0 else CountRead(chunks[..|chunks| - 1], x) + Count(chunks[|chunks| - 1], x)
  }

  /** The chunk the producer has read and whose push is not finished. */
  function Current(p: Producer): seq<int> {
    match p
    case Acquiring(buf) => buf
    case Pushing(buf, _, _) => buf
    case Releasing(buf, _) => buf
    case _ => []
  }

  /** Occurrences of `x` in finished pushes that found the ring full. */
  function CountDropped(log: seq<Push>, x: int): nat {
    if log == [] then 0
    else
      var p := log[|log| - 1];
      CountDropped(log[..|log| - 1], x) + if p.taken <= |p.chunk| then Count(p.chunk[p.taken..], x) else 0
  }

  /** Occurrences of `x` that the producer holds and has not stored. */
  function InProducerHand(p: Producer, x: int): nat {
    var n := InFlight(p);
    if n <= |Current(p)| then Count(Current(p)[n..], x) else 0
  }

  /** Whether a worker has taken `x` and not processed it. */
  function InHand(c: Consumer, x: int): int {
    match c
    case Popped(v) => if v == x then 1 else 0
    case Processing(v) => if v == x then 1 else 0
    case _ => 0
  }

  function InHands(cons: seq<Consumer>, x: int): seq<int> {
    seq(|cons|, i requires 0 <= i < |cons| => InHand(cons[i], x))
  }

  /** Every occurrence of `x` that was read is dropped, queued, in some thread's hands or processed. */
  ghost predicate ByteConserved(q: State, processed: multiset<int>, x: int) {
    && q.ring.Valid()
    && CountRead(q.input, x) == CountDropped(q.log, x) + Count(q.ring.Contents(), x)
                          + InProducerHand(q.prod, x) + Sum(InHands(q.cons, x)) + processed[x]
  }

  ghost predicate BytesConserved(q: State, processed: multiset<int>) {
    forall x :: ByteConserved(q, processed, x)
  }

  function Sending(c: Consumer): nat {
    if c.Done? then 1 else 0
  }

  /** For each worker, the jobs processed are its signals received, plus its signals pending, plus
      one while it stands between the job and its signal. */
  ghost predicate SignalsConserved(s: Notified) {
    && |s.jobs| == |s.received| == |s.q.cons|
    && (forall k :: 0 <= k < |s.pending| ==> s.pending[k] < |s.jobs|)
    && forall i :: 0 <= i < |s.jobs| ==>
         s.jobs[i] == s.received[i] + multiset(s.pending)[i] + Sending(s.q.cons[i])
  }

  ghost predicate NotifyInv(s: Notified) {
    Inv(s.q) && BytesConserved(s.q, s.processed) && SignalsConserved(s)
  }

  // ---------------------------------------------------------------- every step conserves

  lemma InHandsUpdate(cons: seq<Consumer>, i: nat, c: Consumer, x: int)
    requires i < |cons|
    ensures Sum(InHands(cons[i := c], x)) == Sum(InHands(cons, x)) - InHand(cons[i], x) + InHand(c, x)
  {
    SumUpdate(InHands(cons, x), i, InHand(c, x));
    assert InHands(cons[i := c], x) == InHands(cons, x)[i := InHand(c, x)];
  }

  lemma LogAppend(log: seq<Push>, p: Push, x: int)
    requires p.taken <= |p.chunk|
    ensures CountDropped(log + [p], x) == CountDropped(log, x) + Count(p.chunk[p.taken..], x)
  {
    assert (log + [p])[..|log|] == log;
  }

  lemma CountSplit(buf: seq<int>, i: nat, x: int)
    requires i < |buf|
    ensures Count(buf[i..], x) == Count(buf[i + 1..], x) + if buf[i] == x then 1 else 0
  {
    assert buf[i..] == [buf[i]] + buf[i + 1..];
  }

  lemma CountAppend(q: seq<int>, v: int, x: int)
    ensures Count(q + [v], x) == Count(q, x) + if v == x then 1 else 0
  {}

  /** One iteration of the push loop moves a value from the producer's hand into the ring. */
  lemma PushKeepsByte(s: State, processed: multiset<int>, x: int)
    requires s.prod.Pushing? && CanProduce(s) && ByteConserved(s, processed, x)
    requires s.prod.i <= |s.prod.buf| && s.ring.Cursor(s.prod.j)
    ensures ByteConserved(DoProduce(s), processed, x)
  {
    hide Ring.Contents, Ring.Cursor, Count, CountRead, CountDropped, InHands, Sum;
    var Pushing(buf, i, j) := s.prod;
    if i < |buf| && s.ring.cnt != |s.ring.item| {
      PutAppends(s.ring, j, buf[i]);
      CountSplit(buf, i, x);
      CountAppend(s.ring.Contents(), buf[i], x);
    }
  }

  lemma NothingInHand(p: Producer, x: int)
    requires p == Reading || p == Broadcasting
    ensures InProducerHand(p, x) == 0
  {}

  /** The end of a push drops what is left of the chunk. */
  lemma ReleaseKeepsByte(s: State, processed: multiset<int>, x: int)
    requires s.prod.Releasing? && ByteConserved(s, processed, x) && s.prod.i <= |s.prod.buf|
    ensures ByteConserved(DoProduce(s), processed, x)
  {
    hide Ring.Contents, Count, CountRead, CountDropped, InHands, Sum;
    LogAppend(s.log, Push(s.prod.buf, s.prod.i), x);
    NothingInHand(Broadcasting, x);
  }

  lemma ProducerKeepsByte(s: State, processed: multiset<int>, x: int)
    requires s.ring.Valid() && PushInv(s) && CanProduce(s) && ByteConserved(s, processed, x)
    ensures ByteConserved(DoProduce(s), processed, x)
  {
    hide Ring.Contents, Ring.Cursor;
    match s.prod {
      case Acquiring(buf) => assert buf[0..] == buf;
      case Pushing(_, _, _) => PushKeepsByte(s, processed, x);
      case Releasing(_, _) => ReleaseKeepsByte(s, processed, x);
      case Broadcasting => assert InHands(WakeAll(s.cons), x) == InHands(s.cons, x);
    }
  }

  /** A pop moves a value from the ring into a worker's hand. */
  lemma PopKeepsByte(s: State, i: nat, processed: multiset<int>, x: int)
    requires CanConsume(s, i) && s.cons[i].Testing? && 0 < s.ring.cnt && ByteConserved(s, processed, x)
    ensures ByteConserved(DoConsume(s, i), processed, x)
  {
    hide Ring.Contents, InHands;
    TakeRemovesOldest(s.ring);
    InHandsUpdate(s.cons, i, Popped(s.ring.Take().1), x);
  }

  /** A chunk read is in the producer's hand. */
  lemma ReadKeepsByte(s: State, chunk: seq<int>, processed: multiset<int>, x: int)
    requires Enabled(s, Read(chunk)) && ByteConserved(s, processed, x)
    ensures ByteConserved(Do(s, Read(chunk)), processed, x)
  {
    hide Ring.Contents;
    assert chunk[0..] == chunk;
    assert (s.input + [chunk])[..|s.input|] == s.input;
  }

  /** A step of a worker keeps its hand as it is or moves the value to the processed ones. */
  lemma ConsumerKeepsByte(s: State, i: nat, processed: multiset<int>, x: int)
    requires CanConsume(s, i) && ByteConserved(s, processed, x)
    ensures ByteConserved(DoConsume(s, i), AfterStep(s, Consume(i), processed), x)
  {
    hide Ring.Contents, InHands, CountRead, CountDropped, InProducerHand;
    if s.cons[i].Testing? && 0 < s.ring.cnt {
      PopKeepsByte(s, i, processed, x);
    } else {
      InHandsUpdate(s.cons, i, DoConsume(s, i).cons[i], x);
    }
  }

  function AfterStep(s: State, a: Action, processed: multiset<int>): multiset<int> {
    if a.Consume? && a.i < |s.cons| && s.cons[a.i].Processing?
    then processed + multiset{s.cons[a.i].value} else processed
  }

  lemma ThreadKeepsByte(s: State, a: Action, processed: multiset<int>, x: int)
    requires s.ring.Valid() && PushInv(s) && Enabled(s, a) && ByteConserved(s, processed, x)
    ensures ByteConserved(Do(s, a), AfterStep(s, a, processed), x)
  {
    hide Ring.Contents, PushInv, InHands;
    match a {
      case Produce => ProducerKeepsByte(s, processed, x);
      case Consume(i) => ConsumerKeepsByte(s, i, processed, x);
      case Read(chunk) => ReadKeepsByte(s, chunk, processed, x);
      case Spurious(i) => InHandsUpdate(s.cons, i, Waking, x);
    }
  }

  /** A signal is received on its sender's account, from the front of the queue. */
  lemma ReceiveKeepsSignals(s: Notified)
    requires SignalsConserved(s) && CanHappen(s, Receive)
    ensures SignalsConserved(Happen(s, Receive))
  {
    assert s.pending == [s.pending[0]] + s.pending[1..];
  }

  lemma ThreadKeepsSignals(s: Notified, a: Action)
    requires SignalsConserved(s) && CanHappen(s, Thread(a))
    ensures SignalsConserved(Happen(s, Thread(a)))
  {
    hide Do, Enabled;
    var t := Happen(s, Thread(a));
    forall i | 0 <= i < |s.q.cons|
      ensures |t.q.cons| == |s.q.cons|
      ensures t.jobs[i] == t.received[i] + multiset(t.pending)[i] + Sending(t.q.cons[i])
    {
      assert s.jobs[i] == s.received[i] + multiset(s.pending)[i] + Sending(s.q.cons[i]);
      OneThreadMoves(s.q, a, i);
    }
    ThreadsStay(s.q, a);
  }

  lemma ThreadsStay(q: State, a: Action)
    requires Enabled(q, a)
    ensures |Do(q, a).cons| == |q.cons|
  {}

  /** Only the stepping worker moves to or from the point where it sends. */
  lemma OneThreadMoves(q: State, a: Action, i: nat)
    requires Enabled(q, a) && i < |q.cons|
    ensures |Do(q, a).cons| == |q.cons|
    ensures Sending(Do(q, a).cons[i]) ==
              if a.Consume? && a.i == i && q.cons[i].Processing? then 1
              else if a.Consume? && a.i == i && q.cons[i].Done? then 0
              else Sending(q.cons[i])
  {}

  lemma ThreadKeepsBytes(s: State, a: Action, processed: multiset<int>)
    requires Inv(s) && Enabled(s, a) && BytesConserved(s, processed)
    ensures Inv(Do(s, a)) && BytesConserved(Do(s, a), AfterStep(s, a, processed))
  {
    hide ByteConserved, PushInv, MutexInv, WakeInv, Do, Enabled, Queue;
    forall x
      ensures ByteConserved(Do(s, a), AfterStep(s, a, processed), x)
    {
      assert ByteConserved(s, processed, x);
      ThreadKeepsByte(s, a, processed, x);
    }
    assert Step(s, a, Do(s, a));
    StepRefinesFifo(s, Do(s, a));
  }

  lemma ProcessedAfter(s: Notified, a: Action)
    requires CanHappen(s, Thread(a))
    ensures Happen(s, Thread(a)).processed == AfterStep(s.q, a, s.processed)
    ensures Happen(s, Thread(a)).q == Do(s.q, a)
  {}

  lemma NotifyStepKeepsInv(s: Notified, t: Notified)
    requires NotifyInv(s) && NotifyNext(s, t)
    ensures NotifyInv(t)
  {
    hide Inv, BytesConserved, SignalsConserved, Do, Enabled;
    var e :| CanHappen(s, e) && t == Happen(s, e);
    match e {
      case Receive => ReceiveKeepsSignals(s);
      case Thread(a) =>
        ThreadKeepsSignals(s, a);
        ThreadKeepsBytes(s.q, a, s.processed);
        ProcessedAfter(s, a);
    }
  }

  lemma NotifyInitHasInv(s: Notified)
    requires NotifyInit(s)
    ensures NotifyInv(s)
  {
    forall x ensures ByteConserved(s.q, s.processed, x) {
      SumBounds(InHands(s.q.cons, x), 0);
    }
  }

  /** In every reachable state the bytes read are, value by value, those dropped, queued, in the
      hands of a thread and processed; and for each worker the jobs processed are its signals
      received and pending, plus one while it stands between job and signal. */
  lemma NotificationsConserved(run: seq<Notified>, k: nat)
    requires IsRun(NotifyNext, run) && NotifyInit(run[0]) && k < |run|
    ensures Inv(run[k].q) && BytesConserved(run[k].q, run[k].processed) && SignalsConserved(run[k])
  {
    NotifyInitHasInv(run[0]);
    forall s, t | NotifyInv(s) && NotifyNext(s, t) ensures NotifyInv(t) {
      NotifyStepKeepsInv(s, t);
    }
    Invariance(NotifyNext, NotifyInv, run);
  }

  // ---------------------------------------------------------------- jobs and signals along a run

  /** Worker `i` goes on from the end of a job to the top of its loop. */
  ghost predicate Sends(s: Notified, t: Notified, i: nat) {
    i < |s.q.cons| && i < |t.q.cons| && s.q.cons[i] == Done && t.q.cons[i] == Locking
  }

  /** A signal of worker `i` is received. */
  ghost predicate Receipt(s: Notified, t: Notified, i: nat) {
    i < |s.received| && i < |t.received| && t.received[i] == s.received[i] + 1
  }

  /** The worker that sends in this step, if one does. */
  ghost function SentBy(s: Notified, t: Notified): seq<nat> {
    if i: nat :| Sends(s, t, i) then [i] else []
  }

  ghost function ReceivedFrom(s: Notified, t: Notified): seq<nat> {
    if i: nat :| Receipt(s, t, i) then [i] else []
  }

  /** The senders of all signals sent in the first `k` steps, in order. */
  ghost function Sent(run: seq<Notified>, k: nat): seq<nat>
    requires k < |run|
  {
    if k == 0 then [] else Sent(run, k - 1) + SentBy(run[k - 1], run[k])
  }

  ghost function Received(run: seq<Notified>, k: nat): seq<nat>
    requires k < |run|
  {
    if k == 0 then [] else Received(run, k - 1) + ReceivedFrom(run[k - 1], run[k])
  }

  lemma ReceiptStep(s: Notified)
    requires CanHappen(s, Receive)
    ensures var t := Happen(s, Receive);
            SentBy(s, t) == [] && ReceivedFrom(s, t) == [s.pending[0]] && t.pending == s.pending[1..]
  {
    var t := Happen(s, Receive);
    assert Receipt(s, t, s.pending[0]);
  }

  lemma ThreadSends(s: Notified, a: Action)
    requires CanHappen(s, Thread(a))
    ensures var t := Happen(s, Thread(a)); ReceivedFrom(s, t) == [] && t.pending == s.pending + SentBy(s, t)
  {
    hide Do, Enabled, CanProduce, CanConsume;
    var t := Happen(s, Thread(a));
    forall i: nat
      ensures Sends(s, t, i) <==> a == Consume(i) && i < |s.q.cons| && s.q.cons[i] == Done
    {
      if i < |s.q.cons| {
        LeavesDone(s.q, a, i);
      }
    }
    ConsumerExists(s.q, a);
    if a.Consume? && s.q.cons[a.i] == Done {
      assert Sends(s, t, a.i);
      assert SentBy(s, t) == [a.i];
    } else {
      assert SentBy(s, t) == [];
    }
  }

  lemma LeavesDone(q: State, a: Action, i: nat)
    requires Enabled(q, a) && i < |q.cons|
    ensures |Do(q, a).cons| == |q.cons|
    ensures q.cons[i] == Done ==> (Do(q, a).cons[i] == Locking <==> a == Consume(i))
  {}

  /** The signals received so far, followed by those pending, are those sent so far, in order: they
      are received first come, first served, none is lost and none invented. */
  lemma {:induction false} SignalsInOrder(run: seq<Notified>, k: nat)
    requires IsRun(NotifyNext, run) && NotifyInit(run[0]) && k < |run|
    ensures Received(run, k) + run[k].pending == Sent(run, k)
  {
    hide CanHappen, Happen, SentBy, ReceivedFrom;
    if k > 0 {
      SignalsInOrder(run, k - 1);
      assert NotifyNext(run[k - 1], run[k]);
      SignalsStep(run[k - 1], run[k]);
      var before := Received(run, k - 1);
      assert before + ReceivedFrom(run[k - 1], run[k]) + run[k].pending
          == before + (ReceivedFrom(run[k - 1], run[k]) + run[k].pending);
      assert before + (run[k - 1].pending + SentBy(run[k - 1], run[k]))
          == before + run[k - 1].pending + SentBy(run[k - 1], run[k]);
    }
  }

  lemma SignalsStep(s: Notified, t: Notified)
    requires NotifyNext(s, t)
    ensures ReceivedFrom(s, t) + t.pending == s.pending + SentBy(s, t)
  {
    hide SentBy, ReceivedFrom, Happen;
    var e :| CanHappen(s, e) && t == Happen(s, e);
    match e {
      case Receive =>
        ReceiptStep(s);
        assert s.pending == [s.pending[0]] + s.pending[1..];
      case Thread(a) => ThreadSends(s, a);
    }
  }

  /** Every value processed is one job of one worker. */
  lemma {:induction false} JobsAreValues(run: seq<Notified>, k: nat)
    requires IsRun(NotifyNext, run) && NotifyInit(run[0]) && k < |run|
    ensures |run[k].processed| == Sum(run[k].jobs)
  {
    hide CanHappen, Happen, Sum;
    if k == 0 {
      NoJobs(run[0].jobs);
    } else {
      JobsAreValues(run, k - 1);
      assert NotifyNext(run[k - 1], run[k]);
      JobStep(run[k - 1], run[k]);
    }
  }

  lemma {:induction false} NoJobs(jobs: seq<nat>)
    requires forall i :: 0 <= i < |jobs| ==> jobs[i] == 0
    ensures Sum(jobs) == 0
  {
    if jobs != [] {
      NoJobs(jobs[1..]);
    }
  }

  lemma JobStep(s: Notified, t: Notified)
    requires NotifyNext(s, t)
    ensures |t.processed| - |s.processed| == Sum(t.jobs) - Sum(s.jobs)
  {
    hide Do, Enabled, Sum;
    var e :| CanHappen(s, e) && t == Happen(s, e);
    if e.Thread? {
      ConsumerExists(s.q, e.a);
    }
    if e.Thread? && e.a.Consume? && s.q.cons[e.a.i].Processing? {
      SumUpdate(s.jobs, e.a.i, s.jobs[e.a.i] + 1);
    }
  }

  /** The oldest pending signal can be received at any time. */
  lemma PendingIsReceived(s: Notified)
    requires NotifyInv(s) && s.pending != []
    ensures exists t :: NotifyNext(s, t) && t.q == s.q && t.pending == s.pending[1..]
                        && |t.received| == |s.received| && t.received[s.pending[0]] == s.received[s.pending[0]] + 1
  {
    hide Inv, BytesConserved;
    assert CanHappen(s, Receive);
    assert NotifyNext(s, Happen(s, Receive));
  }

  /** Signals keep no thread from stepping: every step of the queue's threads is one here. */
  lemma ThreadsUnhindered(s: Notified, q: State)
    requires NotifyInv(s) && Next(s.q, q)
    ensures exists t :: NotifyNext(s, t) && t.q == q
  {
    hide Inv, BytesConserved, Do, Enabled, CanConsume;
    var a :| Step(s.q, a, q);
    ConsumerExists(s.q, a);
    assert CanHappen(s, Thread(a));
    assert NotifyNext(s, Happen(s, Thread(a)));
  }

  lemma ConsumerExists(q: State, a: Action)
    requires Enabled(q, a)
    ensures a.Consume? ==> a.i < |q.cons|
  {}

  /** A run can start with any capacity and any number of workers. */
  lemma AnyNotifyStart(item: seq<int>, workers: nat)
    requires item != []
    ensures NotifyInit(Notified(State(Ring(item, 0, 0), Free, Reading, seq(workers, _ => Locking), [], [], []),
                                [], multiset{}, seq(workers, _ => 0), seq(workers, _ => 0)))
  {
    AnyStart(item, workers);
  }
}
