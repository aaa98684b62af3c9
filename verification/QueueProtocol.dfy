/** Whole runs of the work queue of Chapter08/cond_var.c: one producer thread, any number of
    consumer threads, one mutex, one condition variable.

    A step is one access to shared state: a lock, one iteration of the push loop, an unlock, the
    broadcast, one pass of the pop loop, a wake-up. `pthread_cond_wait` puts the caller in the wait
    set and frees the mutex in one step; a waiter leaves the wait set by a broadcast or spuriously,
    and then competes for the mutex again. Any order of steps is a run. */
module QueueProtocol {
  import opened Behaviors
  import opened Rings
  import opened Sums

  datatype Owner = Free | ByProducer | ByConsumer(who: nat)

  /** Program points of `tfunc_a` and `push_item`. */
  datatype Producer =
    | Reading                                  // blocked in read
    | Acquiring(buf: seq<int>)                 // pthread_mutex_lock in push_item
    | Pushing(buf: seq<int>, i: nat, j: nat)   // at the loop head, owning the mutex
    | Releasing(buf: seq<int>, i: nat)         // loop left, owning the mutex
    | Broadcasting                             // mutex released, broadcast not yet done

  /** Program points of `tfunc_b` and `pop_item`. */
  datatype Consumer =
    | Locking                // pthread_mutex_lock in pop_item
    | Testing                // at the loop head, owning the mutex
    | Waiting                // in the wait set of the condition variable
    | Waking                 // out of the wait set, competing for the mutex
    | Popped(value: int)     // value taken, owning the mutex
    | Processing(value: int) // mutex released, in process_job
    | Done                   // job processed, about to start over

  /** One finished push_item call: the chunk read and how many of its values were queued. */
  datatype Push = Push(chunk: seq<int>, taken: nat)

  /** `input`, `log` and `popped` record the history: the chunks read, the finished pushes and the
      values taken. The program does not keep them. */
  datatype State = State(ring: Ring, mutex: Owner, prod: Producer, cons: seq<Consumer>,
                         input: seq<seq<int>>, log: seq<Push>, popped: seq<int>)

  datatype Action =
    | Read(chunk: seq<int>) // read returns a non-empty chunk
    | Produce               // the producer's next step
    | Consume(i: nat)       // the next step of consumer i
    | Spurious(i: nat)      // consumer i wakes up without a broadcast

  ghost predicate Init(s: State) {
    && 0 < |s.ring.item| && s.ring.idx == 0 && s.ring.cnt == 0
    && s.mutex == Free && s.prod == Reading
    && (forall i :: 0 <= i < |s.cons| ==> s.cons[i] == Locking)
    && s.input == [] && s.log == [] && s.popped == []
  }

  // ---------------------------------------------------------------- steps

  predicate CanProduce(s: State) {
    && 0 < |s.ring.item|
    && match s.prod
       case Reading => false
       case Acquiring(_) => s.mutex == Free
       case Pushing(_, _, j) => j <= |s.ring.item|
       case _ => true
  }

  function DoProduce(s: State): State
    requires CanProduce(s)
  {
    match s.prod
    case Acquiring(buf) => s.(mutex := ByProducer, prod := Pushing(buf, 0, s.ring.FirstFree()))
    case Pushing(buf, i, j) =>
      if i < |buf| && s.ring.cnt != |s.ring.item| then
        var (r, j') := s.ring.Put(j, buf[i]);
        s.(ring := r, prod := Pushing(buf, i + 1, j'))
      else
        s.(prod := Releasing(buf, i))
    case Releasing(buf, i) => s.(mutex := Free, prod := Broadcasting, log := s.log + [Push(buf, i)])
    case Broadcasting => s.(prod := Reading, cons := WakeAll(s.cons))
  }

  function WakeAll(cons: seq<Consumer>): seq<Consumer> {
    seq(|cons|, i requires 0 <= i < |cons| => if cons[i].Waiting? then Waking else cons[i])
  }

  predicate CanConsume(s: State, i: nat) {
    && i < |s.cons|
    && 0 < |s.ring.item| && s.ring.idx <= |s.ring.item|
    && match s.cons[i]
       case Locking => s.mutex == Free
       case Waking => s.mutex == Free
       case Waiting => false
       case _ => true
  }

  function DoConsume(s: State, i: nat): State
    requires CanConsume(s, i)
  {
    match s.cons[i]
    case Locking => s.(mutex := ByConsumer(i), cons := s.cons[i := Testing])
    case Waking => s.(mutex := ByConsumer(i), cons := s.cons[i := Testing])
    case Testing =>
      if s.ring.cnt > 0 then
        var (r, v) := s.ring.Take();
        s.(ring := r, cons := s.cons[i := Popped(v)], popped := s.popped + [v])
      else
        s.(mutex := Free, cons := s.cons[i := Waiting])
    case Popped(v) => s.(mutex := Free, cons := s.cons[i := Processing(v)])
    case Processing(_) => s.(cons := s.cons[i := Done])
    case Done => s.(cons := s.cons[i := Locking])
  }

  predicate Enabled(s: State, a: Action) {
    match a
    case Read(chunk) => s.prod == Reading && chunk != []
    case Produce => CanProduce(s)
    case Consume(i) => CanConsume(s, i)
    case Spurious(i) => i < |s.cons| && s.cons[i] == Waiting
  }

  function Do(s: State, a: Action): State
    requires Enabled(s, a)
  {
    match a
    case Read(chunk) => s.(prod := Acquiring(chunk), input := s.input + [chunk])
    case Produce => DoProduce(s)
    case Consume(i) => DoConsume(s, i)
    case Spurious(i) => s.(cons := s.cons[i := Waking])
  }

  ghost predicate Step(s: State, a: Action, t: State) {
    Enabled(s, a) && t == Do(s, a)
  }

  ghost predicate Next(s: State, t: State) {
    exists a :: Step(s, a, t)
  }

  // ---------------------------------------------------------------- invariant

  /** The mutex is owned by exactly the thread that is inside its critical section. */
  ghost predicate MutexInv(s: State) {
    && (s.mutex == ByProducer <==> s.prod.Pushing? || s.prod.Releasing?)
    && (forall i: nat :: i < |s.cons| ==>
          (s.mutex == ByConsumer(i) <==> s.cons[i].Testing? || s.cons[i].Popped?))
    && (s.mutex.ByConsumer? ==> s.mutex.who < |s.cons|)
  }

  /** How many values of the producer's current chunk are already in the ring. */
  function InFlight(p: Producer): nat {
    match p
    case Pushing(_, i, _) => i
    case Releasing(_, i) => i
    case _ => 0
  }

  ghost predicate PushInv(s: State)
    requires s.ring.Valid()
  {
    match s.prod
    case Pushing(buf, i, j) =>
      && i <= |buf| && i <= s.ring.cnt && s.ring.Cursor(j)
      && s.ring.Contents()[s.ring.cnt - i..] == buf[..i]
    case Releasing(buf, i) =>
      && i <= |buf| && i <= s.ring.cnt && (i == |buf| || s.ring.cnt == |s.ring.item|)
      && s.ring.Contents()[s.ring.cnt - i..] == buf[..i]
    case _ => true
  }

  /** No lost wake-up: with values queued, a consumer can be in the wait set only while the
      producer is between taking the mutex and finishing its broadcast. */
  ghost predicate WakeInv(s: State) {
    (s.ring.cnt > 0 && exists i :: 0 <= i < |s.cons| && s.cons[i] == Waiting) ==>
      s.prod.Pushing? || s.prod.Releasing? || s.prod.Broadcasting?
  }

  /** The chunk that is read and whose push is not finished, if there is one. */
  function Unfinished(p: Producer): seq<seq<int>> {
    match p
    case Acquiring(buf) => [buf]
    case Pushing(buf, _, _) => [buf]
    case Releasing(buf, _) => [buf]
    case _ => []
  }

  function Chunks(log: seq<Push>): seq<seq<int>> {
    seq(|log|, i requires 0 <= i < |log| => log[i].chunk)
  }

  /** Each chunk read is pushed once, whole and in order. */
  ghost predicate ReadInv(s: State) {
    s.input == Chunks(s.log) + Unfinished(s.prod)
  }

  ghost predicate Inv(s: State) {
    && s.ring.Valid() && MutexInv(s) && PushInv(s) && WakeInv(s) && ReadInv(s)
    && s.popped + Queue(s) == Accepted(s.log)
  }

  lemma InitHasInv(s: State)
    requires Init(s)
    ensures Inv(s)
  {}

  // ---------------------------------------------------------------- the atomic bounded FIFO

  /** The queue the clients believe in: a push appends, in one step, as much of its chunk as fits;
      a pop removes the oldest value. */
  datatype Fifo = Fifo(capacity: nat, queue: seq<int>, log: seq<Push>, popped: seq<int>)

  ghost predicate FifoPush(f: Fifo, g: Fifo, chunk: seq<int>) {
    var room := f.capacity - |f.queue|;
    var n := if |chunk| <= room then |chunk| else room;
    0 <= n && g == f.(queue := f.queue + chunk[..n], log := f.log + [Push(chunk, n)])
  }

  ghost predicate FifoPop(f: Fifo, g: Fifo) {
    f.queue != [] && g == f.(queue := f.queue[1..], popped := f.popped + [f.queue[0]])
  }

  ghost predicate FifoNext(f: Fifo, g: Fifo) {
    g == f || FifoPop(f, g) || exists chunk :: FifoPush(f, g, chunk)
  }

  /** The ring's contents without the values of a push that is still under way. */
  ghost function Queue(s: State): seq<int>
    requires s.ring.Valid()
  {
    var n := InFlight(s.prod);
    if n <= s.ring.cnt then s.ring.Contents()[..s.ring.cnt - n] else []
  }

  ghost function Abstract(s: State): Fifo
    requires s.ring.Valid()
  {
    Fifo(|s.ring.item|, Queue(s), s.log, s.popped)
  }

  /** The queued prefixes of all chunks, in the order of the pushes. */
  function Accepted(log: seq<Push>): seq<int> {
    if log == [] then []
    else
      var p := log[|log| - 1];
      Accepted(log[..|log| - 1]) + if p.taken <= |p.chunk| then p.chunk[..p.taken] else p.chunk
  }

  lemma AcceptedAppend(log: seq<Push>, p: Push)
    ensures Accepted(log + [p]) == Accepted(log) + if p.taken <= |p.chunk| then p.chunk[..p.taken] else p.chunk
  {
    assert (log + [p])[..|log|] == log;
  }

  // ---------------------------------------------------------------- every step

  /** If a queue ends in the first `i` values of a chunk, then with the next value appended it ends
      in the first `i + 1`, and what comes before them is the same. */
  lemma SuffixGrows(q: seq<int>, buf: seq<int>, i: nat)
    requires i < |buf| && i <= |q| && q[|q| - i..] == buf[..i]
    ensures (q + [buf[i]])[|q| - i..] == buf[..i + 1]
    ensures (q + [buf[i]])[..|q| - i] == q[..|q| - i]
  {
    assert (q + [buf[i]])[|q| - i..] == q[|q| - i..] + [buf[i]];
  }

  /** One iteration of the push loop, or leaving it: invisible in the FIFO. */
  lemma PushingStep(s: State)
    requires Inv(s) && CanProduce(s) && s.prod.Pushing?
    ensures Inv(DoProduce(s)) && Abstract(DoProduce(s)) == Abstract(s)
  {
    hide Accepted, MutexInv, PushInv, ReadInv, Queue, DoProduce, CanProduce, Ring.Contents;
    ReadsPushed(s, Produce);
    MutexHeld(s);
    PushingKeepsQueue(s);
  }

  /** The values of a push under way stay out of the queue. */
  lemma PushingKeepsQueue(s: State)
    requires s.ring.Valid() && PushInv(s) && CanProduce(s) && s.prod.Pushing?
    ensures DoProduce(s).ring.Valid() && PushInv(DoProduce(s)) && Queue(DoProduce(s)) == Queue(s)
    ensures |DoProduce(s).ring.item| == |s.ring.item|
  {
    hide Ring.Contents, Ring.Cursor, Ring.Put;
    var Pushing(buf, i, j) := s.prod;
    if i < |buf| && s.ring.cnt != |s.ring.item| {
      PutAppends(s.ring, j, buf[i]);
      PutCounts(s.ring, j, buf[i]);
      SuffixGrows(s.ring.Contents(), buf, i);
    }
  }

  lemma ReadsPushed(s: State, a: Action)
    requires ReadInv(s) && Enabled(s, a)
    ensures ReadInv(Do(s, a))
  {}

  lemma MutexHeld(s: State)
    requires CanProduce(s) && s.prod.Pushing? && MutexInv(s)
    ensures var t := DoProduce(s);
            && MutexInv(t) && t.mutex == s.mutex && t.cons == s.cons && t.log == s.log && t.popped == s.popped
            && (t.prod.Pushing? || t.prod.Releasing?)
  {}

  lemma PutCounts(r: Ring, j: nat, v: int)
    requires 0 < |r.item| && j <= |r.item|
    ensures r.Put(j, v).0.cnt == r.cnt + 1 && |r.Put(j, v).0.item| == |r.item|
  {}

  /** The unlock is where the whole push takes effect in the FIFO. */
  lemma ReleasingStep(s: State)
    requires Inv(s) && s.prod.Releasing?
    ensures Inv(DoProduce(s)) && FifoPush(Abstract(s), Abstract(DoProduce(s)), s.prod.buf)
  {
    hide Accepted, Queue, PushInv, MutexInv, ReadInv;
    ReadsPushed(s, Produce);
    var Releasing(buf, i) := s.prod;
    AcceptedAppend(s.log, Push(buf, i));
    PushArrives(s);
    MutexFreed(s);
    assert s.popped + (Queue(s) + buf[..i]) == (s.popped + Queue(s)) + buf[..i];
  }

  lemma MutexFreed(s: State)
    requires s.ring.Valid() && s.prod.Releasing? && MutexInv(s)
    ensures MutexInv(DoProduce(s)) && PushInv(DoProduce(s))
  {}

  /** With the unlock the values of the push join the queue. */
  lemma PushArrives(s: State)
    requires s.ring.Valid() && s.prod.Releasing? && PushInv(s)
    ensures Queue(DoProduce(s)) == Queue(s) + s.prod.buf[..s.prod.i]
    ensures |Queue(s)| == s.ring.cnt - s.prod.i
    ensures s.prod.i == if |s.prod.buf| <= |s.ring.item| - |Queue(s)| then |s.prod.buf| else |s.ring.item| - |Queue(s)|
  {
    var q := s.ring.Contents();
    assert q == q[..|q| - s.prod.i] + q[|q| - s.prod.i..];
    assert q[..|q|] == q;
  }

  lemma ProduceStep(s: State)
    requires Inv(s) && CanProduce(s)
    ensures Inv(DoProduce(s))
    ensures FifoNext(Abstract(s), Abstract(DoProduce(s)))
  {
    hide ReadInv;
    ReadsPushed(s, Produce);
    match s.prod {
      case Acquiring(buf) =>
        FirstFreeIsCursor(s.ring);
        assert Queue(DoProduce(s)) == Queue(s);
      case Pushing(_, _, _) => PushingStep(s);
      case Releasing(_, _) => ReleasingStep(s);
      case Broadcasting => assert Queue(DoProduce(s)) == Queue(s);
    }
  }

  /** The pop: a step of the FIFO. */
  lemma PopStep(s: State, i: nat)
    requires Inv(s) && CanConsume(s, i) && s.cons[i] == Testing && s.ring.cnt > 0
    ensures Inv(DoConsume(s, i)) && FifoPop(Abstract(s), Abstract(DoConsume(s, i)))
  {
    hide Accepted, Ring.Contents, ReadInv;
    ReadsPushed(s, Consume(i));
    var t := DoConsume(s, i);
    TakeRemovesOldest(s.ring);
    WholeQueue(s);
    WholeQueue(t);
    assert s.popped + ([t.popped[|s.popped|]] + Queue(t)) == t.popped + Queue(t);
  }

  /** While the producer has nothing in flight the queue is the whole ring. */
  lemma WholeQueue(s: State)
    requires s.ring.Valid() && InFlight(s.prod) == 0
    ensures Queue(s) == s.ring.Contents()
  {}

  lemma ConsumeStep(s: State, i: nat)
    requires Inv(s) && CanConsume(s, i)
    ensures Inv(DoConsume(s, i))
    ensures FifoNext(Abstract(s), Abstract(DoConsume(s, i)))
  {
    hide Accepted, Ring.Contents, FifoPop, FifoPush, ReadInv;
    ReadsPushed(s, Consume(i));
    if s.cons[i] == Testing && s.ring.cnt > 0 {
      PopStep(s, i);
    } else {
      assert DoConsume(s, i).ring == s.ring;
    }
  }

  lemma ReadStep(s: State, chunk: seq<int>)
    requires Inv(s) && Enabled(s, Read(chunk))
    ensures Inv(Do(s, Read(chunk))) && Abstract(Do(s, Read(chunk))) == Abstract(s)
  {
    hide Accepted, Ring.Contents, ReadInv;
    ReadsPushed(s, Read(chunk));
    assert Queue(Do(s, Read(chunk))) == Queue(s);
  }

  lemma SpuriousStep(s: State, i: nat)
    requires Inv(s) && Enabled(s, Spurious(i))
    ensures Inv(Do(s, Spurious(i))) && Abstract(Do(s, Spurious(i))) == Abstract(s)
  {
    hide Accepted, Ring.Contents, ReadInv, MutexInv, WakeInv, PushInv;
    ReadsPushed(s, Spurious(i));
    SpuriousHarmless(s, i);
    assert Queue(Do(s, Spurious(i))) == Queue(s);
  }

  lemma SpuriousHarmless(s: State, i: nat)
    requires s.ring.Valid() && MutexInv(s) && WakeInv(s) && PushInv(s) && Enabled(s, Spurious(i))
    ensures var t := Do(s, Spurious(i)); MutexInv(t) && WakeInv(t) && PushInv(t)
  {
    hide Ring.Contents, Ring.Cursor, Ring.Valid, WakeInv, MutexInv;
    SpuriousKeepsMutex(s, i);
    SpuriousKeepsWake(s, i);
  }

  lemma SpuriousKeepsMutex(s: State, i: nat)
    requires MutexInv(s) && Enabled(s, Spurious(i))
    ensures MutexInv(Do(s, Spurious(i)))
  {}

  lemma SpuriousKeepsWake(s: State, i: nat)
    requires WakeInv(s) && Enabled(s, Spurious(i))
    ensures WakeInv(Do(s, Spurious(i)))
  {
    assert s.cons[i] == Waiting;
  }

  /** Every step of every thread keeps the invariant and is a step of the atomic FIFO or changes
      nothing in it. */
  lemma StepRefinesFifo(s: State, t: State)
    requires Inv(s) && Next(s, t)
    ensures Inv(t) && FifoNext(Abstract(s), Abstract(t))
  {
    hide Inv, Abstract, CanProduce, CanConsume, DoProduce, DoConsume;
    var a :| Step(s, a, t);
    match a {
      case Read(chunk) => ReadStep(s, chunk);
      case Produce => ProduceStep(s);
      case Consume(i) => ConsumeStep(s, i);
      case Spurious(i) => SpuriousStep(s, i);
    }
  }

  // ---------------------------------------------------------------- whole runs

  lemma RunHasInv(run: seq<State>)
    requires IsRun(Next, run) && Init(run[0])
    ensures forall k :: 0 <= k < |run| ==> Inv(run[k])
  {
    InitHasInv(run[0]);
    forall s, t | Inv(s) && Next(s, t) ensures Inv(t) {
      StepRefinesFifo(s, t);
    }
    Invariance(Next, Inv, run);
  }

  ghost function AbstractRun(run: seq<State>): seq<Fifo>
    requires forall k :: 0 <= k < |run| ==> Inv(run[k])
  {
    seq(|run|, k requires 0 <= k < |run| => assert Inv(run[k]); Abstract(run[k]))
  }

  /** Refinement: seen through `Abstract`, every interleaving of the producer, the consumers and
      spurious wake-ups is a run of the atomic bounded FIFO that starts empty. */
  lemma RunRefinesFifo(run: seq<State>)
    requires IsRun(Next, run) && Init(run[0])
    ensures forall k :: 0 <= k < |run| ==> Inv(run[k])
    ensures Abstract(run[0]) == Fifo(|run[0].ring.item|, [], [], [])
    ensures IsRun(FifoNext, AbstractRun(run))
  {
    RunHasInv(run);
    forall k | 0 <= k < |run| - 1
      ensures FifoNext(Abstract(run[k]), Abstract(run[k + 1]))
    {
      assert Next(run[k], run[k + 1]);
      StepRefinesFifo(run[k], run[k + 1]);
    }
  }

  /** Nothing is lost, duplicated or reordered: every chunk read is pushed, in order, and whenever
      the mutex is free, the values popped so far followed by the ring are the accepted prefixes
      of the chunks pushed. */
  lemma FifoOrder(run: seq<State>, k: nat)
    requires IsRun(Next, run) && Init(run[0]) && k < |run|
    ensures Inv(run[k])
    ensures run[k].input == Chunks(run[k].log) + Unfinished(run[k].prod)
    ensures run[k].mutex == Free ==> run[k].popped + run[k].ring.Contents() == Accepted(run[k].log)
  {
    RunHasInv(run);
    if run[k].mutex == Free {
      assert Queue(run[k]) == run[k].ring.Contents();
    }
  }

  lemma NoLostWakeup(run: seq<State>, k: nat, i: nat)
    requires IsRun(Next, run) && Init(run[0]) && k < |run|
    requires run[k].ring.cnt > 0 && i < |run[k].cons| && run[k].cons[i] == Waiting
    ensures run[k].prod.Pushing? || run[k].prod.Releasing? || run[k].prod.Broadcasting?
  {
    RunHasInv(run);
  }

  // ---------------------------------------------------------------- a pop is always reachable

  /** Steps a thread still needs before the next value can be taken. */
  function Distance(c: Consumer): int {
    match c
    case Testing => 0
    case Locking => 1
    case Waking => 1
    case Waiting => 2
    case Done => 2
    case Processing(_) => 3
    case Popped(_) => 4
  }

  function ProducerDistance(p: Producer): int {
    match p
    case Pushing(buf, i, _) => if i <= |buf| then 3 + |buf| - i else 3
    case Releasing(_, _) => 2
    case Broadcasting => 1
    case _ => 0
  }

  function Distances(cons: seq<Consumer>): seq<int> {
    seq(|cons|, i requires 0 <= i < |cons| => Distance(cons[i]))
  }

  function PopDistance(s: State): int {
    ProducerDistance(s.prod) + Sum(Distances(s.cons))
  }

  lemma DistancesUpdate(cons: seq<Consumer>, i: nat, c: Consumer)
    requires i < |cons|
    ensures Sum(Distances(cons[i := c])) == Sum(Distances(cons)) - Distance(cons[i]) + Distance(c)
  {
    SumUpdate(Distances(cons), i, Distance(c));
    assert Distances(cons[i := c]) == Distances(cons)[i := Distance(c)];
  }

  lemma PopDistanceNatural(s: State)
    ensures PopDistance(s) >= 0
  {
    SumBounds(Distances(s.cons), 4);
  }

  /** `t` is behind a pop, or closer to one with the value still queued. */
  ghost predicate Closer(s: State, t: State) {
    || |t.popped| == |s.popped| + 1
    || (t.ring.cnt > 0 && |t.cons| == |s.cons| && t.popped == s.popped && PopDistance(t) < PopDistance(s))
  }

  lemma ConsumerCloser(s: State, i: nat)
    requires CanConsume(s, i) && s.ring.cnt > 0
    ensures Closer(s, DoConsume(s, i))
  {
    hide Sum, Distances, Ring.Take;
    DistancesUpdate(s.cons, i, DoConsume(s, i).cons[i]);
    TakeCounts(s);
  }

  lemma TakeCounts(s: State)
    requires 0 < |s.ring.item| && s.ring.idx <= |s.ring.item| && 0 < s.ring.cnt
    ensures s.ring.Take().0.cnt == s.ring.cnt - 1
  {}

  lemma ProducerCloser(s: State)
    requires CanProduce(s) && s.ring.cnt > 0 && PushLimits(s) && !s.prod.Acquiring?
    ensures Closer(s, DoProduce(s))
  {
    hide Sum, Distances;
    WakeDistances(s.cons);
  }

  lemma WakeDistances(cons: seq<Consumer>)
    ensures Sum(Distances(WakeAll(cons))) <= Sum(Distances(cons))
  {
    SumMonotone(Distances(WakeAll(cons)), Distances(cons));
  }

  ghost predicate PushLimits(s: State) {
    s.prod.Pushing? ==> s.prod.i <= |s.prod.buf|
  }

  /** Who steps: the owner of the mutex, or with a free mutex a consumer that does not wait, or else
      the producer, which has not broadcast yet. */
  lemma PopAction(s: State) returns (a: Action)
    requires Inv(s) && s.ring.cnt > 0 && |s.cons| > 0
    ensures a == Produce || a.Consume?
    ensures Enabled(s, a) && PushLimits(s) && (a == Produce ==> !s.prod.Acquiring?)
  {
    hide Accepted, Queue, Ring.Contents, ReadInv;
    if s.mutex == ByProducer {
      a := Produce;
    } else if s.mutex.ByConsumer? {
      a := Consume(s.mutex.who);
    } else if i :| 0 <= i < |s.cons| && s.cons[i] != Waiting {
      a := Consume(i);
    } else {
      assert s.cons[0] == Waiting;
      a := Produce;
    }
  }

  /** With a value queued and a consumer around, some step takes a value or leads closer to one. */
  lemma CloserToPop(s: State) returns (t: State)
    requires Inv(s) && s.ring.cnt > 0 && |s.cons| > 0
    ensures Next(s, t) && Inv(t) && Closer(s, t)
  {
    hide Inv, CanProduce, CanConsume, DoProduce, DoConsume, Closer, FifoNext;
    var a := PopAction(s);
    t := Do(s, a);
    assert Step(s, a, t);
    StepRefinesFifo(s, t);
    if a == Produce {
      ProducerCloser(s);
    } else {
      ConsumerCloser(s, a.i);
    }
  }

  /** From every state with a value queued, a finite run leads to the pop of the next value. */
  lemma PopReachable(s: State) returns (run: seq<State>)
    requires Inv(s) && s.ring.cnt > 0 && |s.cons| > 0
    ensures IsRun(Next, run) && run[0] == s
    ensures |run[|run| - 1].popped| == |s.popped| + 1
    decreases PopDistance(s)
  {
    PopDistanceNatural(s);
    var t := CloserToPop(s);
    if |t.popped| == |s.popped| + 1 {
      run := [s, t];
    } else {
      PopDistanceNatural(t);
      var rest := PopReachable(t);
      run := [s] + rest;
      Prepend(Next, s, rest);
    }
  }

  // ---------------------------------------------------------------- a push always comes through

  ghost predicate ProducerStep(s: State, t: State) {
    Step(s, Produce, t)
  }

  /** Steps of the producer until it is back in `read`. */
  function ProducerLeft(p: Producer): nat {
    match p
    case Reading => 0
    case Acquiring(buf) => |buf| + 4
    case Pushing(buf, i, _) => if i <= |buf| then 3 + |buf| - i else 3
    case Releasing(_, _) => 2
    case Broadcasting => 1
  }

  lemma ProducerGoesOn(s: State)
    requires Inv(s) && s.prod != Reading && (s.prod.Acquiring? ==> s.mutex == Free)
    ensures CanProduce(s)
    ensures s.prod.Pushing? ==> s.prod.i <= |s.prod.buf|
  {
    hide Ring.Contents, Accepted, Queue, MutexInv, WakeInv, ReadInv;
  }

  lemma ProducerAdvances(s: State)
    requires CanProduce(s) && (s.prod.Pushing? ==> s.prod.i <= |s.prod.buf|)
    ensures var t := DoProduce(s);
            && ProducerLeft(t.prod) < ProducerLeft(s.prod) && !t.prod.Acquiring? && |t.cons| == |s.cons|
            && (s.prod.Releasing? <==> t.prod == Broadcasting)
            && Unfinished(t.prod) == if s.prod.Releasing? || s.prod.Broadcasting? then [] else Unfinished(s.prod)
  {
    hide Ring.Put, Ring.FirstFree;
  }

  /** The producer's other steps change nothing in the FIFO. */
  lemma ProducerStutters(s: State)
    requires Inv(s) && CanProduce(s) && !s.prod.Releasing?
    ensures Inv(DoProduce(s)) && Abstract(DoProduce(s)) == Abstract(s)
  {
    hide Ring.Contents, Accepted, ReadInv, PushInv, MutexInv, WakeInv;
    ProduceStep(s);
    if s.prod.Pushing? {
      PushingStep(s);
    }
  }

  /** A producer that finds the mutex free gets through its push on its own, whatever the queue holds:
      in the FIFO this is the push of its chunk, and then it is back in `read`. */
  lemma ProducerAlone(s: State) returns (run: seq<State>)
    requires Inv(s) && s.prod != Reading && (s.prod.Acquiring? ==> s.mutex == Free)
    ensures IsRun(ProducerStep, run) && run[0] == s
    ensures var t := run[|run| - 1];
            && Inv(t) && t.prod == Reading && |t.cons| == |s.cons|
            && if s.prod == Broadcasting then Abstract(t) == Abstract(s)
               else FifoPush(Abstract(s), Abstract(t), Unfinished(s.prod)[0])
    decreases ProducerLeft(s.prod)
  {
    hide Inv, CanProduce, DoProduce, Abstract, FifoPush;
    ProducerGoesOn(s);
    ProducerAdvances(s);
    var t := DoProduce(s);
    assert ProducerStep(s, t);
    if s.prod.Releasing? {
      ReleasingStep(s);
    } else {
      ProducerStutters(s);
    }
    if t.prod == Reading {
      run := [s, t];
    } else {
      var rest := ProducerAlone(t);
      run := [s] + rest;
      Prepend(ProducerStep, s, rest);
    }
  }

  /** Whoever owns the mutex gives it back in a few steps of its own. */
  lemma MutexComesFree(s: State) returns (run: seq<State>)
    requires Inv(s) && s.prod.Acquiring?
    ensures IsRun(Next, run) && run[0] == s
    ensures var t := run[|run| - 1]; Inv(t) && t.mutex == Free && t.prod == s.prod && t.log == s.log
  {
    hide Accepted, Queue, Ring.Contents, FifoNext;
    if s.mutex == Free {
      run := [s];
    } else {
      var i := s.mutex.who;
      var t := DoConsume(s, i);
      assert Step(s, Consume(i), t);
      StepRefinesFifo(s, t);
      if t.mutex == Free {
        run := [s, t];
      } else {
        var u := DoConsume(t, i);
        assert Step(t, Consume(i), u);
        StepRefinesFifo(t, u);
        run := [s, t, u];
      }
    }
  }

  /** From every state in which the producer has a chunk and wants the mutex, a finite run leads to
      the state where that chunk has been pushed and the producer reads again. */
  lemma PushReachable(s: State) returns (run: seq<State>)
    requires Inv(s) && s.prod.Acquiring?
    ensures IsRun(Next, run) && run[0] == s
    ensures var t := run[|run| - 1];
            Inv(t) && t.prod == Reading && |t.log| == |s.log| + 1
            && t.log[..|s.log|] == s.log && t.log[|s.log|].chunk == s.prod.buf
  {
    hide Inv, Next, ProducerStep;
    run := MutexComesFree(s);
    var free := run[|run| - 1];
    var more := ProducerAlone(free);
    ProducerRun(more);
    run := Chain(Next, run, more);
  }

  lemma ProducerRun(run: seq<State>)
    requires IsRun(ProducerStep, run)
    ensures IsRun(Next, run)
  {
    forall i | 0 <= i < |run| - 1
      ensures Next(run[i], run[i + 1])
    {
      assert ProducerStep(run[i], run[i + 1]);
    }
  }

  /** Every chunk can be read and pushed. */
  lemma EveryChunkPushed(s: State, chunk: seq<int>) returns (run: seq<State>)
    requires Inv(s) && s.prod == Reading && chunk != []
    ensures IsRun(Next, run) && run[0] == s
    ensures var t := run[|run| - 1];
            Inv(t) && t.prod == Reading && |t.log| == |s.log| + 1
            && t.log[..|s.log|] == s.log && t.log[|s.log|].chunk == chunk
            && |t.input| == |s.input| + 1 && t.input[|s.input|] == chunk
  {
    hide Accepted, Queue, Ring.Contents, FifoNext, MutexInv, WakeInv, PushInv;
    var t := Do(s, Read(chunk));
    assert Step(s, Read(chunk), t);
    StepRefinesFifo(s, t);
    var rest := PushReachable(t);
    run := [s] + rest;
    Prepend(Next, s, rest);
    assert |Chunks(rest[|rest| - 1].log)| == |s.log| + 1;
  }

  /** Which threads can step: the producer unless it reads or wants a mutex that is taken, a consumer
      unless it waits or wants such a mutex. */
  lemma GoesOnExactly(s: State, i: nat)
    requires Inv(s)
    ensures (exists t :: ProducerStep(s, t)) <==> s.prod != Reading && (s.prod.Acquiring? ==> s.mutex == Free)
    ensures i < |s.cons| ==>
              ((exists t :: Step(s, Consume(i), t)) <==>
               s.cons[i] != Waiting && (s.cons[i] == Locking || s.cons[i] == Waking ==> s.mutex == Free))
  {
    hide Accepted, Queue, Ring.Contents, MutexInv, WakeInv, ReadInv;
    if s.prod != Reading && (s.prod.Acquiring? ==> s.mutex == Free) {
      ProducerGoesOn(s);
      assert ProducerStep(s, DoProduce(s));
    }
    if CanConsume(s, i) {
      assert Step(s, Consume(i), DoConsume(s, i));
    }
  }

  /** Each consumer at a lock gets the mutex whenever it is free, and each waiting one may wake up
      spuriously. */
  lemma AnyoneNext(s: State, i: nat)
    requires Inv(s) && i < |s.cons|
    ensures s.mutex == Free && (s.cons[i] == Locking || s.cons[i] == Waking) ==>
              exists t :: Next(s, t) && t.mutex == ByConsumer(i) && t.cons == s.cons[i := Testing]
    ensures s.cons[i] == Waiting ==> exists t :: Next(s, t) && t.mutex == s.mutex && t.cons == s.cons[i := Waking]
  {
    hide Accepted, Queue, Ring.Contents, MutexInv, WakeInv, PushInv;
    if s.mutex == Free && (s.cons[i] == Locking || s.cons[i] == Waking) {
      assert Step(s, Consume(i), DoConsume(s, i));
      assert Next(s, DoConsume(s, i));
    }
    if s.cons[i] == Waiting {
      assert Step(s, Spurious(i), Do(s, Spurious(i)));
      assert Next(s, Do(s, Spurious(i)));
    }
  }

  // ---------------------------------------------------------------- the queue drains

  /** A step of a consumer of its own accord: no step of the producer, no spurious wake-up. */
  ghost predicate ConsumerStep(s: State, t: State) {
    exists i: nat :: Step(s, Consume(i), t)
  }

  /** What a consumer can still do before it waits, when nothing more is queued. */
  function Work(c: Consumer): int {
    match c
    case Waiting => 0
    case Testing => 1
    case Locking => 2
    case Waking => 2
    case Done => 3
    case Processing(_) => 4
    case Popped(_) => 5
  }

  function Works(cons: seq<Consumer>): seq<int> {
    seq(|cons|, i requires 0 <= i < |cons| => Work(cons[i]))
  }

  /** An upper bound of the consumer steps left. */
  function Measure(s: State): int {
    5 * s.ring.cnt + Sum(Works(s.cons))
  }

  lemma MeasureNatural(s: State)
    ensures Measure(s) >= 0
  {
    SumBounds(Works(s.cons), 5);
  }

  lemma ConsumeDecreases(s: State, i: nat)
    requires CanConsume(s, i)
    ensures DoConsume(s, i).prod == s.prod && Measure(DoConsume(s, i)) < Measure(s)
  {
    var c := DoConsume(s, i).cons[i];
    SumUpdate(Works(s.cons), i, Work(c));
    assert Works(s.cons[i := c]) == Works(s.cons)[i := Work(c)];
  }

  lemma ConsumerStepDecreases(s: State, t: State)
    requires Inv(s) && ConsumerStep(s, t)
    ensures Inv(t) && t.prod == s.prod && |t.cons| == |s.cons| && Measure(t) < Measure(s)
  {
    hide Inv, Measure, FifoNext;
    var i: nat :| Step(s, Consume(i), t);
    ConsumeStep(s, i);
    ConsumeDecreases(s, i);
  }

  ghost predicate Quiet(s: State) {
    && s.ring.cnt == 0 && s.mutex == Free
    && forall i :: 0 <= i < |s.cons| ==> s.cons[i] == Waiting
  }

  /** While the producer is blocked in `read`, the consumers can only stop with the queue empty,
      the mutex free and all of them waiting; and there they do stop. */
  lemma StuckExactlyWhenQuiet(s: State)
    requires Inv(s) && s.prod == Reading && |s.cons| > 0
    ensures Quiet(s) <==> !exists t :: ConsumerStep(s, t)
  {
    if !Quiet(s) {
      var i: nat;
      if s.mutex.ByConsumer? {
        i := s.mutex.who;
      } else {
        assert s.ring.cnt > 0 ==> s.cons[0] != Waiting;
        i :| i < |s.cons| && s.cons[i] != Waiting;
      }
      assert Step(s, Consume(i), DoConsume(s, i));
      assert ConsumerStep(s, DoConsume(s, i));
    }
  }

  /** Termination: with the producer blocked in `read` and no spurious wake-ups, every run of the
      consumers is finite, and one that cannot be prolonged ends quiet. */
  lemma {:induction false} ConsumersComeToRest(run: seq<State>)
    requires IsRun(ConsumerStep, run)
    requires Inv(run[0]) && run[0].prod == Reading && |run[0].cons| > 0
    ensures |run| - 1 <= Measure(run[0])
    ensures var last := run[|run| - 1]; (!exists t :: ConsumerStep(last, t)) ==> Quiet(last)
    decreases |run|
  {
    MeasureNatural(run[0]);
    if |run| == 1 {
      StuckExactlyWhenQuiet(run[0]);
    } else {
      assert ConsumerStep(run[0], run[1]);
      ConsumerStepDecreases(run[0], run[1]);
      ConsumersComeToRest(run[1..]);
    }
  }

  /** A run can start with any capacity, any number of consumers and whatever the slots hold. */
  lemma AnyStart(item: seq<int>, consumers: nat)
    requires item != []
    ensures Init(State(Ring(item, 0, 0), Free, Reading, seq(consumers, _ => Locking), [], [], []))
  {}
}
