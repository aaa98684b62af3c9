/** The threads of Chapter08/cleanup_mutex.c under deferred cancellation, and the main thread that
    joins them.

    Any thread may be cancelled by anyone at any time; the request takes effect when the target is
    at a cancellation point (POSIX.1-2008, System Interfaces, section 2.9.5): the sleeps, and the
    output calls, which may be one. Locking and unlocking a mutex or a stream is not. A thread that is
    cancelled runs its installed cleanup handler, with cancellation disabled, before it ends.

    A message is three output calls between `flockfile` and `funlockfile`. The lock of stdout is
    recursive, and no handler gives it back: a thread cancelled inside a message ends with it. */
module CancelMutex {
  import opened Behaviors
  import opened Sums

  /** Program points of `start_thread`, and of `cleanup_mutex` run as a handler. */
  datatype Point =
    | Starting           // sleep(idx)
    | Locking
    | Locked             // mutex taken, handler not yet installed
    | Asking             // handler installed, before the flockfile of the message
    | Writing            // inside the message
    | Pausing(left: nat) // the sleeps, `left` of them still to come
    | Unguarded          // handler removed, mutex not yet released
    | Released
    | Announcing         // thread 1: before the flockfile of its second message
    | Telling            // thread 1: inside that message
    | Napping            // thread 1: the sleep behind it
    | Cancelling         // thread 1: before pthread_cancel
    | CleanupAsking      // in the handler, before the flockfile of its message
    | CleanupWriting     // in the handler, inside the message
    | CleaningUp         // in the handler, about to unlock
    | Ended

  /** The main thread in `clean_thread`: waiting for thread `k`, then printing about it. */
  datatype Main = Joining(k: nat) | Reporting(k: nat) | Printing(k: nat) | Returned

  const PAUSES := 4
  const CANCELLER := 1

  datatype Owner = Free | By(who: nat) | ByMain

  /** The mutex and the lock of stdout, which its owner has taken `depth` times. `misused` records
      whether some unlock was not by the owner. */
  datatype Locks = Locks(mutex: Owner, stdout: Owner, depth: nat, misused: bool)

  /** A thread: where it stands, how often it has locked and unlocked the mutex, and whether it was
      cancelled inside a message; all but the first record the history. */
  datatype Thread = Thread(point: Point, acquired: nat, released: nat, cut: bool)

  /** `asked` are the cancellation requests made. */
  datatype State = State(locks: Locks, threads: seq<Thread>, main: Main, asked: seq<bool>)

  datatype Action =
    | Run(i: nat)  // the thread's next step
    | Obey(i: nat) // a cancellation request takes effect
    | Ask(i: nat)  // somebody outside these threads cancels thread i
    | MainStep     // the main thread's next step

  ghost predicate Init(s: State) {
    && s.locks == Locks(Free, Free, 0, false) && s.main == Joining(0) && |s.threads| == |s.asked|
    && forall i :: 0 <= i < |s.threads| ==> s.threads[i] == Thread(Starting, 0, 0, false) && !s.asked[i]
  }

  // ---------------------------------------------------------------- steps

  /** Inside a message that a cancellation can cut short. */
  predicate InMessage(p: Point) {
    p.Writing? || p.Telling?
  }

  predicate CancellationPoint(p: Point) {
    p.Starting? || InMessage(p) || p.Pausing? || p.Napping?
  }

  /** Before a `flockfile`. */
  predicate WantsStdout(p: Point) {
    p.Asking? || p.Announcing? || p.CleanupAsking?
  }

  predicate CanAdvance(l: Locks, p: Point, i: nat) {
    && p != Ended && (p == Locking ==> l.mutex == Free)
    && (WantsStdout(p) ==> l.stdout == Free || l.stdout == By(i))
  }

  /** `pthread_mutex_unlock` */
  function Unlock(l: Locks, who: Owner): Locks {
    l.(mutex := Free, misused := l.misused || l.mutex != who)
  }

  /** `flockfile(stdout)` */
  function TakeStdout(l: Locks, who: Owner): Locks {
    l.(stdout := who, depth := l.depth + 1)
  }

  /** `funlockfile(stdout)` */
  function GiveStdout(l: Locks, who: Owner): Locks {
    var wrong := l.misused || l.stdout != who;
    if l.depth <= 1 then l.(stdout := Free, depth := 0, misused := wrong)
    else l.(depth := l.depth - 1, misused := wrong)
  }

  /** The next step of thread `i`, on the locks and on itself. */
  function Advance(l: Locks, th: Thread, i: nat): (Locks, Thread)
    requires CanAdvance(l, th.point, i)
  {
    match th.point
    case Starting => (l, th.(point := Locking))
    case Locking => (l.(mutex := By(i)), th.(point := Locked, acquired := th.acquired + 1))
    case Locked => (l, th.(point := Asking))
    case Asking => (TakeStdout(l, By(i)), th.(point := Writing))
    case Writing => (GiveStdout(l, By(i)), th.(point := Pausing(PAUSES)))
    case Pausing(n) => (l, th.(point := if n > 1 then Pausing(n - 1) else Unguarded))
    case Unguarded => (Unlock(l, By(i)), th.(point := Released, released := th.released + 1))
    case Released => (l, th.(point := if i == CANCELLER then Announcing else Ended))
    case Announcing => (TakeStdout(l, By(i)), th.(point := Telling))
    case Telling => (GiveStdout(l, By(i)), th.(point := Napping))
    case Napping => (l, th.(point := Cancelling))
    case Cancelling => (l, th.(point := Ended))
    case CleanupAsking => (TakeStdout(l, By(i)), th.(point := CleanupWriting))
    case CleanupWriting => (GiveStdout(l, By(i)), th.(point := CleaningUp))
    case CleaningUp => (Unlock(l, By(i)), th.(point := Ended, released := th.released + 1))
  }

  /** A cancellation takes effect: the handler if it is installed, then the end. */
  function Cancelled(th: Thread): Thread {
    th.(point := if th.point.Writing? || th.point.Pausing? then CleanupAsking else Ended,
        cut := th.cut || InMessage(th.point))
  }

  predicate MainCan(l: Locks, threads: seq<Thread>, m: Main) {
    match m
    case Joining(k) => k < |threads| ==> threads[k].point == Ended
    case Reporting(_) => l.stdout == Free
    case Printing(_) => true
    case Returned => false
  }

  predicate Enabled(s: State, a: Action) {
    |s.threads| == |s.asked| &&
    match a
    case Run(i) => i < |s.threads| && CanAdvance(s.locks, s.threads[i].point, i)
    case Obey(i) => i < |s.threads| && s.asked[i] && CancellationPoint(s.threads[i].point)
    case Ask(i) => i < |s.threads| && !s.asked[i]
    case MainStep => MainCan(s.locks, s.threads, s.main)
  }

  function Do(s: State, a: Action): State
    requires Enabled(s, a)
  {
    match a
    case Ask(i) => s.(asked := s.asked[i := true])
    case Obey(i) => s.(threads := s.threads[i := Cancelled(s.threads[i])])
    case Run(i) =>
      var (l, th) := Advance(s.locks, s.threads[i], i);
      s.(locks := l, threads := s.threads[i := th],
         asked := if s.threads[i].point.Cancelling? && i + 1 < |s.asked| then s.asked[i + 1 := true] else s.asked)
    case MainStep =>
      match s.main
      case Joining(k) => s.(main := if k < |s.threads| then Reporting(k) else Returned)
      case Reporting(k) => s.(locks := TakeStdout(s.locks, ByMain), main := Printing(k))
      case Printing(k) => s.(locks := GiveStdout(s.locks, ByMain), main := Joining(k + 1))
  }

  ghost predicate Step(s: State, a: Action, t: State) {
    Enabled(s, a) && t == Do(s, a)
  }

  ghost predicate Next(s: State, t: State) {
    exists a :: Step(s, a, t)
  }

  // ---------------------------------------------------------------- invariant

  predicate InHandler(p: Point) {
    p.CleanupAsking? || p.CleanupWriting? || p.CleaningUp?
  }

  /** Program points at which the thread owns the mutex. */
  predicate Owns(p: Point) {
    p.Locked? || p.Asking? || p.Writing? || p.Pausing? || p.Unguarded? || InHandler(p)
  }

  /** Program points before the thread has locked. */
  predicate Early(p: Point) {
    p.Starting? || p.Locking?
  }

  /** How often the thread has locked stdout: once for the message it is in, and once for good if it
      was cancelled inside one. */
  function Holds(th: Thread): nat {
    (if InMessage(th.point) || th.point.CleanupWriting? then 1 else 0) + if th.cut then 1 else 0
  }

  /** The mutex agrees with where thread `i` stands. */
  predicate MutexInv(l: Locks, th: Thread, i: nat) {
    && (l.mutex == By(i) <==> Owns(th.point))
    && th.acquired == th.released + (if Owns(th.point) then 1 else 0)
    && th.acquired <= 1 && (Early(th.point) ==> th.acquired == 0)
    && (!Early(th.point) && th.point != Ended ==> th.acquired == 1)
  }

  /** So does the lock of stdout. */
  predicate StdoutInv(l: Locks, th: Thread, i: nat) {
    && (l.stdout == By(i) <==> Holds(th) > 0) && (l.stdout == By(i) ==> l.depth == Holds(th))
    && (th.cut ==> InHandler(th.point) || th.point.Ended?)
  }

  predicate ThreadInv(l: Locks, th: Thread, i: nat) {
    MutexInv(l, th, i) && StdoutInv(l, th, i) && (th.point.Pausing? ==> th.point.left <= PAUSES)
  }

  predicate LocksInv(l: Locks, threads: nat) {
    && !l.misused && l.mutex != ByMain && (l.mutex.By? ==> l.mutex.who < threads)
    && (l.stdout.By? ==> l.stdout.who < threads) && (l.stdout == Free ==> l.depth == 0)
  }

  /** The threads that the main thread has joined and printed about, or is printing about. */
  function Told(s: State): nat {
    match s.main
    case Joining(k) => k
    case Reporting(k) => k
    case Printing(k) => k + 1
    case Returned => |s.threads|
  }

  /** The main thread gets past a thread only if that has ended and left stdout alone. */
  ghost predicate MainInv(s: State) {
    && Told(s) <= |s.threads|
    && (s.main.Reporting? ==> s.main.k < |s.threads| && s.threads[s.main.k].point == Ended)
    && (s.locks.stdout == ByMain <==> s.main.Printing?) && (s.locks.stdout == ByMain ==> s.locks.depth == 1)
    && forall i :: 0 <= i < Told(s) ==> s.threads[i].point == Ended && !s.threads[i].cut
  }

  ghost predicate Inv(s: State) {
    && |s.threads| == |s.asked| && LocksInv(s.locks, |s.threads|) && MainInv(s)
    && forall i: nat :: i < |s.threads| ==> ThreadInv(s.locks, s.threads[i], i)
  }

  // ---------------------------------------------------------------- every step

  /** A thread's step keeps its own agreement with the locks. */
  lemma OwnStep(l: Locks, th: Thread, i: nat, n: nat)
    requires CanAdvance(l, th.point, i) && ThreadInv(l, th, i) && LocksInv(l, n) && i < n
    ensures var (l', th') := Advance(l, th, i); ThreadInv(l', th', i) && LocksInv(l', n)
  {
    hide MutexInv, StdoutInv;
    OwnStepKeepsMutex(l, th, i);
    OwnStepKeepsStdout(l, th, i);
    OwnStepKeepsLocks(l, th, i, n);
  }

  lemma OwnStepKeepsMutex(l: Locks, th: Thread, i: nat)
    requires CanAdvance(l, th.point, i) && MutexInv(l, th, i)
    ensures var (l', th') := Advance(l, th, i); MutexInv(l', th', i)
  {}

  lemma OwnStepKeepsStdout(l: Locks, th: Thread, i: nat)
    requires CanAdvance(l, th.point, i) && StdoutInv(l, th, i) && (l.stdout == Free ==> l.depth == 0)
    ensures var (l', th') := Advance(l, th, i); StdoutInv(l', th', i)
  {}

  lemma OwnStepKeepsLocks(l: Locks, th: Thread, i: nat, n: nat)
    requires CanAdvance(l, th.point, i) && ThreadInv(l, th, i) && LocksInv(l, n) && i < n
    ensures LocksInv(Advance(l, th, i).0, n)
  {}

  /** It takes only locks that nobody holds, and gives only its own. */
  lemma OthersStep(l: Locks, th: Thread, i: nat, other: Thread, j: nat)
    requires CanAdvance(l, th.point, i) && ThreadInv(l, th, i) && ThreadInv(l, other, j) && i != j
    ensures ThreadInv(Advance(l, th, i).0, other, j)
    ensures Advance(l, th, i).0.stdout == ByMain <==> l.stdout == ByMain
    ensures l.stdout == ByMain ==> Advance(l, th, i).0.depth == l.depth
  {}

  lemma CancelledAgrees(l: Locks, th: Thread, i: nat)
    requires ThreadInv(l, th, i) && CancellationPoint(th.point)
    ensures ThreadInv(l, Cancelled(th), i)
  {}

  lemma RunKeepsInv(s: State, i: nat)
    requires Inv(s) && Enabled(s, Run(i))
    ensures Inv(Do(s, Run(i)))
  {
    hide Advance, ThreadInv, CanAdvance, LocksInv, MainInv;
    OwnStep(s.locks, s.threads[i], i, |s.threads|);
    forall j: nat | j < |s.threads| && j != i
      ensures ThreadInv(Do(s, Run(i)).locks, s.threads[j], j)
    {
      OthersStep(s.locks, s.threads[i], i, s.threads[j], j);
    }
    RunKeepsMain(s, i);
  }

  lemma RunKeepsMain(s: State, i: nat)
    requires Inv(s) && Enabled(s, Run(i))
    ensures MainInv(Do(s, Run(i)))
  {
    hide Advance, LocksInv;
    StdoutOfMain(s.locks, s.threads[i], i);
  }

  lemma StdoutOfMain(l: Locks, th: Thread, i: nat)
    requires CanAdvance(l, th.point, i) && ThreadInv(l, th, i)
    ensures th.point != Ended
    ensures var l' := Advance(l, th, i).0;
            (l'.stdout == ByMain <==> l.stdout == ByMain) && (l.stdout == ByMain ==> l'.depth == l.depth)
  {}

  lemma ObeyKeepsInv(s: State, i: nat)
    requires Inv(s) && Enabled(s, Obey(i))
    ensures Inv(Do(s, Obey(i)))
  {
    hide ThreadInv, LocksInv, Cancelled;
    CancelledAgrees(s.locks, s.threads[i], i);
  }

  /** A joined thread that kept stdout keeps the main thread from printing. */
  lemma MainKeepsInv(s: State)
    requires Inv(s) && Enabled(s, MainStep)
    ensures Inv(Do(s, MainStep))
  {
    if s.main.Reporting? {
      assert ThreadInv(s.locks, s.threads[s.main.k], s.main.k);
    }
  }

  lemma StepKeepsInv(s: State, t: State)
    requires Inv(s) && Next(s, t)
    ensures Inv(t)
  {
    hide ThreadInv, LocksInv, CanAdvance, CancellationPoint, MainCan;
    var a :| Step(s, a, t);
    match a {
      case Run(i) => RunKeepsInv(s, i);
      case Obey(i) => ObeyKeepsInv(s, i);
      case Ask(i) =>
      case MainStep => MainKeepsInv(s);
    }
  }

  lemma RunHasInv(run: seq<State>)
    requires IsRun(Next, run) && Init(run[0])
    ensures forall k :: 0 <= k < |run| ==> Inv(run[k])
  {
    hide Next;
    forall s, t | Inv(s) && Next(s, t) ensures Inv(t) {
      StepKeepsInv(s, t);
    }
    Invariance(Next, Inv, run);
  }

  /** In every reachable state, whoever was cancelled when: every unlock so far, of the mutex and of
      stdout, was by the owner, no thread that has ended owns the mutex, and each has released it
      exactly as often as it acquired it, at most once. */
  lemma MutexAlwaysReleased(run: seq<State>, k: nat)
    requires IsRun(Next, run) && Init(run[0]) && k < |run|
    ensures !run[k].locks.misused
    ensures forall i: nat :: i < |run[k].threads| && run[k].threads[i].point == Ended ==>
              && run[k].locks.mutex != By(i)
              && run[k].threads[i].released == run[k].threads[i].acquired <= 1
  {
    hide Next;
    RunHasInv(run);
    forall i: nat | i < |run[k].threads| && run[k].threads[i].point == Ended
      ensures run[k].locks.mutex != By(i) && run[k].threads[i].released == run[k].threads[i].acquired <= 1
    {
      assert ThreadInv(run[k].locks, run[k].threads[i], i);
    }
  }

  // ---------------------------------------------------------------- the lock of stdout

  /** A cancellation takes effect on thread `i` inside a message. */
  ghost predicate CutShort(s: State, t: State, i: nat) {
    i < |s.threads| && InMessage(s.threads[i].point) && Step(s, Obey(i), t)
  }

  lemma CutStep(s: State, t: State, i: nat)
    requires Next(s, t) && i < |s.threads|
    ensures |t.threads| == |s.threads| && (t.threads[i].cut <==> s.threads[i].cut || CutShort(s, t, i))
  {
    var a :| Step(s, a, t);
  }

  lemma NextKeepsThreads(s: State, t: State)
    requires Next(s, t)
    ensures |t.threads| == |s.threads|
  {}

  lemma {:induction false} RunKeepsThreads(run: seq<State>, k: nat)
    requires IsRun(Next, run) && k < |run|
    ensures |run[k].threads| == |run[0].threads|
  {
    hide Next;
    if 0 < k {
      assert Next(run[k - 1], run[k]);
      NextKeepsThreads(run[k - 1], run[k]);
      RunKeepsThreads(run, k - 1);
    }
  }

  /** Thread `i` was cancelled inside a message in one of the first `k` steps. */
  ghost predicate CutBefore(run: seq<State>, k: nat, i: nat)
    requires k < |run|
  {
    exists m :: 0 <= m < k && CutShort(run[m], run[m + 1], i)
  }

  ghost predicate CutIn(run: seq<State>, i: nat)
    requires |run| > 0
  {
    CutBefore(run, |run| - 1, i)
  }

  /** The history says what happened. */
  lemma {:induction false} CutExactly(run: seq<State>, k: nat, i: nat)
    requires IsRun(Next, run) && Init(run[0]) && k < |run| && i < |run[0].threads|
    ensures |run[k].threads| == |run[0].threads|
    ensures run[k].threads[i].cut <==> CutBefore(run, k, i)
  {
    hide Next, CutShort;
    RunKeepsThreads(run, k);
    if 0 < k {
      assert Next(run[k - 1], run[k]);
      CutExactly(run, k - 1, i);
      CutStep(run[k - 1], run[k], i);
    }
  }

  /** Some thread was cancelled inside a message. */
  ghost predicate SomeCut(s: State) {
    exists i :: 0 <= i < |s.threads| && s.threads[i].cut
  }

  lemma SomeCutExactly(run: seq<State>)
    requires IsRun(Next, run) && Init(run[0])
    ensures SomeCut(run[|run| - 1]) <==> exists i: nat :: i < |run[0].threads| && CutIn(run, i)
  {
    hide Next, CutBefore;
    var last := run[|run| - 1];
    RunKeepsThreads(run, |run| - 1);
    forall i: nat | i < |run[0].threads|
      ensures last.threads[i].cut <==> CutIn(run, i)
    {
      CutExactly(run, |run| - 1, i);
    }
    if SomeCut(last) {
      var i: nat :| i < |last.threads| && last.threads[i].cut;
      assert CutIn(run, i);
    }
  }

  /** A thread that has ended still holds stdout exactly if a cancellation took effect inside one of
      its messages. */
  lemma StdoutKeptExactly(run: seq<State>, k: nat, i: nat)
    requires IsRun(Next, run) && Init(run[0]) && k < |run| && i < |run[0].threads|
    ensures |run[k].threads| == |run[0].threads|
    ensures run[k].threads[i].point == Ended ==> (run[k].locks.stdout == By(i) <==> CutBefore(run, k, i))
  {
    hide Next, CutBefore;
    RunHasInv(run);
    CutExactly(run, k, i);
    assert ThreadInv(run[k].locks, run[k].threads[i], i);
  }

  // ---------------------------------------------------------------- every run ends

  function StepsLeft(p: Point): nat {
    match p
    case Starting => PAUSES + 12
    case Locking => PAUSES + 11
    case Locked => PAUSES + 10
    case Asking => PAUSES + 9
    case Writing => PAUSES + 8
    case Pausing(n) => 7 + n
    case Unguarded => 6
    case Released => 5
    case Announcing => 4
    case Telling => 3
    case Napping => 2
    case Cancelling => 1
    case CleanupAsking => 3
    case CleanupWriting => 2
    case CleaningUp => 1
    case Ended => 0
  }

  function MainLeft(m: Main, n: nat): int {
    match m
    case Joining(k) => 3 * (n - k) + 1
    case Reporting(k) => 3 * (n - k)
    case Printing(k) => 3 * (n - k) - 1
    case Returned => 0
  }

  function Left(threads: seq<Thread>): seq<int> {
    seq(|threads|, i requires 0 <= i < |threads| => StepsLeft(threads[i].point))
  }

  function Unasked(asked: seq<bool>): seq<int> {
    seq(|asked|, i requires 0 <= i < |asked| => if asked[i] then 0 else 1)
  }

  /** Steps left, plus requests that can still be made. */
  function Measure(s: State): int {
    Sum(Left(s.threads)) + Sum(Unasked(s.asked)) + MainLeft(s.main, |s.threads|)
  }

  lemma AdvanceDecreases(l: Locks, th: Thread, i: nat)
    requires CanAdvance(l, th.point, i)
    ensures StepsLeft(Advance(l, th, i).1.point) < StepsLeft(th.point)
  {}

  lemma CancelledDecreases(th: Thread)
    requires CancellationPoint(th.point)
    ensures StepsLeft(Cancelled(th).point) < StepsLeft(th.point)
  {}

  lemma LeftUpdate(threads: seq<Thread>, i: nat, th: Thread)
    requires i < |threads|
    ensures Sum(Left(threads[i := th])) == Sum(Left(threads)) - StepsLeft(threads[i].point) + StepsLeft(th.point)
  {
    SumUpdate(Left(threads), i, StepsLeft(th.point));
    assert Left(threads[i := th]) == Left(threads)[i := StepsLeft(th.point)];
  }

  lemma AskedUpdate(asked: seq<bool>, i: nat)
    requires i < |asked|
    ensures Sum(Unasked(asked[i := true])) == Sum(Unasked(asked)) - if asked[i] then 0 else 1
  {
    SumUpdate(Unasked(asked), i, 0);
    assert Unasked(asked[i := true]) == Unasked(asked)[i := 0];
  }

  lemma RunDecreases(s: State, i: nat)
    requires Enabled(s, Run(i))
    ensures Measure(Do(s, Run(i))) < Measure(s)
  {
    hide Advance, Sum, Left, Unasked, StepsLeft, CanAdvance;
    var th := Advance(s.locks, s.threads[i], i).1;
    AdvanceDecreases(s.locks, s.threads[i], i);
    LeftUpdate(s.threads, i, th);
    if i + 1 < |s.asked| {
      AskedUpdate(s.asked, i + 1);
    }
  }

  lemma StepDecreases(s: State, t: State)
    requires Inv(s) && Next(s, t)
    ensures Measure(t) < Measure(s)
  {
    hide Advance, Sum, Left, Unasked, StepsLeft, CanAdvance, CancellationPoint, Cancelled, ThreadInv, LocksInv;
    var a :| Step(s, a, t);
    match a {
      case Run(i) => RunDecreases(s, i);
      case Obey(i) =>
        CancelledDecreases(s.threads[i]);
        LeftUpdate(s.threads, i, Cancelled(s.threads[i]));
      case Ask(i) => AskedUpdate(s.asked, i);
      case MainStep =>
    }
  }

  lemma MeasureNatural(s: State)
    requires Inv(s)
    ensures 0 <= Measure(s)
  {
    forall i: nat | i < |s.threads|
      ensures 0 <= Left(s.threads)[i] <= PAUSES + 12
    {
      assert ThreadInv(s.locks, s.threads[i], i);
    }
    SumBounds(Left(s.threads), PAUSES + 12);
    SumBounds(Unasked(s.asked), 1);
  }

  lemma {:induction false} RunsAreFinite(run: seq<State>)
    requires IsRun(Next, run) && Inv(run[0])
    ensures |run| - 1 <= Measure(run[0])
    decreases |run|
  {
    hide Inv, Next, Measure;
    MeasureNatural(run[0]);
    if |run| > 1 {
      assert Next(run[0], run[1]);
      StepKeepsInv(run[0], run[1]);
      StepDecreases(run[0], run[1]);
      RunsAreFinite(run[1..]);
    }
  }

  // ---------------------------------------------------------------- how a run ends

  /** Neither a thread nor the main thread can take a step. */
  ghost predicate Stuck(s: State) {
    forall a: Action :: Enabled(s, a) ==> a.Ask?
  }

  /** The main thread has returned, all threads have ended and both locks are free. */
  ghost predicate Finished(s: State) {
    && s.main == Returned && s.locks.mutex == Free && s.locks.stdout == Free
    && forall i :: 0 <= i < |s.threads| ==> s.threads[i].point == Ended
  }

  lemma StdoutOwnerGoesOn(s: State)
    requires Inv(s) && !SomeCut(s) && s.locks.stdout != Free
    ensures !Stuck(s)
  {
    if s.locks.stdout == ByMain {
      assert Enabled(s, MainStep);
    } else {
      var i := s.locks.stdout.who;
      assert ThreadInv(s.locks, s.threads[i], i);
      assert Enabled(s, Run(i));
    }
  }

  lemma MutexOwnerGoesOn(s: State)
    requires Inv(s) && s.locks.stdout == Free && s.locks.mutex != Free
    ensures !Stuck(s)
  {
    var i := s.locks.mutex.who;
    assert ThreadInv(s.locks, s.threads[i], i);
    assert Enabled(s, Run(i));
  }

  /** If no thread was cancelled inside a message, some thread can take a step until the main thread
      has returned: no other cancellation locks the rest out. */
  lemma NoDeadlock(s: State)
    requires Inv(s) && !SomeCut(s) && s.main != Returned
    ensures !Stuck(s)
  {
    hide ThreadInv;
    if s.locks.stdout != Free {
      StdoutOwnerGoesOn(s);
    } else if s.locks.mutex != Free {
      MutexOwnerGoesOn(s);
    } else if i: nat :| i < |s.threads| && s.threads[i].point != Ended {
      assert Enabled(s, Run(i));
    } else {
      assert Enabled(s, MainStep);
    }
  }

  /** After the return of the main thread nothing is left over. */
  lemma ReturnedClean(s: State)
    requires Inv(s) && s.main == Returned
    ensures Finished(s) && !SomeCut(s)
  {
    forall i: nat | i < |s.threads|
      ensures s.locks.mutex != By(i) && s.locks.stdout != By(i)
    {
      assert ThreadInv(s.locks, s.threads[i], i);
    }
  }

  /** Every run is finite, and one that cannot go on has all threads joined, the main thread back
      and both locks free exactly if no cancellation took effect inside a message. Otherwise the
      main thread never returns. */
  lemma RunsEnd(run: seq<State>)
    requires IsRun(Next, run) && Init(run[0])
    ensures |run| - 1 <= Measure(run[0])
    ensures var last := run[|run| - 1];
            && (last.main == Returned ==> Finished(last))
            && (Stuck(last) ==>
                  (last.main == Returned <==>
                   forall i: nat :: i < |run[0].threads| ==> !CutIn(run, i)))
  {
    hide Inv, Next, Measure, Stuck, CutIn, SomeCut, Finished;
    var last := run[|run| - 1];
    RunHasInv(run);
    RunsAreFinite(run);
    SomeCutExactly(run);
    if last.main == Returned {
      ReturnedClean(last);
    } else if !SomeCut(last) {
      NoDeadlock(last);
    }
  }

  // ---------------------------------------------------------------- a message cut short

  /** A step of the program itself: nobody outside cancels anyone. */
  ghost predicate Own(s: State, t: State) {
    exists a: Action :: !a.Ask? && Step(s, a, t)
  }

  /** Thread `i` has not been cancelled, and both locks are its own or free. */
  ghost predicate Alone(s: State, i: nat) {
    && Inv(s) && i < |s.threads| && !InHandler(s.threads[i].point) && !s.threads[i].cut
    && (s.locks.mutex == Free || s.locks.mutex == By(i)) && (s.locks.stdout == Free || s.locks.stdout == By(i))
  }

  /** Nothing but thread `i` differs, and requests are not withdrawn. */
  ghost predicate OnlyMoved(s: State, t: State, i: nat) {
    && |t.threads| == |s.threads| == |t.asked| == |s.asked| && t.main == s.main
    && (forall j :: 0 <= j < |s.threads| && j != i ==> t.threads[j] == s.threads[j])
    && (forall j :: 0 <= j < |s.asked| && s.asked[j] ==> t.asked[j])
  }

  lemma StepAlone(s: State, i: nat)
    requires Alone(s, i) && s.threads[i].point != Ended
    ensures Enabled(s, Run(i)) && Own(s, Do(s, Run(i)))
    ensures var t := Do(s, Run(i));
            && Alone(t, i) && OnlyMoved(s, t, i) && StepsLeft(t.threads[i].point) < StepsLeft(s.threads[i].point)
            && (t.threads[i].point == Ended ==> t.threads[i].acquired == 1)
            && (i == CANCELLER && i + 1 < |s.threads| && t.threads[i].point == Ended ==> t.asked[i + 1])
  {
    hide LocksInv, MainInv, ThreadInv, Advance, StepsLeft;
    AdvanceAlone(s.locks, s.threads[i], i);
    AdvanceDecreases(s.locks, s.threads[i], i);
    assert ThreadInv(s.locks, s.threads[i], i);
    if !Early(s.threads[i].point) {
      AcquiredOnce(s.locks, s.threads[i], i);
    }
    RunKeepsInv(s, i);
    assert Step(s, Run(i), Do(s, Run(i)));
  }

  lemma AcquiredOnce(l: Locks, th: Thread, i: nat)
    requires ThreadInv(l, th, i) && !Early(th.point) && th.point != Ended
    ensures th.acquired == 1
  {}

  lemma AdvanceAlone(l: Locks, th: Thread, i: nat)
    requires th.point != Ended && !InHandler(th.point) && !th.cut && ThreadInv(l, th, i)
    requires (l.mutex == Free || l.mutex == By(i)) && (l.stdout == Free || l.stdout == By(i))
    ensures CanAdvance(l, th.point, i)
    ensures var (l', th') := Advance(l, th, i);
            && !InHandler(th'.point) && !th'.cut
            && (l'.mutex == Free || l'.mutex == By(i)) && (l'.stdout == Free || l'.stdout == By(i))
            && (th'.point == Ended ==> !Early(th.point) && th'.acquired == th.acquired)
            && (i == CANCELLER && th'.point == Ended ==> th.point == Cancelling)
  {}

  /** Left alone, a thread ends with both locks free, and thread 1 has cancelled thread 2. */
  lemma EndsAlone(s: State, i: nat) returns (run: seq<State>)
    requires Alone(s, i) && s.threads[i].point != Ended
    ensures IsRun(Own, run) && run[0] == s
    ensures var t := run[|run| - 1];
            && Inv(t) && OnlyMoved(s, t, i) && t.threads[i].point == Ended && !t.threads[i].cut
            && t.threads[i].acquired == 1
            && t.locks.mutex == Free && t.locks.stdout == Free
            && (i == CANCELLER && i + 1 < |s.threads| ==> t.asked[i + 1])
    decreases StepsLeft(s.threads[i].point)
  {
    hide Do, Enabled, Own, StepsLeft, MainInv, LocksInv;
    StepAlone(s, i);
    var t := Do(s, Run(i));
    if t.threads[i].point == Ended {
      assert ThreadInv(t.locks, t.threads[i], i);
      run := [s, t];
    } else {
      var rest := EndsAlone(t, i);
      run := [s] + rest;
      Prepend(Own, s, rest);
    }
  }

  /** A cancellation request made while the thread waits for the mutex meets it in its message: it
      unlocks the mutex and ends, and stdout is locked for good. */
  lemma DiesInMessage(s: State, i: nat) returns (run: seq<State>)
    requires Inv(s) && i < |s.threads| && s.threads[i].point == Locking && !s.threads[i].cut && s.asked[i]
    requires s.locks.mutex == Free && s.locks.stdout == Free
    ensures IsRun(Own, run) && run[0] == s
    ensures var t := run[|run| - 1];
            && Inv(t) && OnlyMoved(s, t, i) && t.threads[i].point == Ended
            && t.locks.stdout == By(i) && t.locks.mutex == Free
  {
    hide Inv, Do, Enabled, Own, OnlyMoved, GiveStdout;
    Sized(s);
    var first := StartsMessage(s, i);
    var t := first[|first| - 1];
    var t1 := Obeys(t, i);
    CutHolds(t1, i);
    var t2 := Moves(t1, i);
    var t3 := Moves(t2, i);
    var t4 := Moves(t3, i);
    CutHolds(t4, i);
    ByAllButOne(s, t, t4, i);
    run := Chain(Own, first, [t, t1, t2, t3, t4]);
  }

  lemma ByAllButOne(s: State, t: State, u: State, i: nat)
    requires OnlyMoved(s, t, i) && i < |t.threads| == |u.threads| && u.main == t.main && u.asked == t.asked
    requires u.threads == t.threads[i := u.threads[i]]
    ensures OnlyMoved(s, u, i)
  {}

  lemma CutHolds(s: State, i: nat)
    requires Inv(s) && i < |s.threads| && s.threads[i].cut
    ensures s.locks.stdout == By(i) && |s.asked| == |s.threads|
    ensures s.threads[i].point == Ended && s.locks.mutex.By? ==> s.locks.mutex != By(i)
  {
    assert ThreadInv(s.locks, s.threads[i], i);
  }

  lemma StartsMessage(s: State, i: nat) returns (run: seq<State>)
    requires Inv(s) && i < |s.threads| && s.threads[i].point == Locking && !s.threads[i].cut
    requires s.locks.mutex == Free && s.locks.stdout == Free
    ensures IsRun(Own, run) && run[0] == s
    ensures var t := run[|run| - 1];
            && Inv(t) && OnlyMoved(s, t, i) && t.asked == s.asked && i < |t.threads|
            && t.threads[i].point == Writing && t.locks.mutex == By(i)
  {
    hide Inv, Do, Enabled, Own;
    Sized(s);
    var s1 := Moves(s, i);
    var s2 := Moves(s1, i);
    var s3 := Moves(s2, i);
    run := [s, s1, s2, s3];
  }

  lemma Sized(s: State)
    requires Inv(s)
    ensures |s.threads| == |s.asked|
  {}

  lemma Moves(s: State, i: nat) returns (t: State)
    requires Inv(s) && i < |s.threads| && CanAdvance(s.locks, s.threads[i].point, i) && !s.threads[i].point.Cancelling?
    ensures Own(s, t) && Inv(t)
    ensures var (l, th) := Advance(s.locks, s.threads[i], i); t == s.(locks := l, threads := s.threads[i := th])
  {
    hide ThreadInv, LocksInv, MainInv, Advance, CanAdvance;
    t := OneMore(s, Run(i));
  }

  lemma Obeys(s: State, i: nat) returns (t: State)
    requires Inv(s) && i < |s.threads| && i < |s.asked| && s.asked[i] && CancellationPoint(s.threads[i].point)
    ensures Own(s, t) && Inv(t) && t == s.(threads := s.threads[i := Cancelled(s.threads[i])])
  {
    hide ThreadInv, LocksInv, MainInv, Cancelled;
    t := OneMore(s, Obey(i));
  }

  lemma OneMore(s: State, a: Action) returns (t: State)
    requires Inv(s) && Enabled(s, a) && !a.Ask?
    ensures t == Do(s, a) && Own(s, t) && Inv(t)
  {
    hide Inv, Enabled, Do;
    t := Do(s, a);
    assert Step(s, a, t);
    StepKeepsInv(s, t);
  }

  /** Stdout is locked for good and thread `v` has not written its message. */
  ghost predicate LockedOut(s: State, v: nat) {
    && Inv(s) && v < |s.threads|
    && s.locks.stdout.By? && s.locks.stdout.who < |s.threads| && s.threads[s.locks.stdout.who].point == Ended
    && (Early(s.threads[v].point) || s.threads[v].point.Locked? || s.threads[v].point.Asking?)
  }

  lemma StaysLockedOut(s: State, v: nat, a: Action)
    requires LockedOut(s, v) && Enabled(s, a) && (a.Run? || a.MainStep?)
    ensures Own(s, Do(s, a)) && LockedOut(Do(s, a), v)
  {
    hide ThreadInv, LocksInv, MainInv;
    var t := OneMore(s, a);
    if a.Run? {
      var k := s.locks.stdout.who;
      assert ThreadInv(s.locks, s.threads[k], k);
      assert ThreadInv(s.locks, s.threads[a.i], a.i);
      KeepsOut(s.locks, s.threads[a.i], a.i, k);
    } else {
      MainKeptOut(s);
    }
  }

  lemma MainKeptOut(s: State)
    requires MainInv(s) && s.locks.stdout.By? && Enabled(s, MainStep)
    ensures var t := Do(s, MainStep); t.locks == s.locks && t.threads == s.threads
  {}

  /** A thread that is still to write cannot pass its `flockfile`, and stdout stays where it is. */
  lemma KeepsOut(l: Locks, th: Thread, i: nat, k: nat)
    requires CanAdvance(l, th.point, i) && ThreadInv(l, th, i) && l.stdout == By(k) && k != i
    ensures var (l', th') := Advance(l, th, i);
            && l'.stdout == l.stdout
            && (Early(th.point) || th.point.Locked? || th.point.Asking? ==>
                  Early(th'.point) || th'.point.Locked? || th'.point.Asking?)
  {}

  /** The others go on until none can. */
  lemma LockedOutToTheEnd(s: State, v: nat) returns (run: seq<State>)
    requires LockedOut(s, v)
    ensures IsRun(Own, run) && run[0] == s
    ensures Stuck(run[|run| - 1]) && LockedOut(run[|run| - 1], v) && |run[|run| - 1].threads| == |s.threads|
    decreases Measure(s)
  {
    hide ThreadInv, LocksInv, MainInv, Measure, MainCan, CanAdvance, Own;
    MeasureNatural(s);
    if a: Action :| (a.Run? || a.MainStep?) && Enabled(s, a) {
      var t := Do(s, a);
      StaysLockedOut(s, v, a);
      assert Step(s, a, t);
      StepDecreases(s, t);
      NextKeepsThreads(s, t);
      MeasureNatural(t);
      var rest := LockedOutToTheEnd(t, v);
      run := [s] + rest;
      Prepend(Own, s, rest);
    } else {
      forall a: Action | Enabled(s, a)
        ensures a.Ask?
      {
        if a.Obey? {
          PointsGoOn(s, a.i);
        }
      }
      run := [s];
    }
  }

  /** At a cancellation point a thread can also go on. */
  lemma PointsGoOn(s: State, i: nat)
    requires Enabled(s, Obey(i))
    ensures Enabled(s, Run(i))
  {}

  /** Why the condition is needed: with five threads or more the program's own cancellation can meet
      thread 2 inside its message, and then the rest are locked out and the main thread does not
      return. */
  lemma MessageCutDeadlocks(s: State) returns (run: seq<State>)
    requires Init(s) && |s.threads| >= 5
    ensures IsRun(Own, run) && run[0] == s
    ensures var last := run[|run| - 1];
            && Stuck(last) && last.main != Returned
            && |last.threads| == |s.threads| && last.threads[4].point != Ended
            && last.locks.stdout.By? && last.locks.stdout.who < |last.threads|
            && last.threads[last.locks.stdout.who].point == Ended
  {
    hide Own, Stuck, Do, Enabled, ThreadInv, LocksInv;
    run := CutAfterCancel(s);
    var rest := LockedOutToTheEnd(run[|run| - 1], 4);
    KeptFromReturning(rest[|rest| - 1]);
    run := Chain(Own, run, rest);
  }

  lemma KeptFromReturning(s: State)
    requires Inv(s) && s.locks.stdout != Free
    ensures s.main != Returned
  {
    if s.main == Returned {
      ReturnedClean(s);
    }
  }

  /** Threads 0 and 1 go through, thread 2 is cancelled while it waits for the mutex and thread 3 goes
      through before it gets it. */
  lemma CutAfterCancel(s: State) returns (run: seq<State>)
    requires Init(s) && |s.threads| >= 5
    ensures IsRun(Own, run) && run[0] == s
    ensures var t := run[|run| - 1]; LockedOut(t, 4) && |t.threads| == |s.threads|
  {
    hide Own, ThreadInv, LocksInv, MainInv, Advance, CanAdvance;
    InitHasInv(s);
    StartingTwo(s);
    var t0 := OneMore(s, Run(2));
    var run0 := EndsAlone(t0, 0);
    var run1 := EndsAlone(run0[|run0| - 1], 1);
    var run3 := EndsAlone(run1[|run1| - 1], 3);
    var run2 := DiesInMessage(run3[|run3| - 1], 2);
    run := Chain(Own, [s, t0], run0);
    run := Chain(Own, run, run1);
    run := Chain(Own, run, run3);
    run := Chain(Own, run, run2);
  }

  lemma StartingTwo(s: State)
    requires Init(s) && |s.threads| >= 5
    ensures Enabled(s, Run(2)) && Do(s, Run(2)) == s.(threads := s.threads[2 := Thread(Locking, 0, 0, false)])
  {}

  lemma InitHasInv(s: State)
    requires Init(s)
    ensures Inv(s)
  {}

  // ---------------------------------------------------------------- what a thread can do next

  /** A thread can go on unless it wants a lock that another holds; a request takes effect at the
      sleeps and inside messages outside the handler, and nowhere else; and requests can be made at
      any time. */
  lemma GoesOnExactly(s: State, i: nat)
    requires Inv(s) && i < |s.threads|
    ensures var p, l := s.threads[i].point, s.locks;
            && ((exists t :: Step(s, Run(i), t)) <==>
                 match p
                 case Locking => l.mutex == Free
                 case Asking => l.stdout == Free
                 case Announcing => l.stdout == Free
                 case CleanupAsking => l.stdout == Free || l.stdout == By(i)
                 case Ended => false
                 case _ => true)
            && ((exists t :: Step(s, Obey(i), t)) <==>
                 s.asked[i] && match p
                               case Starting => true
                               case Writing => true
                               case Pausing(_) => true
                               case Telling => true
                               case Napping => true
                               case _ => false)
            && ((exists t :: Step(s, Ask(i), t) && t == s.(asked := s.asked[i := true])) <==> !s.asked[i])
  {
    hide LocksInv, MainInv, Advance;
    assert ThreadInv(s.locks, s.threads[i], i);
    if Enabled(s, Run(i)) {
      assert Step(s, Run(i), Do(s, Run(i)));
    }
    if Enabled(s, Obey(i)) {
      assert Step(s, Obey(i), Do(s, Obey(i)));
    }
    if Enabled(s, Ask(i)) {
      assert Step(s, Ask(i), Do(s, Ask(i)));
    }
  }

  /** The main thread waits for the thread it joins and for stdout, and for nothing else. */
  lemma MainGoesOnExactly(s: State)
    requires Inv(s)
    ensures (exists t :: Step(s, MainStep, t)) <==>
              match s.main
              case Joining(k) => k == |s.threads| || s.threads[k].point == Ended
              case Reporting(_) => s.locks.stdout == Free
              case Printing(_) => true
              case Returned => false
  {
    hide LocksInv, ThreadInv;
    if Enabled(s, MainStep) {
      assert Step(s, MainStep, Do(s, MainStep));
    }
  }

  // ---------------------------------------------------------------- a cancellation takes effect

  /** A thread that sleeps with the mutex gets stdout free by a step of whoever holds it. */
  lemma StdoutFreed(s: State, i: nat) returns (run: seq<State>)
    requires Inv(s) && !SomeCut(s) && i < |s.threads| && s.threads[i].point.Pausing?
    ensures IsRun(Next, run) && run[0] == s
    ensures var t := run[|run| - 1];
            Inv(t) && i < |t.threads| && t.threads[i] == s.threads[i] && t.locks.stdout == Free && t.asked == s.asked
  {
    hide LocksInv, MainInv;
    if s.locks.stdout == Free {
      run := [s];
    } else {
      var a := StdoutOwner(s, i);
      var t := Do(s, a);
      assert Step(s, a, t);
      StepKeepsInv(s, t);
      run := [s, t];
    }
  }

  lemma StdoutOwner(s: State, i: nat) returns (a: Action)
    requires Inv(s) && !SomeCut(s) && i < |s.threads| && s.threads[i].point.Pausing? && s.locks.stdout != Free
    ensures Enabled(s, a) && (a.Run? || a.MainStep?)
    ensures var t := Do(s, a);
            && t.locks.stdout == Free && t.asked == s.asked && i < |t.threads| && t.threads[i] == s.threads[i]
  {
    if s.locks.stdout == ByMain {
      a := MainStep;
    } else {
      var j := s.locks.stdout.who;
      assert ThreadInv(s.locks, s.threads[j], j);
      assert ThreadInv(s.locks, s.threads[i], i);
      a := Run(j);
    }
  }

  /** A request made while a thread sleeps with the mutex leads to its end, through the handler: its
      message is written while the thread owns the mutex, and then the mutex is given back. */
  lemma SleeperCleansUp(s: State, i: nat) returns (run: seq<State>, m: nat)
    requires Inv(s) && !SomeCut(s) && i < |s.threads| && s.threads[i].point.Pausing?
    ensures IsRun(Next, run) && run[0] == s && m < |run| && i < |run[m].threads|
    ensures run[m].threads[i].point == CleanupWriting && run[m].locks.mutex == By(i) && run[m].locks.stdout == By(i)
    ensures var t := run[|run| - 1];
            && Inv(t) && i < |t.threads| && t.threads[i].point == Ended && !t.threads[i].cut
            && t.locks.mutex == Free && t.locks.stdout == Free
  {
    hide Inv, Do, Enabled, Next, Own;
    run := StdoutFreed(s, i);
    var first := Requested(run[|run| - 1], i);
    run := Chain(Next, run, first);
    var s1 := run[|run| - 1];
    OwnerInHandler(s1, i);
    var s2 := Obeys(s1, i);
    var s3 := Moves(s2, i);
    var s4 := Moves(s3, i);
    var s5 := Moves(s4, i);
    forall t, u | Own(t, u) ensures Next(t, u) {
      OwnIsNext(t, u);
    }
    m := |run| + 1;
    run := Chain(Next, run, [s1, s2, s3, s4, s5]);
  }

  lemma Requested(s: State, i: nat) returns (run: seq<State>)
    requires Inv(s) && i < |s.threads|
    ensures IsRun(Next, run) && run[0] == s && i < |s.asked|
    ensures run[|run| - 1] == s.(asked := s.asked[i := true]) && Inv(run[|run| - 1])
  {
    hide ThreadInv, LocksInv, MainInv;
    if s.asked[i] {
      assert s.asked[i := true] == s.asked;
      run := [s];
    } else {
      var t := Do(s, Ask(i));
      assert Step(s, Ask(i), t);
      StepKeepsInv(s, t);
      run := [s, t];
    }
  }

  lemma OwnerInHandler(s: State, i: nat)
    requires Inv(s) && i < |s.threads| && s.threads[i].point.Pausing?
    ensures s.locks.mutex == By(i) && (s.locks.stdout == Free ==> s.locks.depth == 0) && i < |s.asked|
  {
    assert ThreadInv(s.locks, s.threads[i], i);
  }

  lemma OwnIsNext(s: State, t: State)
    requires Own(s, t)
    ensures Next(s, t)
  {}

  // ---------------------------------------------------------------- four sleeps, one canceller

  /** Thread `i` comes out of one of its four sleeps with the mutex, or of the one before it cancels. */
  predicate Sleeps(s: State, t: State, i: nat) {
    && i < |s.threads| && i < |t.threads| && t.threads[i].point != s.threads[i].point
    && (s.threads[i].point.Napping? || s.threads[i].point.Pausing?)
    && (t.threads[i].point.Unguarded? || t.threads[i].point.Pausing? || t.threads[i].point.Cancelling?)
  }

  ghost function SleepsOf(i: nat): (State, State) -> bool {
    (s, t) => Sleeps(s, t, i)
  }

  /** How many of these sleeps lie behind a thread, where that can be told from its program point. */
  predicate SleptAt(p: Point, slept: nat) {
    match p
    case Pausing(left) => 1 <= left && slept + left == 4
    case Unguarded => slept == 4
    case Released => slept == 4
    case Announcing => slept == 4
    case Telling => slept == 4
    case Napping => slept == 4
    case Cancelling => slept == 5
    case CleanupAsking => slept < 4
    case CleanupWriting => slept < 4
    case CleaningUp => slept < 4
    case Ended => slept <= 5
    case _ => slept == 0
  }

  lemma SleepStep(s: State, t: State, i: nat, slept: nat)
    requires Next(s, t) && i < |s.threads| && SleptAt(s.threads[i].point, slept)
    ensures |t.threads| == |s.threads|
    ensures SleptAt(t.threads[i].point, slept + if Sleeps(s, t, i) then 1 else 0)
  {
    hide Unlock, TakeStdout, GiveStdout, MainCan;
    var a :| Step(s, a, t);
  }

  /** A thread that gives the mutex back on its own has slept four times with it, and one that gives it
      back in the handler fewer times; thread 1 sleeps once more before it cancels. */
  lemma {:induction false} SleepsCounted(run: seq<State>, k: nat, i: nat)
    requires IsRun(Next, run) && Init(run[0]) && k < |run| && i < |run[0].threads|
    ensures |run[k].threads| == |run[0].threads|
    ensures SleptAt(run[k].threads[i].point, Count(SleepsOf(i), run, k))
  {
    hide Next, Sleeps, SleptAt;
    if k == 0 {
      NotSlept(run[0], i);
    } else {
      SleepsCounted(run, k - 1, i);
      assert Next(run[k - 1], run[k]);
      SleepStep(run[k - 1], run[k], i, Count(SleepsOf(i), run, k - 1));
    }
  }

  lemma NotSlept(s: State, i: nat)
    requires Init(s) && i < |s.threads|
    ensures SleptAt(s.threads[i].point, 0)
  {}

  /** Thread `i` finishes a message of its own, outside the handler. */
  predicate Writes(s: State, t: State, i: nat) {
    && i < |s.threads| && i < |t.threads| && InMessage(s.threads[i].point)
    && t.threads[i].point != s.threads[i].point && !t.threads[i].cut
  }

  ghost function WritesOf(i: nat): (State, State) -> bool {
    (s, t) => Writes(s, t, i)
  }

  /** How many messages a thread has finished, where that can be told from its program point. */
  predicate WrittenAt(th: Thread, written: nat) {
    match th.point
    case Pausing(_) => written == 1
    case Unguarded => written == 1
    case Released => written == 1
    case Announcing => written == 1
    case Telling => written == 1
    case Napping => written == 2
    case Cancelling => written == 2
    case CleanupAsking => written == if th.cut then 0 else 1
    case CleanupWriting => written == if th.cut then 0 else 1
    case CleaningUp => written == if th.cut then 0 else 1
    case Ended => written <= 2
    case _ => written == 0
  }

  lemma WriteStep(s: State, t: State, i: nat, written: nat)
    requires Inv(s) && Next(s, t) && i < |s.threads| && WrittenAt(s.threads[i], written)
    ensures |t.threads| == |s.threads|
    ensures WrittenAt(t.threads[i], written + if Writes(s, t, i) then 1 else 0)
  {
    hide Unlock, TakeStdout, GiveStdout, MainCan, LocksInv, MainInv, MutexInv;
    assert ThreadInv(s.locks, s.threads[i], i);
    var a :| Step(s, a, t);
  }

  /** A thread that sleeps with the mutex has written its message, and one that comes to cancel another
      has written both. */
  lemma {:induction false} MessagesWritten(run: seq<State>, k: nat, i: nat)
    requires IsRun(Next, run) && Init(run[0]) && k < |run| && i < |run[0].threads|
    ensures |run[k].threads| == |run[0].threads|
    ensures WrittenAt(run[k].threads[i], Count(WritesOf(i), run, k))
  {
    hide Next, Inv, Writes, WrittenAt;
    if k == 0 {
      NotWritten(run[0], i);
    } else {
      RunHasInv(run);
      MessagesWritten(run, k - 1, i);
      assert Next(run[k - 1], run[k]);
      WriteStep(run[k - 1], run[k], i, Count(WritesOf(i), run, k - 1));
    }
  }

  lemma NotWritten(s: State, i: nat)
    requires Init(s) && i < |s.threads|
    ensures WrittenAt(s.threads[i], 0)
  {}

  predicate SecondMessage(p: Point) {
    p.Announcing? || p.Telling? || p.Napping? || p.Cancelling?
  }

  /** Only thread 1 writes a second message and cancels, and it cancels thread 2. */
  ghost predicate OneCanceller(s: State) {
    && (forall i :: 0 <= i < |s.threads| && SecondMessage(s.threads[i].point) ==> i == 1)
    && (forall j :: 0 <= j < |s.asked| && s.asked[j] ==> j == 2)
  }

  lemma OneCancellerStep(s: State, t: State)
    requires Own(s, t) && OneCanceller(s)
    ensures OneCanceller(t)
  {
    hide Unlock, TakeStdout, GiveStdout, MainCan;
    var a: Action :| !a.Ask? && Step(s, a, t);
  }

  /** As long as nobody outside cancels a thread, thread 2 is the only one that is ever asked to end. */
  lemma OnlyThreadTwoAsked(run: seq<State>, k: nat)
    requires IsRun(Own, run) && Init(run[0]) && k < |run|
    ensures OneCanceller(run[k])
  {
    hide Own;
    forall s, t | OneCanceller(s) && Own(s, t) ensures OneCanceller(t) {
      OneCancellerStep(s, t);
    }
    Invariance(Own, OneCanceller, run);
  }

  /** Every thread can go through undisturbed, and thread 1 then has asked thread 2. */
  lemma GoesThrough(s: State, i: nat) returns (run: seq<State>)
    requires Init(s) && i < |s.threads|
    ensures IsRun(Own, run) && run[0] == s
    ensures var t := run[|run| - 1];
            && |t.threads| == |t.asked| == |s.threads| && t.threads[i] == Thread(Ended, 1, 1, false)
            && (forall j :: 0 <= j < |s.threads| && j != i ==> t.threads[j] == s.threads[j])
            && t.locks.mutex == Free && t.locks.stdout == Free && (i == 1 && |s.threads| > 2 ==> t.asked[2])
  {
    hide Own, StepsLeft, LocksInv, MainInv;
    InitHasInv(s);
    run := EndsAlone(s, i);
    var t := run[|run| - 1];
    assert ThreadInv(t.locks, t.threads[i], i);
  }

  /** The main thread finishes a message. */
  predicate Reports(s: State, t: State) {
    s.locks.stdout == ByMain && t.locks.stdout != ByMain
  }

  function ReportsDone(m: Main, n: nat): nat {
    match m
    case Joining(k) => k
    case Reporting(k) => k
    case Printing(k) => k
    case Returned => n
  }

  lemma ReportStep(s: State, t: State)
    requires Inv(s) && Next(s, t)
    ensures ReportsDone(t.main, |t.threads|) == ReportsDone(s.main, |s.threads|) + if Reports(s, t) then 1 else 0
  {
    hide ThreadInv, LocksInv, Advance, CanAdvance;
    var a :| Step(s, a, t);
    if a.Run? {
      assert ThreadInv(s.locks, s.threads[a.i], a.i);
      StdoutOfMain(s.locks, s.threads[a.i], a.i);
    } else if a.MainStep? {
      EndsAt(s);
    }
  }

  lemma EndsAt(s: State)
    requires Inv(s)
    ensures s.main.Joining? ==> s.main.k <= |s.threads|
    ensures s.main.Printing? ==> s.locks == s.locks.(stdout := ByMain, depth := 1)
  {}

  /** The main thread writes one message for each thread that it has joined: when it returns, one for
      every thread. */
  lemma {:induction false} JoinsReported(run: seq<State>, k: nat)
    requires IsRun(Next, run) && Init(run[0]) && k < |run|
    ensures Count(Reports, run, k) == ReportsDone(run[k].main, |run[k].threads|)
  {
    hide Next, Inv, Reports;
    if k > 0 {
      RunHasInv(run);
      JoinsReported(run, k - 1);
      assert Next(run[k - 1], run[k]);
      ReportStep(run[k - 1], run[k]);
    }
  }

  /** A run can start with any number of threads. */
  lemma AnyStart(n: nat)
    ensures Init(State(Locks(Free, Free, 0, false), seq(n, _ => Thread(Starting, 0, 0, false)), Joining(0),
                       seq(n, _ => false)))
  {}
}
