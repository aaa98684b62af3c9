/** The counting semaphore with undo of Chapter05/sysv_sem_zwait.c, and of Chapter05/sysv_sem.c,
    which is the same program without the zero-waiter and with one permit.

    Any number of children pass through the critical section, and any of them can be killed or
    abort at any point; the kernel then gives back what the process has outstanding (SEM_UNDO). */
module SemUndo {
  import opened Behaviors
  import opened Sums

  /** Program points of `handle_criticalsect`. */
  datatype Child = Unborn | Entering | Inside | Leaving | Ended(reaped: bool)

  /** Program points of `handle_waitforzero`; `Absent` in the program without it. */
  datatype Waiter = Absent | NotForked | WaitingForZero | Passed | WaiterEnded(reaped: bool)

  datatype Parent = Forking(next: nat) | Reaping | Removed

  /** `undo` holds the amount the kernel adds when a child ends; `initial` is the value the
      semaphore was created with. */
  datatype State = State(initial: nat, value: nat, undo: seq<int>, kids: seq<Child>, waiter: Waiter, parent: Parent)

  datatype Action =
    | ForkWaiter | ForkChild
    | Enter(i: nat)        // semop -1
    | Post(i: nat)         // semop +1
    | End(i: nat)          // exit, abort or a signal, anywhere
    | Pass                 // semop 0 of the waiter
    | EndWaiter
    | Reap(i: nat) | ReapWaiter
    | Remove               // semctl IPC_RMID

  ghost predicate Init(s: State) {
    && s.value == s.initial && |s.undo| == |s.kids|
    && (forall i :: 0 <= i < |s.kids| ==> s.kids[i] == Unborn && s.undo[i] == 0)
    && (if s.waiter == Absent then s.parent == AfterFork(s, 0) else s.waiter == NotForked && s.parent == Forking(0))
  }

  predicate Running(c: Child) {
    c.Entering? || c.Inside? || c.Leaving?
  }

  predicate AllReaped(s: State) {
    && (s.waiter == Absent || s.waiter == WaiterEnded(true))
    && forall i :: 0 <= i < |s.kids| ==> s.kids[i] == Ended(true)
  }

  predicate Enabled(s: State, a: Action) {
    |s.undo| == |s.kids| &&
    match a
    case ForkWaiter => s.parent == Forking(0) && s.waiter == NotForked
    case ForkChild =>
      s.parent.Forking? && s.waiter != NotForked && s.parent.next < |s.kids| && s.kids[s.parent.next] == Unborn
    case Enter(i) => i < |s.kids| && s.kids[i] == Entering && s.value > 0
    case Post(i) => i < |s.kids| && s.kids[i] == Inside
    case End(i) => i < |s.kids| && Running(s.kids[i]) && 0 <= s.value + s.undo[i]
    case Pass => s.waiter == WaitingForZero && s.value == 0
    case EndWaiter => s.waiter == WaitingForZero || s.waiter == Passed
    case Reap(i) => s.parent == Reaping && i < |s.kids| && s.kids[i] == Ended(false)
    case ReapWaiter => s.parent == Reaping && s.waiter == WaiterEnded(false)
    case Remove => s.parent == Reaping && AllReaped(s)
  }

  /** The parent forks the children in order, then starts to wait. */
  function AfterFork(s: State, next: nat): Parent {
    if next < |s.kids| then Forking(next) else Reaping
  }

  function Do(s: State, a: Action): State
    requires Enabled(s, a)
  {
    match a
    case ForkWaiter => s.(waiter := WaitingForZero, parent := AfterFork(s, 0))
    case ForkChild => s.(kids := s.kids[s.parent.next := Entering], parent := AfterFork(s, s.parent.next + 1))
    case Enter(i) => s.(value := s.value - 1, undo := s.undo[i := s.undo[i] + 1], kids := s.kids[i := Inside])
    case Post(i) => s.(value := s.value + 1, undo := s.undo[i := s.undo[i] - 1], kids := s.kids[i := Leaving])
    case End(i) => s.(value := s.value + s.undo[i], undo := s.undo[i := 0], kids := s.kids[i := Ended(false)])
    case Pass => s.(waiter := Passed)
    case EndWaiter => s.(waiter := WaiterEnded(false))
    case Reap(i) => s.(kids := s.kids[i := Ended(true)])
    case ReapWaiter => s.(waiter := WaiterEnded(true))
    case Remove => s.(parent := Removed)
  }

  ghost predicate Step(s: State, a: Action, t: State) {
    Enabled(s, a) && t == Do(s, a)
  }

  ghost predicate Next(s: State, t: State) {
    exists a :: Step(s, a, t)
  }

  // ---------------------------------------------------------------- invariant

  /** A permit is outstanding exactly for the children inside, and none is lost. */
  ghost predicate Inv(s: State) {
    && |s.undo| == |s.kids|
    && (forall i :: 0 <= i < |s.kids| ==> s.undo[i] == if s.kids[i] == Inside then 1 else 0)
    && s.value + Sum(s.undo) == s.initial
    && (s.parent.Forking? && s.waiter != NotForked ==> s.parent.next < |s.kids|)
    && (forall i :: 0 <= i < |s.kids| ==> (s.kids[i] == Unborn <==> s.parent.Forking? && s.parent.next <= i))
    && (s.waiter == NotForked ==> s.parent == Forking(0))
    && (s.parent == Removed ==> AllReaped(s))
  }

  lemma {:induction false} SumZero(xs: seq<int>)
    requires forall i :: 0 <= i < |xs| ==> xs[i] == 0
    ensures Sum(xs) == 0
  {
    if xs != [] {
      SumZero(xs[1..]);
    }
  }

  /** Once everything is reaped nothing happens any more. */
  lemma ReapedStays(s: State, a: Action)
    requires Enabled(s, a) && AllReaped(s)
    ensures AllReaped(Do(s, a))
  {}

  lemma StepKeepsInv(s: State, t: State)
    requires Inv(s) && Next(s, t)
    ensures Inv(t) && t.initial == s.initial && |t.kids| == |s.kids|
  {
    hide Sum, AllReaped;
    var a :| Step(s, a, t);
    if a.Enter? || a.Post? || a.End? {
      SumUpdate(s.undo, a.i, t.undo[a.i]);
    }
    if AllReaped(s) {
      ReapedStays(s, a);
    }
  }

  lemma RunHasInv(run: seq<State>)
    requires IsRun(Next, run) && Init(run[0])
    ensures forall k :: 0 <= k < |run| ==> Inv(run[k])
  {
    InitHasInv(run[0]);
    forall s, t | Inv(s) && Next(s, t) ensures Inv(t) {
      StepKeepsInv(s, t);
    }
    Invariance(Next, Inv, run);
  }

  // ---------------------------------------------------------------- conservation of permits

  function Occupied(kids: seq<Child>): set<nat> {
    set i: nat | i < |kids| && kids[i] == Inside
  }

  /** The undo amounts add up to the number of children inside. */
  lemma {:induction false} SumCountsInside(undo: seq<int>, kids: seq<Child>)
    requires |undo| == |kids|
    requires forall i :: 0 <= i < |kids| ==> undo[i] == if kids[i] == Inside then 1 else 0
    ensures Sum(undo) == |Occupied(kids)|
    decreases |kids|
  {
    if kids == [] {
      assert Occupied(kids) == {};
    } else {
      var n := |kids| - 1;
      assert undo == undo[..n] + [undo[n]];
      SumAppend(undo[..n], undo[n]);
      SumCountsInside(undo[..n], kids[..n]);
      assert Occupied(kids) == Occupied(kids[..n]) + if kids[n] == Inside then {n} else {};
    }
  }

  /** In every reachable state the value and the children inside add up to the initial value: no
      permit is lost or invented by an abort, at most `initial` children are inside, and when
      nobody is inside the value is fully restored. */
  lemma PermitsConserved(run: seq<State>, k: nat)
    requires IsRun(Next, run) && Init(run[0]) && k < |run|
    ensures run[k].value + |Occupied(run[k].kids)| == run[k].initial
    ensures run[k].value + Sum(run[k].undo) == run[k].initial
  {
    RunHasInv(run);
    SumCountsInside(run[k].undo, run[k].kids);
  }

  lemma TwoInside(kids: seq<Child>, i: nat, j: nat)
    requires i < |kids| && j < |kids| && i != j && kids[i] == kids[j] == Inside
    ensures |Occupied(kids)| >= 2
  {
    assert {i, j} <= Occupied(kids);
    SubsetSize({i, j}, Occupied(kids));
  }

  lemma {:induction false} SubsetSize(a: set<nat>, b: set<nat>)
    requires a <= b
    ensures |a| <= |b|
    decreases |a|
  {
    if a != {} {
      var x :| x in a;
      SubsetSize(a - {x}, b - {x});
    }
  }

  /** With one permit the section is mutually exclusive. */
  lemma MutualExclusion(run: seq<State>, k: nat, i: nat, j: nat)
    requires IsRun(Next, run) && Init(run[0]) && k < |run| && run[k].initial == 1
    requires i < |run[k].kids| && j < |run[k].kids| && run[k].kids[i] == run[k].kids[j] == Inside
    ensures i == j
  {
    PermitsConserved(run, k);
    if i != j {
      TwoInside(run[k].kids, i, j);
    }
  }

  /** The semaphore is removed only after every process that uses it has ended, with the value it
      was created with. */
  lemma RemovedAtRest(run: seq<State>, k: nat)
    requires IsRun(Next, run) && Init(run[0]) && k < |run| && run[k].parent == Removed
    ensures run[k].value == run[k].initial
    ensures forall i :: 0 <= i < |run[k].kids| ==> run[k].kids[i].Ended?
    ensures run[k].waiter == Absent || run[k].waiter.WaiterEnded?
  {
    RunHasInv(run);
    SumZero(run[k].undo);
  }

  // ---------------------------------------------------------------- the zero-waiter

  /** The waiter passes only while all permits are held. */
  lemma PassNeedsAllPermits(run: seq<State>, k: nat)
    requires IsRun(Next, run) && Init(run[0]) && k < |run| && Enabled(run[k], Pass)
    ensures |Occupied(run[k].kids)| == run[k].initial
  {
    PermitsConserved(run, k);
  }

  lemma {:induction false} RunKeepsSize(run: seq<State>, k: nat)
    requires IsRun(Next, run) && Init(run[0]) && k < |run|
    ensures run[k].initial == run[0].initial && |run[k].kids| == |run[0].kids|
  {
    if 0 < k {
      RunHasInv(run);
      assert Next(run[k - 1], run[k]);
      StepKeepsInv(run[k - 1], run[k]);
      assert IsRun(Next, run[..k]);
      RunKeepsSize(run[..k], k - 1);
    }
  }

  /** The state with the first `m` children forked and inside. */
  function Filling(s: State, m: nat): State
    requires m <= |s.kids| && m <= s.initial && |s.undo| == |s.kids|
  {
    State(s.initial, s.initial - m, seq(|s.kids|, i => if i < m then 1 else 0),
          seq(|s.kids|, i => if i < m then Inside else Unborn), WaitingForZero, AfterFork(s, m))
  }

  lemma {:induction false} FillingReachable(s: State, m: nat) returns (run: seq<State>)
    requires Init(s) && s.waiter == NotForked && m <= |s.kids| && m <= s.initial
    ensures IsRun(Sparing, run) && run[0] == s && run[|run| - 1] == Filling(s, m)
  {
    if m == 0 {
      var t := Filling(s, 0);
      assert t.undo == s.undo && t.kids == s.kids;
      assert Step(s, ForkWaiter, t);
      run := [s, t];
    } else {
      var before := FillingReachable(s, m - 1);
      var t, u := Filling(s, m - 1), Filling(s, m);
      var mid := Do(t, ForkChild);
      assert Step(t, ForkChild, mid);
      assert Do(mid, Enter(m - 1)).kids == u.kids && Do(mid, Enter(m - 1)).undo == u.undo;
      assert Step(mid, Enter(m - 1), u);
      run := Chain(Sparing, before, [t, mid, u]);
    }
  }

  /** The waiter can get through in some run exactly if there are at least as many children as
      permits. */
  lemma WaiterCanPassExactly(s: State)
    requires Init(s) && s.waiter == NotForked
    ensures (exists run :: IsRun(Next, run) && run[0] == s && Enabled(run[|run| - 1], Pass))
            <==> s.initial <= |s.kids|
  {
    if s.initial <= |s.kids| {
      var run := FillingReachable(s, s.initial);
      SparingRun(run);
      assert Enabled(run[|run| - 1], Pass);
    }
    forall run: seq<State> | IsRun(Next, run) && run[0] == s && Enabled(run[|run| - 1], Pass)
      ensures s.initial <= |s.kids|
    {
      var k := |run| - 1;
      RunHasInv(run);
      RunKeepsSize(run, k);
      SumBounds(run[k].undo, 1);
    }
  }

  // ---------------------------------------------------------------- does the parent get to the end

  /** A step that does not kill the waiter while it waits. */
  ghost predicate Sparing(s: State, t: State) {
    exists a: Action :: !(a.EndWaiter? && s.waiter == WaitingForZero) && Step(s, a, t)
  }

  lemma SparingIsNext(s: State, t: State)
    requires Sparing(s, t)
    ensures Next(s, t)
  {}

  function ChildLeft(c: Child): nat {
    match c
    case Unborn => 3
    case Ended(reaped) => if reaped then 0 else 1
    case _ => 2
  }

  function ChildrenLeft(kids: seq<Child>): seq<int> {
    seq(|kids|, i requires 0 <= i < |kids| => ChildLeft(kids[i]))
  }

  /** Steps to the removal, when every child just ends. */
  function StepsLeft(s: State): int {
    Sum(ChildrenLeft(s.kids))
    + (match s.waiter
       case Passed => 2
       case WaiterEnded(reaped) => if reaped then 0 else 1
       case _ => 3)
    + if s.parent == Removed then 0 else 1
  }

  lemma ChildMoves(kids: seq<Child>, i: nat, c: Child)
    requires i < |kids|
    ensures Sum(ChildrenLeft(kids[i := c])) == Sum(ChildrenLeft(kids)) - ChildLeft(kids[i]) + ChildLeft(c)
  {
    SumUpdate(ChildrenLeft(kids), i, ChildLeft(c));
    assert ChildrenLeft(kids[i := c]) == ChildrenLeft(kids)[i := ChildLeft(c)];
  }

  lemma StepsLeftNatural(s: State)
    ensures StepsLeft(s) >= 0
  {
    SumBounds(ChildrenLeft(s.kids), 3);
  }

  /** The waiter is through, or there is none. */
  predicate WaiterDone(s: State) {
    s.waiter == Passed || s.waiter.WaiterEnded? || s.waiter == Absent
  }

  /** Once the waiter is through, some step leads closer to the removal. */
  lemma CloserToRemoval(s: State) returns (t: State)
    requires Inv(s) && WaiterDone(s) && s.parent != Removed
    ensures Sparing(s, t) && Inv(t) && WaiterDone(t) && StepsLeft(t) < StepsLeft(s)
  {
    hide Sum, ChildrenLeft, ChildLeft;
    var a := ClosingAction(s);
    t := Do(s, a);
    assert Step(s, a, t);
    StepKeepsInv(s, t);
    ClosingDecreases(s, a);
  }

  /** Fork what is left, then let every process end, reap it and remove the semaphore. */
  lemma ClosingAction(s: State) returns (a: Action)
    requires Inv(s) && WaiterDone(s) && s.parent != Removed
    ensures Enabled(s, a) && (a.ForkChild? || a.End? || a.EndWaiter? || a.Reap? || a.ReapWaiter? || a.Remove?)
  {
    if s.parent.Forking? {
      a := ForkChild;
    } else if i: nat :| i < |s.kids| && Running(s.kids[i]) {
      SumBounds(s.undo, 1);
      a := End(i);
    } else if i: nat :| i < |s.kids| && s.kids[i] == Ended(false) {
      a := Reap(i);
    } else if s.waiter == Passed {
      a := EndWaiter;
    } else if s.waiter == WaiterEnded(false) {
      a := ReapWaiter;
    } else {
      a := Remove;
    }
  }

  lemma ClosingDecreases(s: State, a: Action)
    requires WaiterDone(s) && s.parent != Removed && Enabled(s, a)
    requires a.ForkChild? || a.End? || a.EndWaiter? || a.Reap? || a.ReapWaiter? || a.Remove?
    ensures WaiterDone(Do(s, a)) && StepsLeft(Do(s, a)) < StepsLeft(s)
  {
    hide Sum, ChildrenLeft;
    var t := Do(s, a);
    if a.ForkChild? {
      ChildMoves(s.kids, s.parent.next, Entering);
    } else if a.End? || a.Reap? {
      ChildMoves(s.kids, a.i, t.kids[a.i]);
    }
  }

  lemma RemovalReachable(s: State) returns (run: seq<State>)
    requires Inv(s) && WaiterDone(s)
    ensures IsRun(Sparing, run) && run[0] == s && run[|run| - 1].parent == Removed
    decreases StepsLeft(s)
  {
    hide Inv, Sparing;
    StepsLeftNatural(s);
    if s.parent == Removed {
      run := [s];
    } else {
      var t := CloserToRemoval(s);
      StepsLeftNatural(t);
      var rest := RemovalReachable(t);
      run := [s] + rest;
      Prepend(Sparing, s, rest);
    }
  }

  /** Where there are fewer children than permits, the waiter is never done. */
  ghost predicate Hopeless(s: State) {
    Inv(s) && s.initial > |s.kids| && !WaiterDone(s)
  }

  lemma StaysHopeless(s: State, t: State)
    requires Hopeless(s) && Sparing(s, t)
    ensures Hopeless(t)
  {
    hide Sum;
    var a: Action :| !(a.EndWaiter? && s.waiter == WaitingForZero) && Step(s, a, t);
    SumBounds(s.undo, 1);
    StepKeepsInv(s, t);
  }

  /** As long as nobody kills the waiter while it waits, the parent can get to the removal in some run
      exactly if there are at least as many children as permits. Otherwise it waits for ever. */
  lemma RemovalExactly(s: State)
    requires Init(s) && s.waiter == NotForked
    ensures (exists run: seq<State> :: IsRun(Sparing, run) && run[0] == s && run[|run| - 1].parent == Removed)
            <==> s.initial <= |s.kids|
  {
    hide Sparing, Inv, Next;
    InitHasInv(s);
    if s.initial <= |s.kids| {
      var run := FillingReachable(s, s.initial);
      var full := run[|run| - 1];
      FillingHasInv(s, run);
      var through := full.(waiter := Passed);
      PassesNow(full);
      var rest := RemovalReachable(through);
      Prepend(Sparing, full, rest);
      run := Chain(Sparing, run, [full] + rest);
    }
    forall run: seq<State> | IsRun(Sparing, run) && run[0] == s && run[|run| - 1].parent == Removed
      ensures s.initial <= |s.kids|
    {
      if s.initial > |s.kids| {
        forall s, t | Hopeless(s) && Sparing(s, t) ensures Hopeless(t) {
          StaysHopeless(s, t);
        }
        Invariance(Sparing, Hopeless, run);
        NotRemoved(run[|run| - 1]);
      }
    }
  }

  lemma NotRemoved(s: State)
    requires Hopeless(s)
    ensures s.parent != Removed
  {}

  lemma PassesNow(s: State)
    requires Inv(s) && s.waiter == WaitingForZero && s.value == 0
    ensures Sparing(s, s.(waiter := Passed)) && Inv(s.(waiter := Passed))
  {
    assert Step(s, Pass, s.(waiter := Passed));
    StepKeepsInv(s, s.(waiter := Passed));
  }

  lemma FillingHasInv(s: State, run: seq<State>)
    requires Init(s) && IsRun(Sparing, run) && run[0] == s
    ensures Inv(run[|run| - 1])
  {
    hide Sparing, Next, Inv;
    SparingRun(run);
    RunHasInv(run);
  }

  lemma SparingRun(run: seq<State>)
    requires IsRun(Sparing, run)
    ensures IsRun(Next, run)
  {
    hide Sparing, Next;
    forall i | 0 <= i < |run| - 1
      ensures Next(run[i], run[i + 1])
    {
      assert Sparing(run[i], run[i + 1]);
      SparingIsNext(run[i], run[i + 1]);
    }
  }

  lemma InitHasInv(s: State)
    requires Init(s)
    ensures Inv(s)
  {
    SumZero(s.undo);
  }

  // ---------------------------------------------------------------- once in, once out

  ghost predicate Enters(s: State, t: State, i: nat) {
    i < |s.kids| && i < |t.kids| && s.kids[i] != Inside && t.kids[i] == Inside
  }

  /** The child leaves the section alive. */
  ghost predicate Leaves(s: State, t: State, i: nat) {
    i < |s.kids| && i < |t.kids| && s.kids[i] == Inside && t.kids[i] != Inside && !t.kids[i].Ended?
  }

  ghost function EntersOf(i: nat): (State, State) -> bool {
    (s, t) => Enters(s, t, i)
  }

  ghost function LeavesOf(i: nat): (State, State) -> bool {
    (s, t) => Leaves(s, t, i)
  }

  /** Entries and exits that fit where a child stands. */
  predicate Passages(c: Child, entries: nat, exits: nat) {
    match c
    case Unborn => entries == exits == 0
    case Entering => entries == exits == 0
    case Inside => entries == 1 && exits == 0
    case Leaving => entries == exits == 1
    case Ended(_) => exits <= entries <= 1
  }

  lemma PassageStep(s: State, t: State, i: nat, entries: nat, exits: nat)
    requires Next(s, t) && i < |s.kids| && Passages(s.kids[i], entries, exits)
    ensures |t.kids| == |s.kids|
    ensures Passages(t.kids[i], entries + if Enters(s, t, i) then 1 else 0, exits + if Leaves(s, t, i) then 1 else 0)
  {
    hide AllReaped;
    var a :| Step(s, a, t);
  }

  /** Each child enters the section at most once, and leaves it alive at most once and only after
      that; a child that has posted is on its way to its end. */
  lemma {:induction false} OnceInOnceOut(run: seq<State>, k: nat, i: nat)
    requires IsRun(Next, run) && Init(run[0]) && k < |run| && i < |run[0].kids|
    ensures |run[k].kids| == |run[0].kids|
    ensures Passages(run[k].kids[i], Count(EntersOf(i), run, k), Count(LeavesOf(i), run, k))
  {
    hide Next, Enters, Leaves;
    if k > 0 {
      OnceInOnceOut(run, k - 1, i);
      assert Next(run[k - 1], run[k]);
      PassageStep(run[k - 1], run[k], i, Count(EntersOf(i), run, k - 1), Count(LeavesOf(i), run, k - 1));
    }
  }

  /** What a child can do next: enter exactly if a permit is free, post and leave when it is inside,
      and end anywhere, giving back the permit it holds. */
  lemma ChildGoesOn(s: State, i: nat)
    requires Inv(s) && i < |s.kids|
    ensures s.kids[i] == Entering ==> ((exists t :: Next(s, t) && t.kids == s.kids[i := Inside]) <==> s.value > 0)
    ensures s.kids[i] == Inside ==> exists t :: Next(s, t) && t.kids == s.kids[i := Leaving] && t.value == s.value + 1
    ensures s.kids[i] == Entering || s.kids[i] == Inside || s.kids[i] == Leaving ==>
              exists t :: Next(s, t) && t.kids == s.kids[i := Ended(false)]
                          && t.value == s.value + if s.kids[i] == Inside then 1 else 0
  {
    hide AllReaped, Sum;
    SumBounds(s.undo, 1);
    if s.kids[i] == Entering {
      EntryNeedsPermit(s, i);
      if s.value > 0 {
        assert Step(s, Enter(i), Do(s, Enter(i)));
        assert Next(s, Do(s, Enter(i)));
      }
    }
    if s.kids[i] == Inside {
      assert Step(s, Post(i), Do(s, Post(i)));
      assert Next(s, Do(s, Post(i)));
    }
    if Running(s.kids[i]) {
      assert Step(s, End(i), Do(s, End(i)));
      assert Next(s, Do(s, End(i)));
    }
  }

  lemma EntryNeedsPermit(s: State, i: nat)
    requires Inv(s) && i < |s.kids| && s.kids[i] == Entering
    ensures (exists t :: Next(s, t) && t.kids == s.kids[i := Inside]) ==> s.value > 0
  {
    hide AllReaped, Sum;
    if t :| Next(s, t) && t.kids == s.kids[i := Inside] {
      var a :| Step(s, a, t);
      assert t.kids[i] == Inside;
    }
  }

  /** The zero-waiter gets through exactly when the value is zero, and can be killed before. */
  lemma WaiterGoesOn(s: State)
    requires Inv(s) && s.waiter == WaitingForZero
    ensures (exists t :: Next(s, t) && t.waiter == Passed) <==> s.value == 0
    ensures exists t :: Next(s, t) && t.waiter == WaiterEnded(false) && t.value == s.value
  {
    hide AllReaped, Sum;
    if s.value == 0 {
      assert Step(s, Pass, Do(s, Pass));
      assert Next(s, Do(s, Pass));
    }
    assert Step(s, EndWaiter, Do(s, EndWaiter));
    assert Next(s, Do(s, EndWaiter));
    if t :| Next(s, t) && t.waiter == Passed {
      var a :| Step(s, a, t);
    }
  }

  /** A run can start with any number of permits and children, with the zero-waiter and without. */
  lemma AnyStart(initial: nat, children: nat)
    ensures Init(State(initial, initial, seq(children, _ => 0), seq(children, _ => Unborn), NotForked, Forking(0)))
    ensures Init(State(initial, initial, seq(children, _ => 0), seq(children, _ => Unborn), Absent,
                       if children == 0 then Reaping else Forking(0)))
  {}
}
