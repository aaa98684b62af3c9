/** The supervisor of Chapter11/io_signalfd_chld.c: a parent that keeps a pool of children and
    forks a new one for each that ended or stopped.

    SIGCHLD is a standard signal: any number of state changes leave at most one pending. A child
    has at most one state change waiting to be collected by waitid, the latest. Only a stopped child
    can be continued, and one that has ended no longer changes. waitid may pick any child that has a
    change to collect. */
module ChildPool {
  import opened Behaviors

  datatype Report = NoReport | Exited | Killed | Dumped | Stopped | Continued | Trapped {
    predicate Final() {
      Exited? || Killed? || Dumped?
    }
  }

  datatype Status = Running | Suspended | Gone

  /** A child that has not been reaped, and its uncollected state change. */
  datatype Child = Child(status: Status, report: Report)

  datatype Parent =
    | Reading          // blocked in read on the signal descriptor
    | Draining         // before waitid
    | Reforking        // before start_child

  /** `kinds` are the state changes that may occur at all. `kids` are the unreaped children by process
      number. `stops` counts the stop reports consumed; `drained` says whether the last drain ended
      because waitid found nothing. */
  datatype State = State(pool: nat, kinds: set<Report>, kids: map<nat, Child>, sigchld: bool, parent: Parent,
                         stops: nat, drained: bool)

  datatype Action =
    | Change(pid: nat, report: Report) // a child ends, stops, continues or is trapped
    | Read                             // read returns the pending SIGCHLD
    | Collect(pid: nat)                // waitid returns that child's state change
    | Nothing                          // waitid finds none
    | Fork(pid: nat)                   // start_child

  ghost predicate Init(s: State) {
    && |s.kids| == s.pool && (forall p :: p in s.kids ==> s.kids[p] == Child(Running, NoReport))
    && !s.sigchld && s.parent == Reading && s.stops == 0 && s.drained
  }

  /** Some child has a state change to collect. */
  ghost predicate Waiting(s: State) {
    exists p :: p in s.kids && s.kids[p].report != NoReport
  }

  /** Whether a child can make that change. */
  predicate CanChange(c: Child, report: Report) {
    match report
    case NoReport => false
    case Stopped => c.status == Running
    case Continued => c.status == Suspended
    case Trapped => c.status == Running
    case _ => c.status != Gone
  }

  function Changed(report: Report): Child {
    Child(if report.Final() then Gone else if report == Stopped then Suspended else Running, report)
  }

  ghost predicate Enabled(s: State, a: Action) {
    match a
    case Change(pid, report) => report in s.kinds && pid in s.kids && CanChange(s.kids[pid], report)
    case Read => s.parent == Reading && s.sigchld
    case Collect(pid) => s.parent == Draining && pid in s.kids && s.kids[pid].report != NoReport
    case Nothing => s.parent == Draining && !Waiting(s)
    case Fork(pid) => s.parent == Reforking && pid !in s.kids
  }

  function Do(s: State, a: Action): State
    requires a.Change? || a.Collect? ==> a.pid in s.kids
  {
    match a
    case Change(pid, report) => s.(kids := s.kids[pid := Changed(report)], sigchld := true)
    case Read => s.(sigchld := false, parent := Draining)
    case Collect(pid) =>
      var r := s.kids[pid].report;
      if r.Final() then s.(kids := s.kids - {pid}, parent := Reforking)
      else if r == Stopped then
        s.(kids := s.kids[pid := s.kids[pid].(report := NoReport)], parent := Reforking, stops := s.stops + 1)
      else
        s.(kids := s.kids[pid := s.kids[pid].(report := NoReport)], parent := Reading, drained := false)
    case Nothing => s.(parent := Reading, drained := true)
    case Fork(pid) => s.(kids := s.kids[pid := Child(Running, NoReport)], parent := Draining)
  }

  ghost predicate Step(s: State, a: Action, t: State) {
    Enabled(s, a) && t == Do(s, a)
  }

  ghost predicate Next(s: State, t: State) {
    exists a :: Step(s, a, t)
  }

  // ---------------------------------------------------------------- invariant

  /** Each child that ended or stopped is replaced by one fork, so the unreaped children are the pool
      and one more for every stop consumed; between the report and the fork one is missing. */
  ghost predicate Counted(s: State) {
    |s.kids| == s.pool + s.stops - if s.parent == Reforking then 1 else 0
  }

  /** The end of a child is never overwritten, and a drain that ran out of reports left none. */
  ghost predicate Collected(s: State) {
    && (forall p :: p in s.kids && s.kids[p].status == Gone ==> s.kids[p].report.Final())
    && (Blocked(s) && s.drained ==> !Waiting(s))
  }

  /** The parent is blocked in read. */
  predicate Blocked(s: State) {
    s.parent == Reading && !s.sigchld
  }

  ghost predicate AllAlive(s: State) {
    forall p :: p in s.kids ==> s.kids[p].status != Gone
  }

  ghost predicate Inv(s: State) {
    Counted(s) && Collected(s)
  }

  lemma MapSizes(m: map<nat, Child>, p: nat, c: Child)
    ensures |m[p := c]| == if p in m then |m| else |m| + 1
    ensures p in m ==> |m - {p}| == |m| - 1
  {
    assert m[p := c].Keys == m.Keys + {p};
    assert (m - {p}).Keys == m.Keys - {p};
  }

  lemma StepCounts(s: State, a: Action)
    requires Counted(s) && Enabled(s, a)
    ensures Counted(Do(s, a))
  {
    hide Waiting;
    if a.Change? || a.Collect? || a.Fork? {
      var r := if a.Change? then Changed(a.report)
               else if a.Fork? then Child(Running, NoReport) else s.kids[a.pid].(report := NoReport);
      MapSizes(s.kids, a.pid, r);
    }
  }

  lemma StepCollects(s: State, a: Action)
    requires Collected(s) && Enabled(s, a)
    ensures Collected(Do(s, a))
  {}

  lemma StepKeepsInv(s: State, t: State)
    requires Inv(s) && Next(s, t)
    ensures Inv(t) && t.pool == s.pool && t.kinds == s.kinds
  {
    hide Counted, Collected;
    var a :| Step(s, a, t);
    StepCounts(s, a);
    StepCollects(s, a);
  }

  lemma RunHasInv(run: seq<State>)
    requires IsRun(Next, run) && Init(run[0])
    ensures forall k :: 0 <= k < |run| ==> Inv(run[k])
  {
    forall s, t | Inv(s) && Next(s, t) ensures Inv(t) {
      StepKeepsInv(s, t);
    }
    Invariance(Next, Inv, run);
  }

  // ---------------------------------------------------------------- what the pool keeps

  /** At every return to the blocking read the unreaped children are the pool and one more for
      every stop report consumed, however the signals were merged and the drain ended. */
  lemma PoolSize(run: seq<State>, k: nat)
    requires IsRun(Next, run) && Init(run[0]) && k < |run| && run[k].parent != Reforking
    ensures |run[k].kids| == run[k].pool + run[k].stops
  {
    RunHasInv(run);
  }

  /** When the parent is blocked with no SIGCHLD pending and its last drain ran out of reports,
      nothing is left to collect and every unreaped child lives: none was forgotten. */
  lemma NobodyForgotten(run: seq<State>, k: nat)
    requires IsRun(Next, run) && Init(run[0]) && k < |run|
    requires Blocked(run[k]) && run[k].drained
    ensures !Waiting(run[k]) && AllAlive(run[k])
  {
    RunHasInv(run);
    assert Collected(run[k]);
  }

  // ---------------------------------------------------------------- when a child can be forgotten

  /** With these kinds of change every drain goes on until waitid finds nothing: no report but that of
      an end or a stop can occur. */
  predicate Harmless(kinds: set<Report>) {
    Trapped !in kinds && !(Stopped in kinds && Continued in kinds)
  }

  /** Whatever happens, when the parent is blocked there is nothing to collect. */
  ghost predicate AlwaysCollects(s: State) {
    forall run: seq<State>, k: nat ::
      IsRun(Next, run) && run[0] == s && k < |run| && Blocked(run[k]) ==> !Waiting(run[k])
  }

  /** Whatever happens, when the parent is blocked every child that ended has been reaped. */
  ghost predicate AlwaysReaps(s: State) {
    forall run: seq<State>, k: nat ::
      IsRun(Next, run) && run[0] == s && k < |run| && Blocked(run[k]) ==> AllAlive(run[k])
  }

  /** No report ends a drain early; where nothing can stop, nothing is suspended. */
  ghost predicate DrainsOn(s: State) {
    && s.drained
    && forall p :: p in s.kids ==>
         && s.kids[p].report != Continued && s.kids[p].report != Trapped
         && (Stopped !in s.kinds ==> s.kids[p].status != Suspended)
  }

  ghost predicate CanEnd(kinds: set<Report>) {
    exists r: Report :: r in kinds && r.Final()
  }

  lemma StepDrainsOn(s: State, t: State)
    requires DrainsOn(s) && Harmless(s.kinds) && Next(s, t)
    ensures DrainsOn(t) && t.kinds == s.kinds
  {
    hide Waiting;
  }

  lemma StepStaysAlive(s: State, t: State)
    requires AllAlive(s) && !CanEnd(s.kinds) && Next(s, t)
    ensures AllAlive(t) && t.kinds == s.kinds
  {
    hide Waiting;
  }

  /** Facts that hold all along a run for the kinds of change it starts with. */
  lemma {:induction false} RunDrainsOn(run: seq<State>, k: nat)
    requires IsRun(Next, run) && Init(run[0]) && k < |run|
    ensures run[k].kinds == run[0].kinds
    ensures Harmless(run[0].kinds) ==> DrainsOn(run[k])
    ensures !CanEnd(run[0].kinds) ==> AllAlive(run[k])
  {
    hide Next, Harmless, CanEnd;
    if 0 < k {
      assert Next(run[k - 1], run[k]);
      RunDrainsOn(run, k - 1);
      RunHasInv(run);
      StepKeepsInv(run[k - 1], run[k]);
      if Harmless(run[0].kinds) {
        StepDrainsOn(run[k - 1], run[k]);
      }
      if !CanEnd(run[0].kinds) {
        StepStaysAlive(run[k - 1], run[k]);
      }
    }
  }

  /** A continue or trap report can end the drain too early: while child `a` continues or is trapped,
      child `b` changes and both changes merge into one SIGCHLD; the parent then blocks with no signal
      pending and the report of `b` uncollected. */
  lemma EarlyEndForgets(s: State, a: nat, b: nat, r: Report) returns (run: seq<State>)
    requires Init(s) && a in s.kids && b in s.kids && a != b && !Harmless(s.kinds)
    requires r in s.kinds && r != NoReport && r != Continued
    ensures IsRun(Next, run) && run[0] == s
    ensures var t := run[|run| - 1]; Blocked(t) && b in t.kids && t.kids[b] == Changed(r)
  {
    hide Waiting;
    var s1, early := s, Continued;
    run := [s];
    if Trapped in s.kinds {
      early := Trapped;
    } else {
      s1 := Do(s, Change(a, Stopped));
      assert Step(s, Change(a, Stopped), s1);
      run := [s, s1];
    }
    var s2 := Do(s1, Change(a, early));
    var s3 := Do(s2, Change(b, r));
    var s4 := Do(s3, Read);
    var s5 := Do(s4, Collect(a));
    assert Step(s1, Change(a, early), s2);
    assert Step(s2, Change(b, r), s3);
    assert Step(s3, Read, s4);
    assert Step(s4, Collect(a), s5);
    run := Chain(Next, run, [s1, s2, s3, s4, s5]);
  }

  lemma TwoChildren(s: State) returns (a: nat, b: nat)
    requires Init(s) && s.pool >= 2
    ensures a in s.kids && b in s.kids && a != b
  {
    a :| a in s.kids;
    var rest := s.kids.Keys - {a};
    assert |rest| == |s.kids.Keys| - 1 == s.pool - 1;
    b :| b in rest;
  }

  /** With two children or more, a parent blocked in read has collected every report in all runs
      exactly if no child can be trapped, nor be both stopped and continued. */
  lemma DrainCompleteExactly(s: State)
    requires Init(s) && s.pool >= 2
    ensures AlwaysCollects(s) <==> Harmless(s.kinds)
  {
    hide Next, Init, DrainsOn;
    if Harmless(s.kinds) {
      forall run: seq<State>, k: nat | IsRun(Next, run) && run[0] == s && k < |run| && Blocked(run[k])
        ensures !Waiting(run[k])
      {
        RunDrainsOn(run, k);
        Drained(run[k]);
        NobodyForgotten(run, k);
      }
    } else {
      var r := if Trapped in s.kinds then Trapped else Stopped;
      var a, b := TwoChildren(s);
      var run := EarlyEndForgets(s, a, b, r);
      assert Blocked(run[|run| - 1]) && Waiting(run[|run| - 1]);
    }
  }

  lemma Drained(s: State)
    requires DrainsOn(s)
    ensures s.drained
  {}

  /** And every child that ended has been reaped, and so replaced, in all runs exactly if that is so
      or no child can end at all. */
  lemma EndsReapedExactly(s: State)
    requires Init(s) && s.pool >= 2
    ensures AlwaysReaps(s) <==> Harmless(s.kinds) || !CanEnd(s.kinds)
  {
    hide Next, Init, DrainsOn, Harmless;
    if Harmless(s.kinds) || !CanEnd(s.kinds) {
      forall run: seq<State>, k: nat | IsRun(Next, run) && run[0] == s && k < |run| && Blocked(run[k])
        ensures AllAlive(run[k])
      {
        RunDrainsOn(run, k);
        if Harmless(s.kinds) {
          Drained(run[k]);
          NobodyForgotten(run, k);
        }
      }
    } else {
      var r: Report :| r in s.kinds && r.Final();
      var a, b := TwoChildren(s);
      var run := EarlyEndForgets(s, a, b, r);
      assert Blocked(run[|run| - 1]) && !AllAlive(run[|run| - 1]);
    }
  }

  // ---------------------------------------------------------------- the parent comes to rest

  ghost predicate ParentStep(s: State, t: State) {
    exists a: Action :: !a.Change? && Step(s, a, t)
  }

  ghost function Reports(kids: map<nat, Child>): set<nat> {
    set p | p in kids && kids[p].report != NoReport
  }

  ghost function Measure(s: State): nat {
    3 * |Reports(s.kids)| + (if s.sigchld then 2 else 0)
    + match s.parent
      case Reading => 0
      case Draining => 1
      case Reforking => 2
  }

  /** A collected report is gone, and a fresh child has none. */
  lemma ReportsStep(m: map<nat, Child>, p: nat, c: Child)
    requires c.report == NoReport
    ensures Reports(m[p := c]) == Reports(m) - {p} == Reports(m - {p})
  {}

  lemma CollectDecreases(s: State, pid: nat)
    requires Enabled(s, Collect(pid))
    ensures |Reports(Do(s, Collect(pid)).kids)| == |Reports(s.kids)| - 1
  {
    ReportsStep(s.kids, pid, s.kids[pid].(report := NoReport));
    assert pid in Reports(s.kids);
  }

  lemma ForkKeepsReports(s: State, pid: nat)
    requires Enabled(s, Fork(pid))
    ensures Reports(Do(s, Fork(pid)).kids) == Reports(s.kids)
  {
    ReportsStep(s.kids, pid, Child(Running, NoReport));
    assert pid !in Reports(s.kids);
  }

  lemma ParentStepDecreases(s: State, t: State)
    requires ParentStep(s, t)
    ensures Measure(t) < Measure(s)
  {
    hide Reports, Waiting;
    var a: Action :| !a.Change? && Step(s, a, t);
    if a.Collect? {
      CollectDecreases(s, a.pid);
    } else if a.Fork? {
      ForkKeepsReports(s, a.pid);
    }
  }

  lemma FreshPid(m: map<nat, Child>) returns (pid: nat)
    ensures pid !in m
  {
    pid := 0;
    var rest := m.Keys;
    while pid in m
      invariant forall p :: p in m && p !in rest ==> p < pid
      invariant rest <= m.Keys && (forall p :: p in rest ==> p >= pid)
      decreases |rest|
    {
      assert pid in rest;
      rest := rest - {pid};
      pid := pid + 1;
    }
  }

  lemma StuckExactlyWhenBlocked(s: State)
    ensures (exists t :: ParentStep(s, t)) <==> !Blocked(s)
  {
    if s.parent != Reading || s.sigchld {
      var a;
      match s.parent {
        case Reading => a := Read;
        case Draining =>
          a := Nothing;
          if Waiting(s) {
            var p :| p in s.kids && s.kids[p].report != NoReport;
            a := Collect(p);
          }
        case Reforking =>
          var pid := FreshPid(s.kids);
          a := Fork(pid);
      }
      assert Step(s, a, Do(s, a));
      assert ParentStep(s, Do(s, a));
    }
  }

  /** As long as no child changes, every run of the parent is finite, and one that cannot be
      prolonged has it blocked in read with no SIGCHLD pending. */
  lemma {:induction false} ParentComesToRest(run: seq<State>)
    requires IsRun(ParentStep, run)
    ensures |run| - 1 <= Measure(run[0])
    ensures var last := run[|run| - 1];
            (!exists t :: ParentStep(last, t)) ==> Blocked(last)
    decreases |run|
  {
    hide ParentStep, Measure;
    if |run| == 1 {
      StuckExactlyWhenBlocked(run[0]);
    } else {
      assert ParentStep(run[0], run[1]);
      ParentStepDecreases(run[0], run[1]);
      ParentComesToRest(run[1..]);
    }
  }

  // ---------------------------------------------------------------- what happens to each report

  /** In this step the report of child `p` is collected. */
  ghost predicate Taken(s: State, t: State, p: nat, report: Report) {
    && report != NoReport && p in s.kids && s.kids[p].report == report
    && (p !in t.kids || t.kids[p].report == NoReport)
  }

  ghost predicate StopTaken(s: State, t: State) {
    exists p :: Taken(s, t, p, Stopped)
  }

  ghost predicate EndTaken(s: State, t: State) {
    exists p, r: Report :: Taken(s, t, p, r) && r.Final()
  }

  /** A child that was not there before. */
  ghost predicate Forked(s: State, t: State) {
    exists p :: p in t.kids && p !in s.kids
  }

  /** What each collected report does: the child that ended leaves, a stopped one stays, and either
      leads to a fork; any other sends the parent back to read. */
  lemma TakenLeadsTo(s: State, t: State, p: nat, report: Report)
    requires Next(s, t) && Taken(s, t, p, report)
    ensures s.parent == Draining
    ensures t.parent == if report.Final() || report == Stopped then Reforking else Reading
    ensures t.kids.Keys == if report.Final() then s.kids.Keys - {p} else s.kids.Keys
    ensures t.stops == s.stops + if report == Stopped then 1 else 0
  {
    hide Waiting;
    var a :| Step(s, a, t);
  }

  /** The only way on from such a report is the fork of one child, which runs. */
  lemma ForkFollows(s: State, t: State)
    requires Next(s, t) && s.parent == Reforking && t.parent != Reforking
    ensures t.parent == Draining && exists p: nat :: p !in s.kids && t.kids == s.kids[p := Child(Running, NoReport)]
  {
    hide Waiting;
    var a :| Step(s, a, t);
  }

  lemma StopsStep(s: State, t: State)
    requires Next(s, t)
    ensures t.stops == s.stops + if StopTaken(s, t) then 1 else 0
  {
    hide Waiting;
    var a :| Step(s, a, t);
    if a.Collect? {
      assert Taken(s, t, a.pid, s.kids[a.pid].report);
    }
    forall p | Taken(s, t, p, Stopped)
      ensures a == Collect(p)
    {}
  }

  /** `stops` is what its name says: the number of stop reports collected so far in the run. */
  lemma {:induction false} StopsExactly(run: seq<State>, k: nat)
    requires IsRun(Next, run) && Init(run[0]) && k < |run|
    ensures run[k].stops == Count(StopTaken, run, k)
  {
    hide Next, StopTaken;
    if k > 0 {
      StopsExactly(run, k - 1);
      assert Next(run[k - 1], run[k]);
      StopsStep(run[k - 1], run[k]);
    }
  }

  lemma ForksStep(s: State, t: State)
    requires Next(s, t)
    ensures (if Forked(s, t) then 1 else 0) + (if t.parent == Reforking then 1 else 0)
            == (if StopTaken(s, t) then 1 else 0) + (if EndTaken(s, t) then 1 else 0)
               + if s.parent == Reforking then 1 else 0
  {
    hide Waiting;
    var a :| Step(s, a, t);
    if a.Collect? {
      assert Taken(s, t, a.pid, s.kids[a.pid].report);
    }
    forall p, r: Report | Taken(s, t, p, r)
      ensures a == Collect(p)
    {}
    forall p | p in t.kids && p !in s.kids
      ensures a == Fork(p)
    {}
    if a.Fork? {
      assert a.pid in t.kids && a.pid !in s.kids;
    }
  }

  /** One fork for each end and each stop collected, and no other: the counts differ by one only
      between a report and its fork. */
  lemma {:induction false} ForksExactly(run: seq<State>, k: nat)
    requires IsRun(Next, run) && Init(run[0]) && k < |run|
    ensures Count(Forked, run, k) + (if run[k].parent == Reforking then 1 else 0)
            == Count(StopTaken, run, k) + Count(EndTaken, run, k)
  {
    hide Next, StopTaken, EndTaken, Forked;
    if k > 0 {
      ForksExactly(run, k - 1);
      assert Next(run[k - 1], run[k]);
      ForksStep(run[k - 1], run[k]);
    }
  }

  /** waitid may report any child that has a change. */
  lemma AnyReportNext(s: State, p: nat)
    requires s.parent == Draining && p in s.kids && s.kids[p].report != NoReport
    ensures exists t :: Next(s, t) && Taken(s, t, p, s.kids[p].report)
  {
    var t := Do(s, Collect(p));
    assert Step(s, Collect(p), t);
    assert Taken(s, t, p, s.kids[p].report);
  }

  /** A child may end as long as it lives, stop or be trapped while it runs, and continue only when it
      is stopped; the parent is told by SIGCHLD. */
  lemma ChangesExactly(s: State, p: nat, report: Report)
    requires p in s.kids && report in s.kinds
    ensures var c := s.kids[p].status;
            (exists t :: Step(s, Change(p, report), t) && t.sigchld && t.kids == s.kids[p := Changed(report)]) <==>
              (if report == Exited || report == Killed || report == Dumped then c != Gone
               else if report == Continued then c == Suspended
               else report != NoReport && c == Running)
    ensures Changed(report).report == report
    ensures Changed(report).status == if report == Exited || report == Killed || report == Dumped then Gone
                                      else if report == Stopped then Suspended else Running
  {
    hide Waiting;
    if CanChange(s.kids[p], report) {
      assert Step(s, Change(p, report), Do(s, Change(p, report)));
    }
  }

  /** The end of a drain, and what `drained` then says: whether nothing was left when it ended. */
  lemma DrainEnds(s: State, t: State)
    requires Next(s, t) && s.parent == Draining && t.parent == Reading
    ensures t.drained <==> !Waiting(s)
  {
    var a :| Step(s, a, t);
  }

  /** A run can start with a pool of any children, and any kinds of change may be allowed. */
  lemma AnyStart(pids: set<nat>, kinds: set<Report>) returns (s: State)
    ensures Init(s) && s.pool == |pids| && s.kids.Keys == pids && s.kinds == kinds
  {
    var kids := map p | p in pids :: Child(Running, NoReport);
    assert kids.Keys == pids && |kids| == |kids.Keys|;
    s := State(|pids|, kinds, kids, false, Reading, 0, true);
  }
}
