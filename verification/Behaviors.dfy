/** Finite runs of a step relation, shared by every protocol model of the project. */
module Behaviors {

  /** A non-empty sequence of states in which neighbours are related by one step. */
  ghost predicate IsRun<S(!new)>(next: (S, S) -> bool, run: seq<S>) {
    && |run| > 0
    && forall i :: 0 <= i < |run| - 1 ==> next(run[i], run[i + 1])
  }

  /** A predicate kept by every step holds all along a run that starts in it. */
  lemma {:induction false} Invariance<S(!new)>(next: (S, S) -> bool, inv: S -> bool, run: seq<S>)
    requires IsRun(next, run) && inv(run[0])
    requires forall s, t :: inv(s) && next(s, t) ==> inv(t)
    ensures forall i :: 0 <= i < |run| ==> inv(run[i])
  {
    var k := 0;
    while k < |run| - 1
      invariant 0 <= k < |run|
      invariant forall i :: 0 <= i <= k ==> inv(run[i])
    {
      assert next(run[k], run[k + 1]);
      k := k + 1;
    }
  }

  /** A run may be prefixed by one more step. */
  lemma Prepend<S(!new)>(next: (S, S) -> bool, s: S, run: seq<S>)
    requires IsRun(next, run) && next(s, run[0])
    ensures IsRun(next, [s] + run)
  {
    var longer := [s] + run;
    forall i | 0 <= i < |longer| - 1
      ensures next(longer[i], longer[i + 1])
    {
      if i > 0 {
        assert longer[i] == run[i - 1] && longer[i + 1] == run[i];
      }
    }
  }

  /** Two runs, the second starting where the first ends, make one. */
  lemma Chain<S(!new)>(next: (S, S) -> bool, run: seq<S>, more: seq<S>) returns (whole: seq<S>)
    requires IsRun(next, run) && IsRun(next, more) && run[|run| - 1] == more[0]
    ensures IsRun(next, whole) && whole == run + more[1..]
    ensures whole[0] == run[0] && whole[|whole| - 1] == more[|more| - 1]
  {
    whole := run + more[1..];
    forall i | 0 <= i < |whole| - 1
      ensures next(whole[i], whole[i + 1])
    {
      if i < |run| - 1 {
        assert whole[i] == run[i] && whole[i + 1] == run[i + 1];
      } else {
        assert whole[i] == more[i - |run| + 1] && whole[i + 1] == more[i - |run| + 2];
      }
    }
  }

  /** How many of the first `k` steps are of that kind. */
  ghost function Count<S>(kind: (S, S) -> bool, run: seq<S>, k: nat): nat
    requires k < |run|
  {
    if k == 0 then 0 else Count(kind, run, k - 1) + if kind(run[k - 1], run[k]) then 1 else 0
  }
}
