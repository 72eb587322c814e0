/** The lower bound of include/bdd/bdd_min_marginal_averaging.h (lines
    389-409). After a backward run the backward cost of a BDD's root is the
    cheapest way through that BDD; the lower bound adds these up over all BDDs
    (each BDD's root sits alone in the level that heads its chain). Since
    every BDD pays its own share of each variable's cost, no assignment
    costs less, summed over the BDDs, than the bound. */
module BddBound {
  import opened ExtendedReals
  import opened BddStorage
  import opened BddInstructions
  import opened BddSweeps
  import opened BddPaths

  /** lower_bound_backward(var, bdd_index) (lines 399-409): the backward cost
      of the root for a level without a predecessor, 0 for the others. */
  function HeadBound(instrs: seq<Instr>, levels: seq<Level>, m: seq<ExtReal>, l: nat): ExtReal
    requires RangesOk(instrs, levels) && |m| == |instrs| && l < |levels|
  {
    if levels[l].prev == NoLevel then m[levels[l].first] else Finite(0.0)
  }

  /** What lower_bound_backward returns once the backward values are
      consistent: for a chain head, the cheapest cost of a path from the
      level's first instruction, attained by some assignment; 0 for every
      other level. */
  lemma HeadBoundIsMinimum(instrs: seq<Instr>, levels: seq<Level>, m: seq<ExtReal>, n: nat, l: nat)
    requires RangesOk(instrs, levels) && Owned(instrs, levels) && Downward(instrs, levels)
    requires BackwardConsistent(instrs, levels, m) && l < |levels|
    requires forall i :: 0 <= i < |instrs| ==> VarOf(instrs, levels, i) < n
    ensures levels[l].prev != NoLevel ==> HeadBound(instrs, levels, m, l) == Finite(0.0)
    ensures levels[l].prev == NoLevel ==>
      (forall x: seq<bool> :: |x| == n ==> Le(HeadBound(instrs, levels, m, l), PathCost(instrs, levels, x, At(levels[l].first)))) &&
      exists x: seq<bool> :: |x| == n && Covers(instrs, levels, x) && HeadBound(instrs, levels, m, l) == PathCost(instrs, levels, x, At(levels[l].first))
  {
    if levels[l].prev == NoLevel {
      BackwardIsMinimum(instrs, levels, m, n, levels[l].first);
    }
  }

  /** The contributions of levels a .. b - 1, added in increasing order. */
  function HeadsSum(instrs: seq<Instr>, levels: seq<Level>, m: seq<ExtReal>, a: nat, b: nat): ExtReal
    requires RangesOk(instrs, levels) && |m| == |instrs| && a <= b <= |levels|
    decreases b
  {
    if a == b then Finite(0.0) else Add(HeadsSum(instrs, levels, m, a, b - 1), HeadBound(instrs, levels, m, b - 1))
  }

  /** The contributions of rows v .. last, added from the last row down. */
  function BoundFrom(instrs: seq<Instr>, levels: seq<Level>, levelStart: seq<nat>, m: seq<ExtReal>, v: nat): ExtReal
    requires RowsOk(levels, levelStart) && RangesOk(instrs, levels) && |m| == |instrs| && v <= NrVars(levelStart)
    decreases NrVars(levelStart) - v
  {
    if v == NrVars(levelStart) then Finite(0.0)
    else Add(BoundFrom(instrs, levels, levelStart, m, v + 1), HeadsSum(instrs, levels, m, levelStart[v], levelStart[v + 1]))
  }

  /** The lower bound of a state: every row's contributions. */
  function LowerBound(instrs: seq<Instr>, levels: seq<Level>, levelStart: seq<nat>, m: seq<ExtReal>): ExtReal
    requires RowsOk(levels, levelStart) && RangesOk(instrs, levels) && |m| == |instrs|
  {
    BoundFrom(instrs, levels, levelStart, m, 0)
  }

  /** lower_bound_backward_run (lines 389-397): a backward run, then the
      contributions of every level, the last variable first. */
  method LowerBoundRun(instrs: seq<Instr>, levels: seq<Level>, levelStart: seq<nat>, m: seq<ExtReal>)
    returns (m': seq<ExtReal>, lb: ExtReal)
    requires RowsOk(levels, levelStart) && RangesOk(instrs, levels) && Owned(instrs, levels) && Downward(instrs, levels)
    requires |m| == |instrs|
    ensures BackwardConsistent(instrs, levels, m')
    ensures lb == LowerBound(instrs, levels, levelStart, m')
  {
    m' := BackwardRun(instrs, levels, levelStart, m);
    lb := Finite(0.0);
    var v: nat := NrVars(levelStart);
    while v > 0
      invariant v <= NrVars(levelStart)
      invariant lb == BoundFrom(instrs, levels, levelStart, m', v)
    {
      v := v - 1;
      var l := levelStart[v];
      while l < levelStart[v + 1]
        invariant levelStart[v] <= l <= levelStart[v + 1]
        invariant lb == Add(BoundFrom(instrs, levels, levelStart, m', v + 1), HeadsSum(instrs, levels, m', levelStart[v], l))
      {
        AddAssociative(BoundFrom(instrs, levels, levelStart, m', v + 1), HeadsSum(instrs, levels, m', levelStart[v], l),
                       HeadBound(instrs, levels, m', l));
        lb := Add(lb, HeadBound(instrs, levels, m', l));
        l := l + 1;
      }
    }
  }

  // ----- frames -----

  lemma {:induction false} HeadsSumFrame(instrs: seq<Instr>, levels: seq<Level>, levels': seq<Level>,
                                         m: seq<ExtReal>, m': seq<ExtReal>, a: nat, b: nat)
    requires RangesOk(instrs, levels) && RangesOk(instrs, levels') && |m| == |instrs| && |m'| == |instrs|
    requires a <= b <= |levels| == |levels'|
    requires forall l :: a <= l < b ==> HeadBound(instrs, levels', m', l) == HeadBound(instrs, levels, m, l)
    ensures HeadsSum(instrs, levels', m', a, b) == HeadsSum(instrs, levels, m, a, b)
    decreases b
  {
    if a < b {
      HeadsSumFrame(instrs, levels, levels', m, m', a, b - 1);
    }
  }

  lemma {:induction false} BoundFromFrame(instrs: seq<Instr>, levels: seq<Level>, levels': seq<Level>, levelStart: seq<nat>,
                                          m: seq<ExtReal>, m': seq<ExtReal>, v: nat)
    requires RowsOk(levels, levelStart) && RangesOk(instrs, levels) && |m| == |instrs|
    requires RowsOk(levels', levelStart) && RangesOk(instrs, levels') && |m'| == |instrs|
    requires v <= NrVars(levelStart)
    requires forall l :: levelStart[v] <= l < |levels| ==> HeadBound(instrs, levels', m', l) == HeadBound(instrs, levels, m, l)
    ensures BoundFrom(instrs, levels', levelStart, m', v) == BoundFrom(instrs, levels, levelStart, m, v)
    decreases NrVars(levelStart) - v
  {
    if v < NrVars(levelStart) {
      BoundFromFrame(instrs, levels, levels', levelStart, m, m', v + 1);
      HeadsSumFrame(instrs, levels, levels', m, m', levelStart[v], levelStart[v + 1]);
    }
  }

  /** The lower bound depends on the level costs alone: any two backward
      states that agree with their steps give the same bound. */
  lemma LowerBoundUnique(instrs: seq<Instr>, levels: seq<Level>, levelStart: seq<nat>, m: seq<ExtReal>, m': seq<ExtReal>)
    requires RowsOk(levels, levelStart) && RangesOk(instrs, levels) && Owned(instrs, levels) && Downward(instrs, levels)
    requires BackwardConsistent(instrs, levels, m) && BackwardConsistent(instrs, levels, m')
    ensures LowerBound(instrs, levels, levelStart, m) == LowerBound(instrs, levels, levelStart, m')
  {
    forall i | 0 <= i < |instrs| {
      VarBelow(instrs, levels, levelStart, i);
    }
    BackwardUnique(instrs, levels, m, m', NrVars(levelStart));
  }

  // ----- the bound is a bound -----

  /** The cost of the path x selects from every instruction. */
  ghost function PathCosts(instrs: seq<Instr>, levels: seq<Level>, x: seq<bool>): (r: seq<ExtReal>)
    requires Owned(instrs, levels) && Downward(instrs, levels) && Covers(instrs, levels, x)
    ensures |r| == |instrs| && forall k :: 0 <= k < |instrs| ==> r[k] == PathCost(instrs, levels, x, At(k))
  {
    seq(|instrs|, k requires 0 <= k < |instrs| => PathCost(instrs, levels, x, At(k)))
  }

  lemma {:induction false} HeadsSumMonotone(instrs: seq<Instr>, levels: seq<Level>, m: seq<ExtReal>, m': seq<ExtReal>,
                                            a: nat, b: nat)
    requires RangesOk(instrs, levels) && |m| == |instrs| && |m'| == |instrs| && a <= b <= |levels|
    requires forall k :: 0 <= k < |instrs| ==> Le(m[k], m'[k])
    ensures Le(HeadsSum(instrs, levels, m, a, b), HeadsSum(instrs, levels, m', a, b))
    decreases b
  {
    if a < b {
      HeadsSumMonotone(instrs, levels, m, m', a, b - 1);
      AddMonotoneBoth(HeadsSum(instrs, levels, m, a, b - 1), HeadsSum(instrs, levels, m', a, b - 1),
                      HeadBound(instrs, levels, m, b - 1), HeadBound(instrs, levels, m', b - 1));
    }
  }

  lemma {:induction false} BoundFromMonotone(instrs: seq<Instr>, levels: seq<Level>, levelStart: seq<nat>,
                                             m: seq<ExtReal>, m': seq<ExtReal>, v: nat)
    requires RowsOk(levels, levelStart) && RangesOk(instrs, levels) && |m| == |instrs| && |m'| == |instrs|
    requires v <= NrVars(levelStart) && forall k :: 0 <= k < |instrs| ==> Le(m[k], m'[k])
    ensures Le(BoundFrom(instrs, levels, levelStart, m, v), BoundFrom(instrs, levels, levelStart, m', v))
    decreases NrVars(levelStart) - v
  {
    if v < NrVars(levelStart) {
      BoundFromMonotone(instrs, levels, levelStart, m, m', v + 1);
      HeadsSumMonotone(instrs, levels, m, m', levelStart[v], levelStart[v + 1]);
      AddMonotoneBoth(BoundFrom(instrs, levels, levelStart, m, v + 1), BoundFrom(instrs, levels, levelStart, m', v + 1),
                      HeadsSum(instrs, levels, m, levelStart[v], levelStart[v + 1]),
                      HeadsSum(instrs, levels, m', levelStart[v], levelStart[v + 1]));
    }
  }

  /** Weak duality: once the backward costs agree with their steps, the lower
      bound is at most the total, over all BDDs, of the costs that any
      assignment x pays on the paths it selects from the roots. */
  lemma LowerBoundBelowCost(instrs: seq<Instr>, levels: seq<Level>, levelStart: seq<nat>, m: seq<ExtReal>, x: seq<bool>)
    requires RowsOk(levels, levelStart) && RangesOk(instrs, levels) && Owned(instrs, levels) && Downward(instrs, levels)
    requires BackwardConsistent(instrs, levels, m) && Covers(instrs, levels, x)
    ensures Le(LowerBound(instrs, levels, levelStart, m), LowerBound(instrs, levels, levelStart, PathCosts(instrs, levels, x)))
  {
    var pc := PathCosts(instrs, levels, x);
    forall k | 0 <= k < |instrs| ensures Le(m[k], pc[k]) {
      BackwardBelowPaths(instrs, levels, m, x, At(k));
    }
    BoundFromMonotone(instrs, levels, levelStart, m, pc, 0);
  }
}
