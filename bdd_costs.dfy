/** set_costs of include/bdd/bdd_min_marginal_averaging.h (lines 524-539):
    the objective is copied into the per-variable costs (padded with zeros up
    to the number of variables) and each variable's cost is split evenly among
    the BDDs that contain it, so that the levels of a row add up to that
    variable's cost; a backward run then brings the backward costs up to date. */
module BddCosts {
  import opened ExtendedReals
  import opened BddInstructions
  import opened BddSweeps
  import opened BddMarginals
  import opened BddQueries

  /** costs_ after the copy and the fill (lines 528-529). */
  function Padded(input: seq<real>, n: nat): (costs: seq<real>)
    requires |input| <= n
    ensures |costs| == n
    ensures forall v :: 0 <= v < |input| ==> costs[v] == input[v]
    ensures forall v :: |input| <= v < n ==> costs[v] == 0.0
  {
    input + seq(n - |input|, _ => 0.0)
  }

  /** The number of BDDs containing variable v (nr_bdds). */
  function RowSize(levelStart: seq<nat>, v: nat): nat
    requires |levelStart| >= 1 && v < NrVars(levelStart) && levelStart[v] <= levelStart[v + 1]
  {
    levelStart[v + 1] - levelStart[v]
  }

  /** The cost each BDD of row v takes from costs[v]. */
  function Share(levelStart: seq<nat>, costs: seq<real>, v: nat): real
    requires |levelStart| >= 1 && v < NrVars(levelStart) && v < |costs| && levelStart[v] < levelStart[v + 1]
  {
    costs[v] / (RowSize(levelStart, v) as real)
  }

  /** Every row holds at least one level (the assert on line 533). */
  ghost predicate RowsNonEmpty(levelStart: seq<nat>)
  {
    |levelStart| >= 1 && forall v :: 0 <= v < NrVars(levelStart) ==> levelStart[v] < levelStart[v + 1]
  }

  // ----- the finding: the shares are read from the input, not from costs_ -----

  /** What line 535 reads for variable v: the v-th element of the input
      range, which exists only when v is below its length (None stands for a
      read past its end). */
  function AsWrittenCost(input: seq<real>, v: nat): (r: Option<real>)
    ensures r.Some? <==> v < |input|
    ensures r.Some? ==> r.value == input[v]
  {
    if v < |input| then Some(input[v]) else None
  }

  /** The assert on line 527 admits an objective shorter than the number of
      variables; for it the loop reads past the end of the input, where the
      padded costs_ holds 0. */
  lemma AsWrittenReadsPastInput()
    ensures var input := [5.0]; var n := 2;
            |input| <= n && AsWrittenCost(input, 1) == None && Padded(input, n)[1] == 0.0
  {
  }

  /** Where the as-written read is defined it agrees with the padded costs,
      and for an objective of full length it is defined for every variable. */
  lemma AsWrittenAgrees(input: seq<real>, n: nat, v: nat)
    requires |input| <= n && v < n
    ensures AsWrittenCost(input, v).Some? ==> AsWrittenCost(input, v).value == Padded(input, n)[v]
    ensures |input| == n ==> AsWrittenCost(input, v) == Some(Padded(input, n)[v])
  {
  }

  // ----- the row sums -----

  /** b - a levels of cost d add up to b - a copies of d. */
  lemma {:induction false} CostSumUniform(levels: seq<Level>, a: nat, b: nat, d: real)
    requires a <= b <= |levels|
    requires forall k :: a <= k < b ==> levels[k].cost == Finite(d)
    ensures CostSum(levels, a, b) == Finite(Times(b - a, d))
    decreases b
  {
    if a < b {
      CostSumUniform(levels, a, b - 1, d);
    }
  }

  lemma DivideBack(k: nat, c: real)
    requires k > 0
    ensures (k as real) * (c / (k as real)) == c
  {
  }

  /** The shares of a row add up to the variable's cost. */
  lemma ShareSum(levels: seq<Level>, levelStart: seq<nat>, costs: seq<real>, v: nat)
    requires |levelStart| >= 1 && v < NrVars(levelStart) && v < |costs| && levelStart[v] < levelStart[v + 1] <= |levels|
    requires forall k :: levelStart[v] <= k < levelStart[v + 1] ==> levels[k].cost == Finite(Share(levelStart, costs, v))
    ensures CostSum(levels, levelStart[v], levelStart[v + 1]) == Finite(costs[v])
  {
    var s := Share(levelStart, costs, v);
    CostSumUniform(levels, levelStart[v], levelStart[v + 1], s);
    TimesIsProduct(RowSize(levelStart, v), s);
    DivideBack(RowSize(levelStart, v), costs[v]);
  }

  // ----- set_costs -----

  /** The levels of rows below v carry their shares, the others are as before. */
  ghost predicate SharesUpTo(levels: seq<Level>, levels': seq<Level>, levelStart: seq<nat>, costs: seq<real>, v: nat)
    requires RowsOk(levels, levelStart) && RowsNonEmpty(levelStart) && |costs| == NrVars(levelStart) && v <= NrVars(levelStart)
  {
    SameShape(levels, levels') &&
    (forall u, k :: 0 <= u < v && levelStart[u] <= k < levelStart[u + 1] ==>
       levels'[k].cost == Finite(Share(levelStart, costs, u))) &&
    (forall k :: levelStart[v] <= k < |levels| ==> levels'[k] == levels[k])
  }

  /** The inner loop of lines 534-536: every level of row v takes its share. */
  method ShareRow(levels: seq<Level>, levelStart: seq<nat>, costs: seq<real>, v: nat) returns (levels': seq<Level>)
    requires RowsOk(levels, levelStart) && RowsNonEmpty(levelStart) && |costs| == NrVars(levelStart) && v < NrVars(levelStart)
    ensures SameShape(levels, levels')
    ensures forall k :: levelStart[v] <= k < levelStart[v + 1] ==> levels'[k].cost == Finite(Share(levelStart, costs, v))
    ensures forall k :: 0 <= k < |levels| && !(levelStart[v] <= k < levelStart[v + 1]) ==> levels'[k] == levels[k]
  {
    levels' := levels;
    var l := levelStart[v];
    while l < levelStart[v + 1]
      invariant levelStart[v] <= l <= levelStart[v + 1]
      invariant SameShape(levels, levels')
      invariant forall k :: levelStart[v] <= k < l ==> levels'[k].cost == Finite(Share(levelStart, costs, v))
      invariant forall k :: 0 <= k < |levels| && !(levelStart[v] <= k < l) ==> levels'[k] == levels[k]
    {
      levels' := levels'[l := levels'[l].(cost := Finite(costs[v] / (RowSize(levelStart, v) as real)))];
      l := l + 1;
    }
  }

  lemma SharesStep(levels: seq<Level>, levels': seq<Level>, levels'': seq<Level>, levelStart: seq<nat>, costs: seq<real>, v: nat)
    requires RowsOk(levels, levelStart) && RowsNonEmpty(levelStart) && |costs| == NrVars(levelStart) && v < NrVars(levelStart)
    requires SharesUpTo(levels, levels', levelStart, costs, v)
    requires SameShape(levels', levels'')
    requires forall k :: levelStart[v] <= k < levelStart[v + 1] ==> levels''[k].cost == Finite(Share(levelStart, costs, v))
    requires forall k :: 0 <= k < |levels| && !(levelStart[v] <= k < levelStart[v + 1]) ==> levels''[k] == levels'[k]
    ensures SharesUpTo(levels, levels'', levelStart, costs, v + 1)
  {
    SameShapeTransitive(levels, levels', levels'');
    forall u, k | 0 <= u < v + 1 && levelStart[u] <= k < levelStart[u + 1]
      ensures levels''[k].cost == Finite(Share(levelStart, costs, u))
    {
      if u < v {
        assert levelStart[u + 1] <= levelStart[v];
      }
    }
  }

  /** set_costs (lines 524-539), with the shares taken from the padded costs_
      (see AsWrittenCost for what line 535 reads). The costs are the padded
      objective, each level of row v carries costs[v] split evenly over the
      row, so the row adds up to costs[v], nothing but the costs changes, and
      the backward costs agree with their steps. */
  method SetCosts(instrs: seq<Instr>, levels: seq<Level>, levelStart: seq<nat>, m: seq<ExtReal>, input: seq<real>)
    returns (levels': seq<Level>, costs: seq<real>, m': seq<ExtReal>)
    requires RowsOk(levels, levelStart) && RangesOk(instrs, levels) && Owned(instrs, levels) && Downward(instrs, levels)
    requires |m| == |instrs| && |input| <= NrVars(levelStart) && RowsNonEmpty(levelStart)
    ensures costs == Padded(input, NrVars(levelStart))
    ensures SameShape(levels, levels')
    ensures forall v, l :: 0 <= v < NrVars(levelStart) && levelStart[v] <= l < levelStart[v + 1] ==>
              levels'[l].cost == Finite(Share(levelStart, costs, v))
    ensures forall v :: 0 <= v < NrVars(levelStart) ==> CostSum(levels', levelStart[v], levelStart[v + 1]) == Finite(costs[v])
    ensures RowsOk(levels', levelStart) && BackwardConsistent(instrs, levels', m')
  {
    var n := NrVars(levelStart);
    costs := Padded(input, n);
    levels' := levels;
    var v: nat := 0;
    while v < n
      invariant v <= n && SharesUpTo(levels, levels', levelStart, costs, v)
    {
      var levels'' := ShareRow(levels', levelStart, costs, v);
      SharesStep(levels, levels', levels'', levelStart, costs, v);
      levels' := levels'';
      v := v + 1;
    }
    forall u | 0 <= u < n ensures CostSum(levels', levelStart[u], levelStart[u + 1]) == Finite(costs[u]) {
      ShareSum(levels', levelStart, costs, u);
    }
    SameShapeKeeps(instrs, levels, levels', levelStart, []);
    m' := BackwardRun(instrs, levels', levelStart, m);
  }
}
