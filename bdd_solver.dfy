/** The class bdd_min_marginal_averaging of
    include/bdd/bdd_min_marginal_averaging.h: the instruction array, the level
    table, the per-variable costs and the two sweep values of every
    instruction, updated in place by the sweeps and the averaging passes. */
module BddSolver {
  import opened ExtendedReals
  import opened BddStorage
  import opened BddInstructions
  import opened BddShape
  import opened BddBuilder
  import opened BddSweeps
  import opened BddMarginals
  import opened BddAveraging
  import opened BddBackward
  import opened BddBound
  import opened BddPaths
  import opened BddQueries
  import opened BddCosts

  /** The state every operation of the solver keeps: a built array and
      level table in which every variable occurs, one forward and one
      backward cost per instruction and one cost per variable. */
  ghost predicate Ready(instrs: seq<Instr>, levels: seq<Level>, levelStart: seq<nat>, rank: seq<nat>,
                        fwd: seq<ExtReal>, m: seq<ExtReal>, costs: seq<real>)
  {
    Shaped(instrs, levels, levelStart, rank) && RowsNonEmpty(levelStart) &&
    |fwd| == |instrs| && |m| == |instrs| && |costs| == NrVars(levelStart)
  }

  lemma BuiltRowsNonEmpty(nodes: seq<RawNode>, delims: seq<nat>, n: nat, levelStart: seq<nat>)
    requires DelimitersOk(delims, |nodes|) && |levelStart| == n + 1
    requires forall v :: 0 <= v < n ==> levelStart[v] + NrBdds(nodes, delims, v) == levelStart[v + 1]
    requires forall v :: 0 <= v < n ==> NrBdds(nodes, delims, v) > 0
    ensures NrVars(levelStart) == n && RowsNonEmpty(levelStart)
  {
  }

  /** The state init(const ILP_input&) (lines 177-184) produces from a
      storage already built from the input: init_branch_instructions, then
      set_costs with the objective, the forward costs not yet computed. Every
      variable must occur in some BDD (the assert on line 533). */
  method Init(nodes: seq<RawNode>, delims: seq<nat>, n: nat, objective: seq<real>)
    returns (instrs: seq<Instr>, levels: seq<Level>, levelStart: seq<nat>, ghost rank: seq<nat>,
             fwd: seq<ExtReal>, m: seq<ExtReal>, costs: seq<real>)
    requires WellFormed(nodes, delims, n) && n >= 1 && |nodes| <= SizeMax
    requires forall v :: 0 <= v < n ==> NrBdds(nodes, delims, v) > 0
    requires |objective| <= n
    ensures Ready(instrs, levels, levelStart, rank, fwd, m, costs)
    ensures instrs == FinalInstrs(nodes, delims) && levelStart == LevelStarts(nodes, delims, n)
    ensures SameShape(FinalLevels(nodes, delims, n), levels)
    ensures costs == Padded(objective, n)
    ensures forall v :: 0 <= v < NrVars(levelStart) ==> CostSum(levels, levelStart[v], levelStart[v + 1]) == Finite(costs[v])
    ensures BackwardConsistent(instrs, levels, m)
  {
    var lvs;
    instrs, lvs, levelStart := Build(nodes, delims, n);
    BuiltRowsNonEmpty(nodes, delims, n, levelStart);
    fwd := seq(|instrs|, _ => Infinity);
    levels, costs, m := BddCosts.SetCosts(instrs, lvs, levelStart, fwd, objective);
    rank := Ranks(nodes, n);
    ShapedKept(instrs, lvs, levels, levelStart, rank);
  }

  class Solver {
    var instrs: seq<Instr>
    var levels: seq<Level>
    var levelStart: seq<nat>
    /** The raw node order the incoming lists follow. */
    ghost var rank: seq<nat>
    /** The forward and the backward cost of every instruction. */
    var fwd: seq<ExtReal>
    var m: seq<ExtReal>
    /** costs_, one entry per variable. */
    var costs: seq<real>

    ghost predicate Valid()
      reads this
    {
      Ready(instrs, levels, levelStart, rank, fwd, m, costs)
    }

    /** init(const ILP_input&) (lines 177-184): see Init. */
    constructor (nodes: seq<RawNode>, delims: seq<nat>, n: nat, objective: seq<real>)
      requires WellFormed(nodes, delims, n) && n >= 1 && |nodes| <= SizeMax
      requires forall v :: 0 <= v < n ==> NrBdds(nodes, delims, v) > 0
      requires |objective| <= n
      ensures Valid()
      ensures instrs == FinalInstrs(nodes, delims) && levelStart == LevelStarts(nodes, delims, n)
      ensures SameShape(FinalLevels(nodes, delims, n), levels)
      ensures costs == Padded(objective, n)
      ensures forall v :: 0 <= v < NrVars(levelStart) ==> CostSum(levels, levelStart[v], levelStart[v + 1]) == Finite(costs[v])
      ensures BackwardConsistent(instrs, levels, m)
    {
      var ins, lvs, ls, rk, fw, mm, cs := Init(nodes, delims, n, objective);
      instrs, levels, levelStart, rank, fwd, m, costs := ins, lvs, ls, rk, fw, mm, cs;
    }

    /** set_costs (lines 524-539): see BddCosts.SetCosts. */
    method SetCosts(input: seq<real>)
      requires Valid() && |input| <= NrVars(levelStart)
      modifies this
      ensures Valid()
      ensures instrs == old(instrs) && levelStart == old(levelStart) && rank == old(rank) && fwd == old(fwd)
      ensures SameShape(old(levels), levels) && costs == Padded(input, NrVars(levelStart))
      ensures forall v, l :: 0 <= v < NrVars(levelStart) && levelStart[v] <= l < levelStart[v + 1] ==>
                levels[l].cost == Finite(Share(levelStart, costs, v))
      ensures forall v :: 0 <= v < NrVars(levelStart) ==> CostSum(levels, levelStart[v], levelStart[v + 1]) == Finite(costs[v])
      ensures BackwardConsistent(instrs, levels, m)
    {
      var lvs', cs, m' := BddCosts.SetCosts(instrs, levels, levelStart, m, input);
      ShapedKept(instrs, levels, lvs', levelStart, rank);
      assert Ready(instrs, lvs', levelStart, rank, fwd, m', cs);
      levels, costs, m := lvs', cs, m';
    }

    /** backward_run (lines 382-387). */
    method BackwardRun()
      requires Valid()
      modifies this
      ensures Valid() && BackwardConsistent(instrs, levels, m)
      ensures instrs == old(instrs) && levels == old(levels) && levelStart == old(levelStart) && rank == old(rank)
      ensures fwd == old(fwd) && costs == old(costs)
    {
      m := BddSweeps.BackwardRun(instrs, levels, levelStart, m);
    }

    /** forward_run (lines 411-416). */
    method ForwardRun()
      requires Valid()
      modifies this
      ensures Valid() && ForwardConsistent(instrs, levels, rank, fwd)
      ensures instrs == old(instrs) && levels == old(levels) && levelStart == old(levelStart) && rank == old(rank)
      ensures m == old(m) && costs == old(costs)
    {
      fwd := BddSweeps.ForwardRun(instrs, levels, levelStart, rank, fwd);
    }

    /** lower_bound (line 66), that is lower_bound_backward_run (lines
        389-397): the bound of the current costs, which no assignment's cost
        summed over the BDDs undercuts (BddBound.LowerBoundBelowCost). */
    method LowerBound() returns (lb: ExtReal)
      requires Valid()
      modifies this
      ensures Valid() && BackwardConsistent(instrs, levels, m)
      ensures lb == BddBound.LowerBound(instrs, levels, levelStart, m)
      ensures instrs == old(instrs) && levels == old(levels) && levelStart == old(levelStart) && rank == old(rank)
      ensures fwd == old(fwd) && costs == old(costs)
    {
      m, lb := LowerBoundRun(instrs, levels, levelStart, m);
    }

    /** min_marginal_averaging_iteration (lines 418-429): a forward averaging
        pass, then a backward one. When every collected marginal was finite
        (ok), each variable's costs still add up to what they did before, the
        backward costs agree with their steps and lb is the new lower bound;
        the level table keeps its shape in any case. */
    method Iteration() returns (ok: bool, lb: ExtReal)
      requires Valid()
      modifies this
      ensures Valid()
      ensures instrs == old(instrs) && levelStart == old(levelStart) && rank == old(rank) && costs == old(costs)
      ensures SameShape(old(levels), levels)
      ensures ok ==> BackwardConsistent(instrs, levels, m) && lb == BddBound.LowerBound(instrs, levels, levelStart, m)
      ensures ok ==> forall v :: 0 <= v < NrVars(levelStart) ==>
                CostSum(levels, levelStart[v], levelStart[v + 1]) == CostSum(old(levels), levelStart[v], levelStart[v + 1])
    {
      var ok1, lvs1, fwd1 := AveragingForward(instrs, levels, levelStart, rank, fwd, m);
      var ok2, lvs2, m2, lb2 := AveragingBackward(instrs, lvs1, levelStart, fwd1, m);
      ghost var lvs0 := levels;
      SameShapeTransitive(lvs0, lvs1, lvs2);
      ShapedKept(instrs, lvs0, lvs2, levelStart, rank);
      forall v | 0 <= v < NrVars(levelStart) && ok1 && ok2
        ensures CostSum(lvs2, levelStart[v], levelStart[v + 1]) == CostSum(lvs0, levelStart[v], levelStart[v + 1])
      {
        assert RowKept(instrs, lvs0, lvs1, levelStart, fwd1, m, v);
        assert RowKept(instrs, lvs1, lvs2, levelStart, fwd1, m2, v);
      }
      ok, lb := ok1 && ok2, lb2;
      levels, fwd, m := lvs2, fwd1, m2;
    }

    /** evaluate (lines 580-593) against costs_. */
    method Evaluate(x: seq<bool>) returns (r: ExtReal)
      requires Valid() && |x| == NrVars(levelStart)
      ensures Covers(instrs, levels, x)
      ensures !Feasible(instrs, levels, x) ==> r == Infinity
      ensures Feasible(instrs, levels, x) ==> r == Finite(AssignmentCost(x, costs, |x|))
    {
      r := BddQueries.Evaluate(instrs, levels, levelStart, costs, x);
    }
  }
}
