/** min_marginal_averaging_backward of include/bdd/bdd_min_marginal_averaging.h
    (lines 486-513). The variables are visited from the last down to the
    first. At each, the min-marginal pair of every BDD's level is taken (the
    forward costs are those the forward pass left, the backward costs of the
    later variables are already the new ones), the pairs are averaged, and
    then every level's cost is moved towards the average, the level's
    backward costs are recomputed and its share of the lower bound is added.
    A pass fails (ok is false) where the source's check that the averages
    are finite would abort. */
module BddBackward {
  import opened ExtendedReals
  import opened BddStorage
  import opened BddInstructions
  import opened BddSweeps
  import opened BddMarginals
  import opened BddAveraging
  import opened BddBound

  /** The collecting loop of the backward pass at v (lines 491-494). */
  method CollectBackward(instrs: seq<Instr>, levels: seq<Level>, levelStart: seq<nat>, fwd: seq<ExtReal>, m: seq<ExtReal>, v: nat)
    returns (ms: seq<Marginals>)
    requires RowsOk(levels, levelStart) && SweepState(instrs, levels, fwd, m) && v < NrVars(levelStart)
    ensures levelStart[v] <= levelStart[v + 1] <= |levels|
    ensures PairsOfRow(instrs, levels, levelStart, fwd, m, v, ms)
  {
    RowBounds(levels, levelStart, v);
    ms := [];
    var l := levelStart[v];
    while l < levelStart[v + 1]
      invariant levelStart[v] <= l <= levelStart[v + 1] && |ms| == l - levelStart[v]
      invariant PrefixPairs(instrs, levels, fwd, m, levelStart[v], ms)
    {
      var p := MinMarginal(instrs, levels, fwd, m, l);
      PairsExtend(instrs, levels, fwd, m, levelStart[v], ms, l, p);
      ms := ms + [p];
      l := l + 1;
    }
  }

  /** The backward costs of the levels of row v from start up to l agree
      with their steps over levels' and the old costs m; the rest are m. */
  ghost predicate RowRecomputed(instrs: seq<Instr>, levels': seq<Level>, m: seq<ExtReal>, m': seq<ExtReal>, start: nat, l: nat)
    requires Owned(instrs, levels') && Downward(instrs, levels') && |m| == |instrs| && |m'| == |instrs|
  {
    (forall i :: 0 <= i < |instrs| && start <= LevelOfInstr(instrs, i) < l ==> m'[i] == BackwardValue(instrs, levels', m, i)) &&
    (forall i :: 0 <= i < |instrs| && !(start <= LevelOfInstr(instrs, i) < l) ==> m'[i] == m[i])
  }

  /** Moving the cost of level l (in row v, after start) and recomputing its
      backward costs extends the recomputed part of the row by l. */
  lemma RecomputeStep(instrs: seq<Instr>, levels: seq<Level>, levels': seq<Level>, levels'': seq<Level>, levelStart: seq<nat>,
                      m: seq<ExtReal>, m': seq<ExtReal>, m'': seq<ExtReal>, v: nat, l: nat)
    requires RowsOk(levels, levelStart) && RangesOk(instrs, levels) && Owned(instrs, levels) && Downward(instrs, levels)
    requires SameShape(levels, levels') && SameShape(levels', levels'') && |m| == |instrs| && |m'| == |instrs|
    requires v < NrVars(levelStart) && levelStart[v] <= l < levelStart[v + 1]
    requires forall k :: 0 <= k < |levels| && k != l ==> levels''[k] == levels'[k]
    requires SameShapeOk(instrs, levels, levels') && SameShapeOk(instrs, levels, levels'')
    requires RowRecomputed(instrs, levels', m, m', levelStart[v], l)
    requires |m''| == |m'|
    requires forall i :: levels''[l].first <= i < levels''[l].last ==> m''[i] == BackwardValue(instrs, levels'', m', i)
    requires forall i :: 0 <= i < |m'| && !(levels''[l].first <= i < levels''[l].last) ==> m''[i] == m'[i]
    ensures RowRecomputed(instrs, levels'', m, m'', levelStart[v], l + 1)
  {
    forall k | 0 <= k < |instrs| ensures VarOf(instrs, levels, k) == v <==> levelStart[v] <= LevelOfInstr(instrs, k) < levelStart[v + 1] {
      InRow(instrs, levels, levelStart, v, k);
    }
    forall k | 0 <= k < |instrs| ensures levels''[l].first <= k < levels''[l].last <==> LevelOfInstr(instrs, k) == l {
      InRange(instrs, levels'', l, k);
    }
    forall i | 0 <= i < |instrs| && levelStart[v] <= LevelOfInstr(instrs, i) < l + 1
      ensures m''[i] == BackwardValue(instrs, levels'', m, i)
    {
      if LevelOfInstr(instrs, i) == l {
        BackwardFrame(instrs, levels'', levels'', m, m', i);
      } else {
        BackwardFrame(instrs, levels', levels'', m, m, i);
      }
    }
  }

  /** The shape facts a table keeps when only its costs change. */
  ghost predicate SameShapeOk(instrs: seq<Instr>, levels: seq<Level>, levels': seq<Level>)
    requires Owned(instrs, levels)
  {
    RangesOk(instrs, levels') && Owned(instrs, levels') && Downward(instrs, levels') &&
    forall i :: 0 <= i < |instrs| ==> VarOf(instrs, levels', i) == VarOf(instrs, levels, i)
  }

  /** levels' is levels with the levels start .. l - 1 moved by their
      corrections. */
  ghost predicate PartSet(levels: seq<Level>, levels': seq<Level>, start: nat, l: nat, avg: Marginals, ms: seq<Marginals>)
    requires start <= l <= start + |ms| && l <= |levels| && IsFinite(avg) && AllFinite(ms)
  {
    SameShape(levels, levels') &&
    (forall k :: 0 <= k < |levels| && !(start <= k < l) ==> levels'[k] == levels[k]) &&
    (forall k :: start <= k < l ==> levels'[k].cost == Add(levels[k].cost, Finite(Correction(avg, ms[k - start]))))
  }

  lemma PartSetStep(levels: seq<Level>, levels': seq<Level>, start: nat, l: nat, avg: Marginals, ms: seq<Marginals>)
    requires start <= l < |levels| && l - start < |ms| && IsFinite(avg) && AllFinite(ms)
    requires PartSet(levels, levels', start, l, avg, ms)
    ensures PartSet(levels, SetMarginal(levels', l, avg, ms[l - start]), start, l + 1, avg, ms)
  {
    SameShapeTransitive(levels, levels', SetMarginal(levels', l, avg, ms[l - start]));
  }

  lemma PartSetRow(levels: seq<Level>, levels': seq<Level>, levelStart: seq<nat>, v: nat, avg: Marginals, ms: seq<Marginals>)
    requires v + 1 < |levelStart| && levelStart[v] <= levelStart[v + 1] <= |levels|
    requires IsFinite(avg) && AllFinite(ms) && |ms| == levelStart[v + 1] - levelStart[v]
    requires PartSet(levels, levels', levelStart[v], levelStart[v + 1], avg, ms)
    ensures RowSet(levels, levels', levelStart, v, avg, ms)
  {
  }

  /** A table that differs in costs only keeps the shape facts. */
  lemma ShapeKept(instrs: seq<Instr>, levels: seq<Level>, levels': seq<Level>)
    requires RangesOk(instrs, levels) && Owned(instrs, levels) && Downward(instrs, levels) && SameShape(levels, levels')
    ensures SameShapeOk(instrs, levels, levels')
  {
    SameShapeKeeps(instrs, levels, levels', [], []);
  }

  /** Adding the contribution of level l after recomputing it: the
      contributions of the earlier levels of the row are unchanged, since
      their roots lie outside l. */
  lemma BoundStep(instrs: seq<Instr>, levels': seq<Level>, levels'': seq<Level>, m': seq<ExtReal>, m'': seq<ExtReal>,
                  start: nat, l: nat, lb: ExtReal, lb': ExtReal)
    requires RangesOk(instrs, levels') && Owned(instrs, levels') && RangesOk(instrs, levels'') && Owned(instrs, levels'')
    requires SameShape(levels', levels'') && |m'| == |instrs| && |m''| == |instrs| && start <= l < |levels'|
    requires forall k :: 0 <= k < |levels'| && k != l ==> levels''[k] == levels'[k]
    requires forall i :: 0 <= i < |m'| && !(levels''[l].first <= i < levels''[l].last) ==> m''[i] == m'[i]
    requires lb' == Add(lb, HeadsSum(instrs, levels', m', start, l))
    ensures Add(lb', HeadBound(instrs, levels'', m'', l)) == Add(lb, HeadsSum(instrs, levels'', m'', start, l + 1))
  {
    forall k | start <= k < l
      ensures HeadBound(instrs, levels'', m'', k) == HeadBound(instrs, levels', m', k)
    {
      InRange(instrs, levels'', l, levels'[k].first);
    }
    HeadsSumFrame(instrs, levels', levels'', m', m'', start, l);
    AddAssociative(lb, HeadsSum(instrs, levels', m', start, l), HeadBound(instrs, levels'', m'', l));
  }

  /** The state of the setting loop of the backward pass at v after the
      levels start .. l - 1 of row v: those are moved and recomputed, and
      their contributions are added to lb. */
  ghost predicate SettingDone(instrs: seq<Instr>, levels: seq<Level>, levels': seq<Level>, m: seq<ExtReal>, m': seq<ExtReal>,
                              start: nat, l: nat, avg: Marginals, ms: seq<Marginals>, lb: ExtReal, lb': ExtReal)
    requires RangesOk(instrs, levels) && Owned(instrs, levels) && Downward(instrs, levels) && |m| == |instrs|
    requires start <= l <= start + |ms| && l <= |levels| && IsFinite(avg) && AllFinite(ms)
  {
    |m'| == |m| && PartSet(levels, levels', start, l, avg, ms) && SameShapeOk(instrs, levels, levels') &&
    RowRecomputed(instrs, levels', m, m', start, l) &&
    lb' == Add(lb, HeadsSum(instrs, levels', m', start, l))
  }

  /** One turn of the setting loop. */
  lemma SettingStep(instrs: seq<Instr>, levels: seq<Level>, levels': seq<Level>, levels'': seq<Level>, levelStart: seq<nat>,
                    m: seq<ExtReal>, m': seq<ExtReal>, m'': seq<ExtReal>, v: nat, l: nat,
                    avg: Marginals, ms: seq<Marginals>, lb: ExtReal, lb': ExtReal)
    requires RowsOk(levels, levelStart) && RangesOk(instrs, levels) && Owned(instrs, levels) && Downward(instrs, levels)
    requires |m| == |instrs| && v < NrVars(levelStart) && levelStart[v] <= l < levelStart[v + 1] <= |levels|
    requires IsFinite(avg) && AllFinite(ms) && |ms| == levelStart[v + 1] - levelStart[v]
    requires SettingDone(instrs, levels, levels', m, m', levelStart[v], l, avg, ms, lb, lb')
    requires levels'' == SetMarginal(levels', l, avg, ms[l - levelStart[v]])
    requires PartSet(levels, levels'', levelStart[v], l + 1, avg, ms) && SameShapeOk(instrs, levels, levels'') && |m''| == |m'|
    requires forall i :: levels''[l].first <= i < levels''[l].last ==> m''[i] == BackwardValue(instrs, levels'', m', i)
    requires forall i :: 0 <= i < |m'| && !(levels''[l].first <= i < levels''[l].last) ==> m''[i] == m'[i]
    ensures SettingDone(instrs, levels, levels'', m, m'', levelStart[v], l + 1, avg, ms,
                        lb, Add(lb', HeadBound(instrs, levels'', m'', l)))
  {
    RecomputeStep(instrs, levels, levels', levels'', levelStart, m, m', m'', v, l);
    BoundStep(instrs, levels', levels'', m', m'', levelStart[v], l, lb, lb');
  }

  /** One level l of row v in the setting loop (lines 507-509): correct the
      level's cost, recompute its backward costs, add its share of the bound. */
  method SetLevelBackward(instrs: seq<Instr>, levels: seq<Level>, levelStart: seq<nat>, m: seq<ExtReal>, v: nat,
                          avg: Marginals, ms: seq<Marginals>, lb: ExtReal, l: nat,
                          levels': seq<Level>, m': seq<ExtReal>, lb': ExtReal)
    returns (levels'': seq<Level>, m'': seq<ExtReal>, lb'': ExtReal)
    requires RowsOk(levels, levelStart) && RangesOk(instrs, levels) && Owned(instrs, levels) && Downward(instrs, levels)
    requires |m| == |instrs| && v < NrVars(levelStart) && levelStart[v] <= l < levelStart[v + 1] <= |levels|
    requires IsFinite(avg) && AllFinite(ms) && |ms| == levelStart[v + 1] - levelStart[v]
    requires SettingDone(instrs, levels, levels', m, m', levelStart[v], l, avg, ms, lb, lb')
    ensures SettingDone(instrs, levels, levels'', m, m'', levelStart[v], l + 1, avg, ms, lb, lb'')
  {
    levels'' := SetMarginal(levels', l, avg, ms[l - levelStart[v]]);
    PartSetStep(levels, levels', levelStart[v], l, avg, ms);
    ShapeKept(instrs, levels, levels'');
    m'' := BackwardLevel(instrs, levels'', m', l);
    SettingStep(instrs, levels, levels', levels'', levelStart, m, m', m'', v, l, avg, ms, lb, lb');
    lb'' := Add(lb', HeadBound(instrs, levels'', m'', l));
  }

  /** The setting loop of the backward pass at v (lines 506-510): move each
      level's cost, recompute its backward costs, add its share of the
      bound. */
  method SetRowBackward(instrs: seq<Instr>, levels: seq<Level>, levelStart: seq<nat>, m: seq<ExtReal>, v: nat,
                        avg: Marginals, ms: seq<Marginals>, lb: ExtReal)
    returns (levels': seq<Level>, m': seq<ExtReal>, lb': ExtReal)
    requires RowsOk(levels, levelStart) && RangesOk(instrs, levels) && Owned(instrs, levels) && Downward(instrs, levels)
    requires |m| == |instrs| && v < NrVars(levelStart) && levelStart[v] <= levelStart[v + 1] <= |levels|
    requires IsFinite(avg) && AllFinite(ms) && |ms| == levelStart[v + 1] - levelStart[v]
    ensures RowSet(levels, levels', levelStart, v, avg, ms) && SameShapeOk(instrs, levels, levels') && |m'| == |m|
    ensures forall i :: 0 <= i < |m| && VarOf(instrs, levels, i) == v ==> m'[i] == BackwardValue(instrs, levels', m, i)
    ensures forall i :: 0 <= i < |m| && VarOf(instrs, levels, i) != v ==> m'[i] == m[i]
    ensures lb' == Add(lb, HeadsSum(instrs, levels', m', levelStart[v], levelStart[v + 1]))
  {
    levels', m', lb' := SettingLoop(instrs, levels, levelStart, m, v, avg, ms, lb);
    PartSetRow(levels, levels', levelStart, v, avg, ms);
    RecomputedRow(instrs, levels, levels', levelStart, m, m', v);
  }

  /** Before the setting loop nothing is moved and nothing is added. */
  lemma SettingStart(instrs: seq<Instr>, levels: seq<Level>, m: seq<ExtReal>, start: nat,
                     avg: Marginals, ms: seq<Marginals>, lb: ExtReal)
    requires RangesOk(instrs, levels) && Owned(instrs, levels) && Downward(instrs, levels) && |m| == |instrs|
    requires start <= |levels| && IsFinite(avg) && AllFinite(ms)
    ensures SettingDone(instrs, levels, levels, m, m, start, start, avg, ms, lb, lb)
  {
    ShapeKept(instrs, levels, levels);
    assert Add(lb, Finite(0.0)) == lb;
  }

  /** The loop of lines 506-510 over the levels of row v. */
  method SettingLoop(instrs: seq<Instr>, levels: seq<Level>, levelStart: seq<nat>, m: seq<ExtReal>, v: nat,
                     avg: Marginals, ms: seq<Marginals>, lb: ExtReal)
    returns (levels': seq<Level>, m': seq<ExtReal>, lb': ExtReal)
    requires RowsOk(levels, levelStart) && RangesOk(instrs, levels) && Owned(instrs, levels) && Downward(instrs, levels)
    requires |m| == |instrs| && v < NrVars(levelStart) && levelStart[v] <= levelStart[v + 1] <= |levels|
    requires IsFinite(avg) && AllFinite(ms) && |ms| == levelStart[v + 1] - levelStart[v]
    ensures SettingDone(instrs, levels, levels', m, m', levelStart[v], levelStart[v + 1], avg, ms, lb, lb')
  {
    levels', m', lb' := levels, m, lb;
    var l := levelStart[v];
    SettingStart(instrs, levels, m, levelStart[v], avg, ms, lb);
    while l < levelStart[v + 1]
      invariant levelStart[v] <= l <= levelStart[v + 1]
      invariant SettingDone(instrs, levels, levels', m, m', levelStart[v], l, avg, ms, lb, lb')
    {
      levels', m', lb' := SetLevelBackward(instrs, levels, levelStart, m, v, avg, ms, lb, l, levels', m', lb');
      l := l + 1;
    }
  }

  /** A row recomputed over all its levels is a variable recomputed. */
  lemma RecomputedRow(instrs: seq<Instr>, levels: seq<Level>, levels': seq<Level>, levelStart: seq<nat>,
                      m: seq<ExtReal>, m': seq<ExtReal>, v: nat)
    requires RowsOk(levels, levelStart) && Owned(instrs, levels) && SameShapeOk(instrs, levels, levels')
    requires |m| == |instrs| && |m'| == |instrs| && v < NrVars(levelStart)
    requires RowRecomputed(instrs, levels', m, m', levelStart[v], levelStart[v + 1])
    ensures forall i :: 0 <= i < |m| && VarOf(instrs, levels, i) == v ==> m'[i] == BackwardValue(instrs, levels', m, i)
    ensures forall i :: 0 <= i < |m| && VarOf(instrs, levels, i) != v ==> m'[i] == m[i]
  {
    forall i | 0 <= i < |m| {
      InRow(instrs, levels, levelStart, v, i);
    }
  }

  // ----- one variable of the backward pass -----

  /** The effect of BackwardAverageVar at v on levels and m: only the costs
      of row v moved, and the backward costs at v were recomputed over the
      new costs. */
  ghost predicate BackwardVarDone(instrs: seq<Instr>, levels: seq<Level>, levels': seq<Level>, levelStart: seq<nat>,
                                  fwd: seq<ExtReal>, m: seq<ExtReal>, m': seq<ExtReal>, v: nat)
    requires RowsOk(levels, levelStart) && SweepState(instrs, levels, fwd, m) && v < NrVars(levelStart)
  {
    RowBounds(levels, levelStart, v);
    SameShape(levels, levels') && RowsOk(levels', levelStart) && SweepState(instrs, levels', fwd, m') &&
    (forall l :: 0 <= l < |levels| && !(levelStart[v] <= l < levelStart[v + 1]) ==> levels'[l] == levels[l]) &&
    (forall i :: 0 <= i < |instrs| && VarOf(instrs, levels, i) == v ==> m'[i] == BackwardValue(instrs, levels', m, i)) &&
    (forall i :: 0 <= i < |instrs| && VarOf(instrs, levels, i) != v ==> m'[i] == m[i])
  }

  /** One variable of min_marginal_averaging_backward (lines 488-511). */
  method BackwardAverageVar(instrs: seq<Instr>, levels: seq<Level>, levelStart: seq<nat>,
                            fwd: seq<ExtReal>, m: seq<ExtReal>, v: nat, lb: ExtReal)
    returns (ok: bool, levels': seq<Level>, m': seq<ExtReal>, lb': ExtReal)
    requires RowsOk(levels, levelStart) && SweepState(instrs, levels, fwd, m) && v < NrVars(levelStart)
    ensures levelStart[v] <= levelStart[v + 1] <= |levels|
    ensures ok <==> levelStart[v] < levelStart[v + 1] && RowFinite(instrs, levels, levelStart, fwd, m, v)
    ensures !ok ==> levels' == levels && m' == m && lb' == lb
    ensures ok ==> BackwardVarDone(instrs, levels, levels', levelStart, fwd, m, m', v)
    ensures ok ==> CostSum(levels', levelStart[v], levelStart[v + 1]) == CostSum(levels, levelStart[v], levelStart[v + 1])
    ensures ok ==> RowAgrees(instrs, levels', levelStart, fwd, m', v)
    ensures ok ==> lb' == Add(lb, HeadsSum(instrs, levels', m', levelStart[v], levelStart[v + 1]))
  {
    var ms := CollectBackward(instrs, levels, levelStart, fwd, m, v);
    var avg;
    ok, avg := AverageMarginals(ms);
    PairsFinite(instrs, levels, levelStart, fwd, m, v, ms);
    if !ok {
      levels', m', lb' := levels, m, lb;
      return;
    }
    levels', m', lb' := SetRowBackward(instrs, levels, levelStart, m, v, avg, ms, lb);
    SameShapeKeeps(instrs, levels, levels', levelStart, []);
    RowConserved(levels, levels', levelStart, v, ms);
    RowMatched(instrs, levels, levels', levelStart, fwd, m, v, avg, ms);
    RowUntouched(instrs, levels', levels', levelStart, fwd, fwd, m, m', v);
  }

  // ----- the backward pass -----

  /** The state after the backward pass has done the variables from v on:
      only costs changed, the rows below v are as they were, the backward
      costs from v on agree with their steps, each row from v on kept its
      total and agrees on its difference, and lb holds the contributions of
      those rows. */
  ghost predicate BackwardDone(instrs: seq<Instr>, levels0: seq<Level>, levels: seq<Level>, levelStart: seq<nat>,
                               fwd: seq<ExtReal>, m: seq<ExtReal>, v: nat, lb: ExtReal)
    requires RowsOk(levels0, levelStart) && v <= NrVars(levelStart)
  {
    SameShape(levels0, levels) && RowsOk(levels, levelStart) && SweepState(instrs, levels, fwd, m) &&
    (forall l :: 0 <= l < levelStart[v] ==> levels[l] == levels0[l]) &&
    (forall i :: 0 <= i < |instrs| && VarOf(instrs, levels, i) >= v ==> m[i] == BackwardValue(instrs, levels, m, i)) &&
    (forall u :: v <= u < NrVars(levelStart) ==> RowKept(instrs, levels0, levels, levelStart, fwd, m, u)) &&
    lb == BoundFrom(instrs, levels, levelStart, m, v)
  }

  /** The backward costs from v on agree with their steps after v is done. */
  lemma BackwardStepConsistent(instrs: seq<Instr>, levels: seq<Level>, levels': seq<Level>, levelStart: seq<nat>,
                               fwd: seq<ExtReal>, m: seq<ExtReal>, m': seq<ExtReal>, v: nat)
    requires RowsOk(levels, levelStart) && SweepState(instrs, levels, fwd, m) && v < NrVars(levelStart)
    requires BackwardVarDone(instrs, levels, levels', levelStart, fwd, m, m', v)
    requires forall i :: 0 <= i < |instrs| && VarOf(instrs, levels, i) > v ==> m[i] == BackwardValue(instrs, levels, m, i)
    ensures forall i :: 0 <= i < |instrs| && VarOf(instrs, levels', i) >= v ==> m'[i] == BackwardValue(instrs, levels', m', i)
  {
    SameShapeKeeps(instrs, levels, levels', levelStart, []);
    forall i | 0 <= i < |instrs| && VarOf(instrs, levels', i) >= v
      ensures m'[i] == BackwardValue(instrs, levels', m', i)
    {
      if VarOf(instrs, levels, i) == v {
        BackwardFrame(instrs, levels', levels', m, m', i);
      } else {
        InRow(instrs, levels, levelStart, v, i);
        BackwardFrame(instrs, levels, levels', m, m', i);
      }
    }
  }

  /** lb holds the contributions of the rows from v on after v is done: the
      later rows' contributions did not change. */
  lemma BackwardStepBound(instrs: seq<Instr>, levels: seq<Level>, levels': seq<Level>, levelStart: seq<nat>,
                          fwd: seq<ExtReal>, m: seq<ExtReal>, m': seq<ExtReal>, v: nat, lb: ExtReal, lb': ExtReal)
    requires RowsOk(levels, levelStart) && SweepState(instrs, levels, fwd, m) && v < NrVars(levelStart)
    requires BackwardVarDone(instrs, levels, levels', levelStart, fwd, m, m', v)
    requires lb == BoundFrom(instrs, levels, levelStart, m, v + 1)
    requires lb' == Add(lb, HeadsSum(instrs, levels', m', levelStart[v], levelStart[v + 1]))
    ensures lb' == BoundFrom(instrs, levels', levelStart, m', v)
  {
    forall l | levelStart[v + 1] <= l < |levels|
      ensures HeadBound(instrs, levels', m', l) == HeadBound(instrs, levels, m, l)
    {
      LevelRow(levels, levelStart, l);
      assert levelStart[v + 1] <= levelStart[levels[l].variable];
      InRow(instrs, levels, levelStart, v, levels[l].first);
    }
    BoundFromFrame(instrs, levels, levels', levelStart, m, m', v + 1);
  }

  /** Variable v is done once BackwardAverageVar has run on it. */
  lemma BackwardStep(instrs: seq<Instr>, levels0: seq<Level>, levels: seq<Level>, levels': seq<Level>, levelStart: seq<nat>,
                     fwd: seq<ExtReal>, m: seq<ExtReal>, m': seq<ExtReal>, v: nat, lb: ExtReal, lb': ExtReal)
    requires RowsOk(levels0, levelStart) && v < NrVars(levelStart)
    requires BackwardDone(instrs, levels0, levels, levelStart, fwd, m, v + 1, lb)
    requires BackwardVarDone(instrs, levels, levels', levelStart, fwd, m, m', v)
    requires CostSum(levels', levelStart[v], levelStart[v + 1]) == CostSum(levels, levelStart[v], levelStart[v + 1])
    requires RowAgrees(instrs, levels', levelStart, fwd, m', v)
    requires lb' == Add(lb, HeadsSum(instrs, levels', m', levelStart[v], levelStart[v + 1]))
    ensures BackwardDone(instrs, levels0, levels', levelStart, fwd, m', v, lb')
  {
    SameShapeTransitive(levels0, levels, levels');
    BackwardStepConsistent(instrs, levels, levels', levelStart, fwd, m, m', v);
    BackwardStepBound(instrs, levels, levels', levelStart, fwd, m, m', v, lb, lb');
    CostSumFrame(levels0, levels, levelStart[v], levelStart[v + 1]);
    assert RowKept(instrs, levels0, levels', levelStart, fwd, m', v);
    forall u | v < u < NrVars(levelStart)
      ensures RowKept(instrs, levels0, levels', levelStart, fwd, m', u)
    {
      assert RowKept(instrs, levels0, levels, levelStart, fwd, m, u);
      assert levelStart[v + 1] <= levelStart[u];
      RowUntouched(instrs, levels, levels', levelStart, fwd, fwd, m, m', u);
    }
  }

  /** min_marginal_averaging_backward (lines 486-513). */
  method AveragingBackward(instrs: seq<Instr>, levels: seq<Level>, levelStart: seq<nat>, fwd: seq<ExtReal>, m: seq<ExtReal>)
    returns (ok: bool, levels': seq<Level>, m': seq<ExtReal>, lb: ExtReal)
    requires RowsOk(levels, levelStart) && SweepState(instrs, levels, fwd, m)
    ensures SameShape(levels, levels') && RowsOk(levels', levelStart) && SweepState(instrs, levels', fwd, m')
    ensures ok ==> BackwardConsistent(instrs, levels', m')
    ensures ok ==> lb == LowerBound(instrs, levels', levelStart, m')
    ensures ok ==> forall v :: 0 <= v < NrVars(levelStart) ==> RowKept(instrs, levels, levels', levelStart, fwd, m', v)
  {
    levels', m', lb := levels, m, Finite(0.0);
    var v: nat := NrVars(levelStart);
    forall i | 0 <= i < |instrs| {
      VarBelow(instrs, levels, levelStart, i);
    }
    while v > 0
      invariant v <= NrVars(levelStart)
      invariant BackwardDone(instrs, levels, levels', levelStart, fwd, m', v, lb)
    {
      v := v - 1;
      var ok1, levels'', m'', lb' := BackwardAverageVar(instrs, levels', levelStart, fwd, m', v, lb);
      if !ok1 {
        ok := false;
        return;
      }
      BackwardStep(instrs, levels, levels', levels'', levelStart, fwd, m', m'', v, lb, lb');
      levels', m', lb := levels'', m'', lb';
    }
    ok := true;
  }
}
