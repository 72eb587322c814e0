/** The two min-marginal averaging passes of include/bdd/bdd_min_marginal_averaging.h
    (lines 448-513) and the lower bound (lines 389-409). The forward pass
    visits the variables in increasing order: at each it runs the forward
    step and takes the min-marginal pair of every BDD's level, averages the
    pairs and moves every level's cost so that its pair's difference becomes
    the average's. The backward pass visits the variables in decreasing order
    and, after moving a level's cost, recomputes the level's backward costs
    and adds its share of the lower bound. A pass fails (ok is false) where
    the source's check that the averages are finite would abort. */
module BddAveraging {
  import opened ExtendedReals
  import opened BddStorage
  import opened BddInstructions
  import opened BddSweeps
  import opened BddMarginals

  /** Row v of the table lies inside the table. */
  lemma RowBounds(levels: seq<Level>, levelStart: seq<nat>, v: nat)
    requires RowsOk(levels, levelStart) && v < NrVars(levelStart)
    ensures levelStart[v] <= levelStart[v + 1] <= |levels|
  {
  }

  /** Every level of row v has a finite pair whose difference is t. */
  ghost predicate RowMatches(instrs: seq<Instr>, levels: seq<Level>, levelStart: seq<nat>, fwd: seq<ExtReal>, m: seq<ExtReal>,
                             v: nat, t: real)
    requires SweepState(instrs, levels, fwd, m) && v + 1 < |levelStart| && levelStart[v + 1] <= |levels|
  {
    forall l :: levelStart[v] <= l < levelStart[v + 1] ==>
      IsFinite(LevelMarginals(instrs, levels, fwd, m, l)) && Diff(LevelMarginals(instrs, levels, fwd, m, l)) == t
  }

  /** All levels of row v agree on the difference of their pairs. */
  ghost predicate RowAgrees(instrs: seq<Instr>, levels: seq<Level>, levelStart: seq<nat>, fwd: seq<ExtReal>, m: seq<ExtReal>, v: nat)
    requires SweepState(instrs, levels, fwd, m) && RowsOk(levels, levelStart) && v < NrVars(levelStart)
  {
    RowBounds(levels, levelStart, v);
    levelStart[v] < levelStart[v + 1] &&
    IsFinite(LevelMarginals(instrs, levels, fwd, m, levelStart[v])) &&
    RowMatches(instrs, levels, levelStart, fwd, m, v, Diff(LevelMarginals(instrs, levels, fwd, m, levelStart[v])))
  }

  /** The pairs ms are those of row v's levels, in order. */
  ghost predicate PairsOfRow(instrs: seq<Instr>, levels: seq<Level>, levelStart: seq<nat>, fwd: seq<ExtReal>, m: seq<ExtReal>,
                             v: nat, ms: seq<Marginals>)
    requires SweepState(instrs, levels, fwd, m) && v + 1 < |levelStart| && levelStart[v] <= levelStart[v + 1] <= |levels|
  {
    |ms| == levelStart[v + 1] - levelStart[v] && PrefixPairs(instrs, levels, fwd, m, levelStart[v], ms)
  }

  /** Every pair of row v is finite. */
  ghost predicate RowFinite(instrs: seq<Instr>, levels: seq<Level>, levelStart: seq<nat>, fwd: seq<ExtReal>, m: seq<ExtReal>, v: nat)
    requires SweepState(instrs, levels, fwd, m) && v + 1 < |levelStart| && levelStart[v + 1] <= |levels|
  {
    forall l :: levelStart[v] <= l < levelStart[v + 1] ==> IsFinite(LevelMarginals(instrs, levels, fwd, m, l))
  }

  lemma PairsFinite(instrs: seq<Instr>, levels: seq<Level>, levelStart: seq<nat>, fwd: seq<ExtReal>, m: seq<ExtReal>,
                    v: nat, ms: seq<Marginals>)
    requires SweepState(instrs, levels, fwd, m) && v + 1 < |levelStart| && levelStart[v] <= levelStart[v + 1] <= |levels|
    requires PairsOfRow(instrs, levels, levelStart, fwd, m, v, ms)
    ensures AllFinite(ms) <==> RowFinite(instrs, levels, levelStart, fwd, m, v)
  {
    if RowFinite(instrs, levels, levelStart, fwd, m, v) {
      forall b | 0 <= b < |ms| ensures IsFinite(ms[b]) {
        assert levelStart[v] <= levelStart[v] + b < levelStart[v + 1];
      }
    }
    if AllFinite(ms) {
      forall l | levelStart[v] <= l < levelStart[v + 1] ensures IsFinite(LevelMarginals(instrs, levels, fwd, m, l)) {
        assert ms[l - levelStart[v]] == LevelMarginals(instrs, levels, fwd, m, l);
      }
    }
  }

  // ----- one variable of the forward pass -----

  /** The collecting loop of the forward pass at v (lines 454-458): the
      forward step and then the pair of each level of row v. */
  method CollectForward(instrs: seq<Instr>, levels: seq<Level>, levelStart: seq<nat>, ghost rank: seq<nat>,
                        fwd: seq<ExtReal>, m: seq<ExtReal>, v: nat)
    returns (fwd': seq<ExtReal>, ms: seq<Marginals>)
    requires RowsOk(levels, levelStart) && SweepState(instrs, levels, fwd, m) && IncomingOk(instrs, rank)
    requires v < NrVars(levelStart)
    ensures |fwd'| == |fwd| && levelStart[v] <= levelStart[v + 1] <= |levels|
    ensures forall i :: 0 <= i < |fwd| && VarOf(instrs, levels, i) == v ==>
              fwd'[i] == ForwardValue(instrs, levels, rank, fwd, i)
    ensures forall i :: 0 <= i < |fwd| && VarOf(instrs, levels, i) != v ==> fwd'[i] == fwd[i]
    ensures PairsOfRow(instrs, levels, levelStart, fwd', m, v, ms)
  {
    RowBounds(levels, levelStart, v);
    fwd' := fwd;
    ms := [];
    var l := levelStart[v];
    while l < levelStart[v + 1]
      invariant levelStart[v] <= l <= levelStart[v + 1] && |fwd'| == |fwd| && |ms| == l - levelStart[v]
      invariant forall i :: 0 <= i < |fwd| && levelStart[v] <= LevelOfInstr(instrs, i) < l ==>
                  fwd'[i] == ForwardValue(instrs, levels, rank, fwd, i)
      invariant forall i :: 0 <= i < |fwd| && !(levelStart[v] <= LevelOfInstr(instrs, i) < l) ==> fwd'[i] == fwd[i]
      invariant PrefixPairs(instrs, levels, fwd', m, levelStart[v], ms)
    {
      var fwd'' := ForwardLevel(instrs, levels, rank, fwd', l);
      forall i | 0 <= i < |fwd| && LevelOfInstr(instrs, i) == l
        ensures fwd''[i] == ForwardValue(instrs, levels, rank, fwd, i)
      {
        InRange(instrs, levels, l, i);
        ForwardFrame(instrs, levels, levels, rank, fwd, fwd', i);
      }
      forall i | 0 <= i < |fwd| && LevelOfInstr(instrs, i) != l
        ensures fwd''[i] == fwd'[i]
      {
        InRange(instrs, levels, l, i);
      }
      PairsKept(instrs, levels, fwd', fwd'', m, levelStart[v], l, ms);
      var p := MinMarginal(instrs, levels, fwd'', m, l);
      PairsExtend(instrs, levels, fwd'', m, levelStart[v], ms, l, p);
      ms := ms + [p];
      fwd' := fwd'';
      l := l + 1;
    }
    forall i | 0 <= i < |fwd| {
      InRow(instrs, levels, levelStart, v, i);
    }
  }

  /** ms are the pairs of the |ms| levels from start on. */
  ghost predicate PrefixPairs(instrs: seq<Instr>, levels: seq<Level>, fwd: seq<ExtReal>, m: seq<ExtReal>, start: nat, ms: seq<Marginals>)
    requires SweepState(instrs, levels, fwd, m) && start + |ms| <= |levels|
  {
    forall b :: 0 <= b < |ms| ==> ms[b] == LevelMarginals(instrs, levels, fwd, m, start + b)
  }

  lemma PairsExtend(instrs: seq<Instr>, levels: seq<Level>, fwd: seq<ExtReal>, m: seq<ExtReal>, start: nat, ms: seq<Marginals>,
                    l: nat, p: Marginals)
    requires SweepState(instrs, levels, fwd, m) && start + |ms| == l < |levels| && PrefixPairs(instrs, levels, fwd, m, start, ms)
    requires p == LevelMarginals(instrs, levels, fwd, m, l)
    ensures PrefixPairs(instrs, levels, fwd, m, start, ms + [p])
  {
  }

  /** Changing forward costs in level l only keeps the pairs of the levels
      before it. */
  lemma PairsKept(instrs: seq<Instr>, levels: seq<Level>, fwd: seq<ExtReal>, fwd': seq<ExtReal>, m: seq<ExtReal>,
                  start: nat, l: nat, ms: seq<Marginals>)
    requires SweepState(instrs, levels, fwd, m) && |fwd'| == |fwd| && start + |ms| == l < |levels|
    requires forall i :: 0 <= i < |fwd| && LevelOfInstr(instrs, i) != l ==> fwd'[i] == fwd[i]
    requires PrefixPairs(instrs, levels, fwd, m, start, ms)
    ensures PrefixPairs(instrs, levels, fwd', m, start, ms)
  {
    forall b | 0 <= b < |ms|
      ensures ms[b] == LevelMarginals(instrs, levels, fwd', m, start + b)
    {
      var k := start + b;
      forall i | levels[k].first <= i < levels[k].last ensures fwd'[i] == fwd[i] {
        InRange(instrs, levels, k, i);
      }
      UpToFrame(instrs, levels, fwd, m, levels, fwd', m, k, levels[k].last);
    }
  }

  /** The setting loop of a pass at v (lines 476-479): set_marginal on every
      level of row v towards the same target. */
  method SetRow(levels: seq<Level>, levelStart: seq<nat>, v: nat, avg: Marginals, ms: seq<Marginals>)
    returns (levels': seq<Level>)
    requires v + 1 < |levelStart| && levelStart[v] <= levelStart[v + 1] <= |levels|
    requires IsFinite(avg) && AllFinite(ms) && |ms| == levelStart[v + 1] - levelStart[v]
    ensures RowSet(levels, levels', levelStart, v, avg, ms)
  {
    levels' := levels;
    var b := 0;
    while b < |ms|
      invariant b <= |ms| && SameShape(levels, levels')
      invariant forall l :: 0 <= l < |levels| && !(levelStart[v] <= l < levelStart[v] + b) ==> levels'[l] == levels[l]
      invariant forall l :: levelStart[v] <= l < levelStart[v] + b ==>
                  levels'[l].cost == Add(levels[l].cost, Finite(Correction(avg, ms[l - levelStart[v]])))
    {
      levels' := SetMarginal(levels', levelStart[v] + b, avg, ms[b]);
      b := b + 1;
    }
  }

  /** levels' is levels with every level of row v moved by its correction. */
  ghost predicate RowSet(levels: seq<Level>, levels': seq<Level>, levelStart: seq<nat>, v: nat, avg: Marginals, ms: seq<Marginals>)
    requires v + 1 < |levelStart| && levelStart[v] <= levelStart[v + 1] <= |levels|
    requires IsFinite(avg) && AllFinite(ms) && |ms| == levelStart[v + 1] - levelStart[v]
  {
    SameShape(levels, levels') &&
    (forall l :: 0 <= l < |levels| && !(levelStart[v] <= l < levelStart[v + 1]) ==> levels'[l] == levels[l]) &&
    (forall l :: levelStart[v] <= l < levelStart[v + 1] ==>
       levels'[l].cost == Add(levels[l].cost, Finite(Correction(avg, ms[l - levelStart[v]]))))
  }

  /** Moving a row towards the mean of its own pairs keeps its total cost. */
  lemma RowConserved(levels: seq<Level>, levels': seq<Level>, levelStart: seq<nat>, v: nat, ms: seq<Marginals>)
    requires v + 1 < |levelStart| && levelStart[v] <= levelStart[v + 1] <= |levels|
    requires |ms| > 0 && AllFinite(ms) && |ms| == levelStart[v + 1] - levelStart[v]
    requires RowSet(levels, levels', levelStart, v, Mean(ms), ms)
    ensures CostSum(levels', levelStart[v], levelStart[v + 1]) == CostSum(levels, levelStart[v], levelStart[v + 1])
  {
    var d := Corrections(Mean(ms), ms);
    CostSumShift(levels, levels', levelStart[v], levelStart[v + 1], d);
    CorrectionsCancel(ms);
  }

  /** After the row is moved, every level's pair has the target difference:
      each one's own move sets it (SetMarginalMatches) and the moves of the
      others do not touch it. */
  lemma RowMatched(instrs: seq<Instr>, levels: seq<Level>, levels': seq<Level>, levelStart: seq<nat>,
                   fwd: seq<ExtReal>, m: seq<ExtReal>, v: nat, avg: Marginals, ms: seq<Marginals>)
    requires SweepState(instrs, levels, fwd, m) && v + 1 < |levelStart| && levelStart[v] <= levelStart[v + 1] <= |levels|
    requires IsFinite(avg) && AllFinite(ms) && PairsOfRow(instrs, levels, levelStart, fwd, m, v, ms)
    requires RowSet(levels, levels', levelStart, v, avg, ms)
    ensures SweepState(instrs, levels', fwd, m)
    ensures RowMatches(instrs, levels', levelStart, fwd, m, v, Diff(avg))
  {
    SameShapeKeeps(instrs, levels, levels', [0], []);
    forall l | levelStart[v] <= l < levelStart[v + 1]
      ensures IsFinite(LevelMarginals(instrs, levels', fwd, m, l)) && Diff(LevelMarginals(instrs, levels', fwd, m, l)) == Diff(avg)
    {
      var own := ms[l - levelStart[v]];
      assert IsFinite(own);
      var one := SetMarginal(levels, l, avg, own);
      SetMarginalMatches(instrs, levels, fwd, m, l, avg);
      UpToFrame(instrs, one, fwd, m, levels', fwd, m, l, levels[l].last);
    }
  }

  /** One variable of min_marginal_averaging_forward (lines 451-480). */
  method ForwardAverageVar(instrs: seq<Instr>, levels: seq<Level>, levelStart: seq<nat>, ghost rank: seq<nat>,
                           fwd: seq<ExtReal>, m: seq<ExtReal>, v: nat)
    returns (ok: bool, levels': seq<Level>, fwd': seq<ExtReal>)
    requires RowsOk(levels, levelStart) && SweepState(instrs, levels, fwd, m) && IncomingOk(instrs, rank)
    requires v < NrVars(levelStart)
    ensures |fwd'| == |fwd| && levelStart[v] <= levelStart[v + 1] <= |levels|
    ensures forall i :: 0 <= i < |fwd| && VarOf(instrs, levels, i) == v ==>
              fwd'[i] == ForwardValue(instrs, levels, rank, fwd, i)
    ensures forall i :: 0 <= i < |fwd| && VarOf(instrs, levels, i) != v ==> fwd'[i] == fwd[i]
    ensures SameShape(levels, levels') && SweepState(instrs, levels', fwd', m)
    ensures forall l :: 0 <= l < |levels| && !(levelStart[v] <= l < levelStart[v + 1]) ==> levels'[l] == levels[l]
    ensures ok <==> levelStart[v] < levelStart[v + 1] && RowFinite(instrs, levels, levelStart, fwd', m, v)
    ensures ok ==> CostSum(levels', levelStart[v], levelStart[v + 1]) == CostSum(levels, levelStart[v], levelStart[v + 1])
    ensures ok ==> RowAgrees(instrs, levels', levelStart, fwd', m, v)
  {
    var ms;
    fwd', ms := CollectForward(instrs, levels, levelStart, rank, fwd, m, v);
    var avg;
    ok, avg := AverageMarginals(ms);
    PairsFinite(instrs, levels, levelStart, fwd', m, v, ms);
    if !ok {
      levels' := levels;
      return;
    }
    levels' := SetRow(levels, levelStart, v, avg, ms);
    RowConserved(levels, levels', levelStart, v, ms);
    RowMatched(instrs, levels, levels', levelStart, fwd', m, v, avg, ms);
  }

  // ----- the forward pass -----

  /** Sums over levels that agree are equal. */
  lemma {:induction false} CostSumFrame(levels: seq<Level>, levels': seq<Level>, a: nat, b: nat)
    requires a <= b <= |levels| && |levels'| == |levels|
    requires forall l :: a <= l < b ==> levels'[l] == levels[l]
    ensures CostSum(levels', a, b) == CostSum(levels, a, b)
    decreases b
  {
    if a < b {
      CostSumFrame(levels, levels', a, b - 1);
    }
  }

  /** A row whose levels, forward costs and successors' backward costs did
      not change keeps its total cost and its pairs. */
  lemma RowUntouched(instrs: seq<Instr>, levels: seq<Level>, levels': seq<Level>, levelStart: seq<nat>,
                     fwd: seq<ExtReal>, fwd': seq<ExtReal>, m: seq<ExtReal>, m': seq<ExtReal>, u: nat)
    requires RowsOk(levels, levelStart) && RowsOk(levels', levelStart) && SameShape(levels, levels')
    requires SweepState(instrs, levels, fwd, m) && SweepState(instrs, levels', fwd', m')
    requires u < NrVars(levelStart) && levelStart[u] <= levelStart[u + 1] <= |levels|
    requires forall l :: levelStart[u] <= l < levelStart[u + 1] ==> levels'[l] == levels[l]
    requires forall i :: 0 <= i < |instrs| && VarOf(instrs, levels, i) == u ==> fwd'[i] == fwd[i]
    requires forall i :: 0 <= i < |instrs| && VarOf(instrs, levels, i) > u ==> m'[i] == m[i]
    ensures CostSum(levels', levelStart[u], levelStart[u + 1]) == CostSum(levels, levelStart[u], levelStart[u + 1])
    ensures RowAgrees(instrs, levels, levelStart, fwd, m, u) ==> RowAgrees(instrs, levels', levelStart, fwd', m', u)
  {
    CostSumFrame(levels, levels', levelStart[u], levelStart[u + 1]);
    forall l | levelStart[u] <= l < levelStart[u + 1]
      ensures LevelMarginals(instrs, levels', fwd', m', l) == LevelMarginals(instrs, levels, fwd, m, l)
    {
      forall i | levels[l].first <= i < levels[l].last
        ensures fwd'[i] == fwd[i]
        ensures SuccCost(m', instrs[i].low) == SuccCost(m, instrs[i].low)
        ensures SuccCost(m', instrs[i].high) == SuccCost(m, instrs[i].high)
      {
        InRange(instrs, levels, l, i);
        assert SuccOk(instrs, levels, i, instrs[i].low) && SuccOk(instrs, levels, i, instrs[i].high);
      }
      UpToFrame(instrs, levels, fwd, m, levels', fwd', m', l, levels[l].last);
    }
  }

  /** The state after the forward pass has done the variables below v:
      only costs changed, the rows from v on are as they were, the forward
      costs below v agree with their steps, and each row below v kept its
      total and agrees on its difference. */
  ghost predicate ForwardDone(instrs: seq<Instr>, levels0: seq<Level>, levels: seq<Level>, levelStart: seq<nat>,
                              rank: seq<nat>, fwd: seq<ExtReal>, m: seq<ExtReal>, v: nat)
    requires RowsOk(levels0, levelStart) && IncomingOk(instrs, rank) && v <= NrVars(levelStart)
  {
    SameShape(levels0, levels) && RowsOk(levels, levelStart) && SweepState(instrs, levels, fwd, m) &&
    (forall l :: levelStart[v] <= l < |levels0| ==> levels[l] == levels0[l]) &&
    (forall i :: 0 <= i < |instrs| && VarOf(instrs, levels, i) < v ==> fwd[i] == ForwardValue(instrs, levels, rank, fwd, i)) &&
    (forall u :: 0 <= u < v ==> RowKept(instrs, levels0, levels, levelStart, fwd, m, u))
  }

  /** Row u kept its total cost and agrees on its difference. */
  ghost predicate RowKept(instrs: seq<Instr>, levels0: seq<Level>, levels: seq<Level>, levelStart: seq<nat>,
                          fwd: seq<ExtReal>, m: seq<ExtReal>, u: nat)
    requires RowsOk(levels0, levelStart) && RowsOk(levels, levelStart) && SameShape(levels0, levels)
    requires SweepState(instrs, levels, fwd, m) && u < NrVars(levelStart)
  {
    RowBounds(levels0, levelStart, u);
    CostSum(levels, levelStart[u], levelStart[u + 1]) == CostSum(levels0, levelStart[u], levelStart[u + 1]) &&
    RowAgrees(instrs, levels, levelStart, fwd, m, u)
  }

  /** The effect of ForwardAverageVar at v on levels and fwd. */
  ghost predicate ForwardVarDone(instrs: seq<Instr>, levels: seq<Level>, levels': seq<Level>, levelStart: seq<nat>,
                                 rank: seq<nat>, fwd: seq<ExtReal>, fwd': seq<ExtReal>, m: seq<ExtReal>, v: nat)
    requires RowsOk(levels, levelStart) && SweepState(instrs, levels, fwd, m) && IncomingOk(instrs, rank)
    requires v < NrVars(levelStart)
  {
    RowBounds(levels, levelStart, v);
    |fwd'| == |fwd| &&
    (forall i :: 0 <= i < |fwd| && VarOf(instrs, levels, i) == v ==> fwd'[i] == ForwardValue(instrs, levels, rank, fwd, i)) &&
    (forall i :: 0 <= i < |fwd| && VarOf(instrs, levels, i) != v ==> fwd'[i] == fwd[i]) &&
    SameShape(levels, levels') && RowsOk(levels', levelStart) && SweepState(instrs, levels', fwd', m) &&
    (forall l :: 0 <= l < |levels| && !(levelStart[v] <= l < levelStart[v + 1]) ==> levels'[l] == levels[l])
  }

  /** The forward costs up to v agree with their steps afterwards. */
  lemma ForwardStepConsistent(instrs: seq<Instr>, levels: seq<Level>, levels': seq<Level>, levelStart: seq<nat>,
                              rank: seq<nat>, fwd: seq<ExtReal>, fwd': seq<ExtReal>, m: seq<ExtReal>, v: nat)
    requires RowsOk(levels, levelStart) && SweepState(instrs, levels, fwd, m) && IncomingOk(instrs, rank)
    requires v < NrVars(levelStart) && ForwardVarDone(instrs, levels, levels', levelStart, rank, fwd, fwd', m, v)
    requires forall i :: 0 <= i < |instrs| && VarOf(instrs, levels, i) < v ==> fwd[i] == ForwardValue(instrs, levels, rank, fwd, i)
    ensures forall i :: 0 <= i < |instrs| && VarOf(instrs, levels', i) < v + 1 ==> fwd'[i] == ForwardValue(instrs, levels', rank, fwd', i)
  {
    SameShapeKeeps(instrs, levels, levels', levelStart, rank);
    forall k | 0 <= k < |instrs| && VarOf(instrs, levels, k) < v
      ensures fwd'[k] == fwd[k] && CostOf(instrs, levels', k) == CostOf(instrs, levels, k)
    {
      InRow(instrs, levels, levelStart, v, k);
    }
    forall i | 0 <= i < |instrs| && VarOf(instrs, levels', i) < v + 1
      ensures fwd'[i] == ForwardValue(instrs, levels', rank, fwd', i)
    {
      ForwardFrame(instrs, levels, levels', rank, fwd, fwd', i);
    }
  }

  /** Variable v is done once ForwardAverageVar has run on it. */
  lemma ForwardStep(instrs: seq<Instr>, levels0: seq<Level>, levels: seq<Level>, levels': seq<Level>, levelStart: seq<nat>,
                    rank: seq<nat>, fwd: seq<ExtReal>, fwd': seq<ExtReal>, m: seq<ExtReal>, v: nat)
    requires RowsOk(levels0, levelStart) && IncomingOk(instrs, rank) && v < NrVars(levelStart)
    requires ForwardDone(instrs, levels0, levels, levelStart, rank, fwd, m, v)
    requires ForwardVarDone(instrs, levels, levels', levelStart, rank, fwd, fwd', m, v)
    requires CostSum(levels', levelStart[v], levelStart[v + 1]) == CostSum(levels, levelStart[v], levelStart[v + 1])
    requires RowAgrees(instrs, levels', levelStart, fwd', m, v)
    ensures ForwardDone(instrs, levels0, levels', levelStart, rank, fwd', m, v + 1)
  {
    SameShapeTransitive(levels0, levels, levels');
    ForwardStepConsistent(instrs, levels, levels', levelStart, rank, fwd, fwd', m, v);
    CostSumFrame(levels0, levels, levelStart[v], levelStart[v + 1]);
    assert RowKept(instrs, levels0, levels', levelStart, fwd', m, v);
    forall u | 0 <= u < v
      ensures RowKept(instrs, levels0, levels', levelStart, fwd', m, u)
    {
      assert RowKept(instrs, levels0, levels, levelStart, fwd, m, u);
      assert levelStart[u + 1] <= levelStart[v];
      RowUntouched(instrs, levels, levels', levelStart, fwd, fwd', m, m, u);
    }
  }

  /** min_marginal_averaging_forward (lines 448-483). */
  method AveragingForward(instrs: seq<Instr>, levels: seq<Level>, levelStart: seq<nat>, ghost rank: seq<nat>,
                          fwd: seq<ExtReal>, m: seq<ExtReal>)
    returns (ok: bool, levels': seq<Level>, fwd': seq<ExtReal>)
    requires RowsOk(levels, levelStart) && SweepState(instrs, levels, fwd, m) && IncomingOk(instrs, rank)
    ensures SameShape(levels, levels') && RowsOk(levels', levelStart) && SweepState(instrs, levels', fwd', m)
    ensures ok ==> ForwardConsistent(instrs, levels', rank, fwd')
    ensures ok ==> forall v :: 0 <= v < NrVars(levelStart) ==> RowKept(instrs, levels, levels', levelStart, fwd', m, v)
  {
    levels' := levels;
    fwd' := fwd;
    var v := 0;
    while v < NrVars(levelStart)
      invariant v <= NrVars(levelStart)
      invariant ForwardDone(instrs, levels, levels', levelStart, rank, fwd', m, v)
    {
      var ok1, levels'', fwd'' := ForwardAverageVar(instrs, levels', levelStart, rank, fwd', m, v);
      SameShapeKeeps(instrs, levels', levels'', levelStart, rank);
      if !ok1 {
        ok := false;
        SameShapeTransitive(levels, levels', levels'');
        levels', fwd' := levels'', fwd'';
        return;
      }
      ForwardStep(instrs, levels, levels', levels'', levelStart, rank, fwd', fwd'', m, v);
      levels', fwd' := levels'', fwd'';
      v := v + 1;
    }
    ok := true;
    forall i | 0 <= i < |instrs| {
      VarBelow(instrs, levels', levelStart, i);
    }
  }
}
