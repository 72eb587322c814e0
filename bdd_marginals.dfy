/** Min-marginals and the reparametrisation of include/bdd/bdd_min_marginal_averaging.h
    (lines 350-380, 431-446). The min-marginal pair of an instruction is the
    cheapest cost of a path through it that leaves by the low edge and by the
    high edge; the pair of a level is the componentwise minimum over its
    instructions. Averaging the pairs of all BDDs at one variable and moving
    each BDD's level cost so that its difference matches the average's leaves
    the sum of the level costs at that variable unchanged. */
module BddMarginals {
  import opened ExtendedReals
  import opened BddStorage
  import opened BddInstructions
  import opened BddSweeps

  /** A std::array<double,2> of min-marginals: index 0 and index 1. */
  datatype Marginals = Marginals(zero: ExtReal, one: ExtReal)

  predicate IsFinite(p: Marginals)
  {
    p.zero.Finite? && p.one.Finite?
  }

  function MinPair(a: Marginals, b: Marginals): (r: Marginals)
    ensures Le(r.zero, a.zero) && Le(r.zero, b.zero) && Le(r.one, a.one) && Le(r.one, b.one)
    ensures (r.zero == a.zero || r.zero == b.zero) && (r.one == a.one || r.one == b.one)
  {
    Marginals(Min(a.zero, b.zero), Min(a.one, b.one))
  }

  /** The min-marginal pair of instruction i: forward cost plus the low
      successor's backward cost, and forward cost plus the level cost plus
      the high successor's backward cost. */
  function NodeMarginals(instrs: seq<Instr>, levels: seq<Level>, fwd: seq<ExtReal>, m: seq<ExtReal>, i: nat): Marginals
    requires Owned(instrs, levels) && Downward(instrs, levels) && |fwd| == |instrs| && |m| == |instrs| && i < |instrs|
  {
    Marginals(Add(fwd[i], SuccCost(m, instrs[i].low)),
              Add(Add(fwd[i], CostOf(instrs, levels, i)), SuccCost(m, instrs[i].high)))
  }

  /** The state a sweep of this module reads: a built array with one forward
      and one backward cost per instruction. */
  ghost predicate SweepState(instrs: seq<Instr>, levels: seq<Level>, fwd: seq<ExtReal>, m: seq<ExtReal>)
  {
    RangesOk(instrs, levels) && Owned(instrs, levels) && Downward(instrs, levels) &&
    |fwd| == |instrs| && |m| == |instrs|
  }

  /** The running minimum of the pairs of level l's instructions before j. */
  function MarginalsUpTo(instrs: seq<Instr>, levels: seq<Level>, fwd: seq<ExtReal>, m: seq<ExtReal>, l: nat, j: nat): Marginals
    requires SweepState(instrs, levels, fwd, m) && l < |levels| && levels[l].first <= j <= levels[l].last
    decreases j
  {
    if j == levels[l].first then Marginals(Infinity, Infinity)
    else MinPair(MarginalsUpTo(instrs, levels, fwd, m, l, j - 1), NodeMarginals(instrs, levels, fwd, m, j - 1))
  }

  /** The min-marginal pair of level l. */
  function LevelMarginals(instrs: seq<Instr>, levels: seq<Level>, fwd: seq<ExtReal>, m: seq<ExtReal>, l: nat): Marginals
    requires SweepState(instrs, levels, fwd, m) && l < |levels|
  {
    MarginalsUpTo(instrs, levels, fwd, m, l, levels[l].last)
  }

  /** The running minimum lies below every pair it has seen and equals one
      of them, componentwise. */
  lemma {:induction false} UpToIsMinimum(instrs: seq<Instr>, levels: seq<Level>, fwd: seq<ExtReal>, m: seq<ExtReal>, l: nat, j: nat)
    requires SweepState(instrs, levels, fwd, m) && l < |levels| && levels[l].first <= j <= levels[l].last
    ensures forall i :: levels[l].first <= i < j ==>
              Le(MarginalsUpTo(instrs, levels, fwd, m, l, j).zero, NodeMarginals(instrs, levels, fwd, m, i).zero) &&
              Le(MarginalsUpTo(instrs, levels, fwd, m, l, j).one, NodeMarginals(instrs, levels, fwd, m, i).one)
    ensures levels[l].first < j ==>
              (exists i :: levels[l].first <= i < j && MarginalsUpTo(instrs, levels, fwd, m, l, j).zero == NodeMarginals(instrs, levels, fwd, m, i).zero) &&
              (exists i :: levels[l].first <= i < j && MarginalsUpTo(instrs, levels, fwd, m, l, j).one == NodeMarginals(instrs, levels, fwd, m, i).one)
    decreases j
  {
    if j > levels[l].first {
      UpToIsMinimum(instrs, levels, fwd, m, l, j - 1);
      var prev := MarginalsUpTo(instrs, levels, fwd, m, l, j - 1);
      var r := MarginalsUpTo(instrs, levels, fwd, m, l, j);
      forall i | levels[l].first <= i < j - 1
        ensures Le(r.zero, NodeMarginals(instrs, levels, fwd, m, i).zero) && Le(r.one, NodeMarginals(instrs, levels, fwd, m, i).one)
      {
        LeTransitive(r.zero, prev.zero, NodeMarginals(instrs, levels, fwd, m, i).zero);
        LeTransitive(r.one, prev.one, NodeMarginals(instrs, levels, fwd, m, i).one);
      }
    }
  }

  /** A level's pair is the componentwise minimum over its instructions: no
      instruction has a smaller entry, and each entry is some instruction's. */
  lemma LevelMarginalsMinimum(instrs: seq<Instr>, levels: seq<Level>, fwd: seq<ExtReal>, m: seq<ExtReal>, l: nat)
    requires SweepState(instrs, levels, fwd, m) && l < |levels|
    ensures forall i :: levels[l].first <= i < levels[l].last ==>
              Le(LevelMarginals(instrs, levels, fwd, m, l).zero, NodeMarginals(instrs, levels, fwd, m, i).zero) &&
              Le(LevelMarginals(instrs, levels, fwd, m, l).one, NodeMarginals(instrs, levels, fwd, m, i).one)
    ensures exists i :: levels[l].first <= i < levels[l].last &&
              LevelMarginals(instrs, levels, fwd, m, l).zero == NodeMarginals(instrs, levels, fwd, m, i).zero
    ensures exists i :: levels[l].first <= i < levels[l].last &&
              LevelMarginals(instrs, levels, fwd, m, l).one == NodeMarginals(instrs, levels, fwd, m, i).one
  {
    UpToIsMinimum(instrs, levels, fwd, m, l, levels[l].last);
  }

  /** min_marginal (lines 350-366): the running minimum over level l. The
      source asserts that the result is finite; that check is left to the
      averaging passes, which fail when it does not hold. */
  method MinMarginal(instrs: seq<Instr>, levels: seq<Level>, fwd: seq<ExtReal>, m: seq<ExtReal>, l: nat) returns (mm: Marginals)
    requires SweepState(instrs, levels, fwd, m) && l < |levels|
    ensures mm == LevelMarginals(instrs, levels, fwd, m, l)
  {
    mm := Marginals(Infinity, Infinity);
    var i := levels[l].first;
    while i < levels[l].last
      invariant levels[l].first <= i <= levels[l].last
      invariant mm == MarginalsUpTo(instrs, levels, fwd, m, l, i)
    {
      var p := NodeMarginals(instrs, levels, fwd, m, i);
      mm := Marginals(Min(mm.zero, p.zero), Min(mm.one, p.one));
      i := i + 1;
    }
  }

  // ----- what a level's pair reads -----

  /** A level's pair reads only its own cost, the forward costs of its own
      instructions and the backward costs elsewhere. */
  lemma {:induction false} UpToFrame(instrs: seq<Instr>, levels: seq<Level>, fwd: seq<ExtReal>, m: seq<ExtReal>,
                                     levels': seq<Level>, fwd': seq<ExtReal>, m': seq<ExtReal>, l: nat, j: nat)
    requires SweepState(instrs, levels, fwd, m) && SweepState(instrs, levels', fwd', m') && l < |levels|
    requires SameShape(levels, levels') && levels'[l].cost == levels[l].cost
    requires levels[l].first <= j <= levels[l].last
    requires forall i :: levels[l].first <= i < levels[l].last ==> fwd'[i] == fwd[i]
    requires forall i :: levels[l].first <= i < levels[l].last ==>
               SuccCost(m', instrs[i].low) == SuccCost(m, instrs[i].low) &&
               SuccCost(m', instrs[i].high) == SuccCost(m, instrs[i].high)
    ensures MarginalsUpTo(instrs, levels', fwd', m', l, j) == MarginalsUpTo(instrs, levels, fwd, m, l, j)
    decreases j
  {
    if j > levels[l].first {
      UpToFrame(instrs, levels, fwd, m, levels', fwd', m', l, j - 1);
    }
  }

  /** Raising level l's cost by d raises the high entry of its pair by d and
      leaves the low entry alone. */
  lemma {:induction false} UpToShift(instrs: seq<Instr>, levels: seq<Level>, fwd: seq<ExtReal>, m: seq<ExtReal>, l: nat, d: real, j: nat)
    requires SweepState(instrs, levels, fwd, m) && l < |levels| && levels[l].first <= j <= levels[l].last
    requires SweepState(instrs, levels[l := levels[l].(cost := Add(levels[l].cost, Finite(d)))], fwd, m)
    ensures MarginalsUpTo(instrs, levels[l := levels[l].(cost := Add(levels[l].cost, Finite(d)))], fwd, m, l, j) ==
            Marginals(MarginalsUpTo(instrs, levels, fwd, m, l, j).zero, Add(MarginalsUpTo(instrs, levels, fwd, m, l, j).one, Finite(d)))
    decreases j
  {
    var levels' := levels[l := levels[l].(cost := Add(levels[l].cost, Finite(d)))];
    if j > levels[l].first {
      UpToShift(instrs, levels, fwd, m, l, d, j - 1);
      var i := j - 1;
      var p := NodeMarginals(instrs, levels, fwd, m, i);
      var p' := NodeMarginals(instrs, levels', fwd, m, i);
      assert p'.zero == p.zero;
      assert p'.one == Add(p.one, Finite(d)) by {
        AddAssociative(fwd[i], levels[l].cost, Finite(d));
        AddAssociative(Add(fwd[i], levels[l].cost), Finite(d), SuccCost(m, instrs[i].high));
        AddCommutative(Finite(d), SuccCost(m, instrs[i].high));
        AddAssociative(Add(fwd[i], levels[l].cost), SuccCost(m, instrs[i].high), Finite(d));
      }
      MinShift(MarginalsUpTo(instrs, levels, fwd, m, l, j - 1).one, p.one, d);
    } else {
      assert Add(Infinity, Finite(d)) == Infinity;
    }
  }

  // ----- averaging -----

  /** Running totals of the low and the high entries. */
  function ZeroTotal(ms: seq<Marginals>): (r: ExtReal)
    ensures r.Finite? <==> forall b :: 0 <= b < |ms| ==> ms[b].zero.Finite?
  {
    if |ms| == 0 then Finite(0.0) else Add(ZeroTotal(ms[..|ms| - 1]), ms[|ms| - 1].zero)
  }

  function OneTotal(ms: seq<Marginals>): (r: ExtReal)
    ensures r.Finite? <==> forall b :: 0 <= b < |ms| ==> ms[b].one.Finite?
  {
    if |ms| == 0 then Finite(0.0) else Add(OneTotal(ms[..|ms| - 1]), ms[|ms| - 1].one)
  }

  predicate AllFinite(ms: seq<Marginals>)
  {
    forall b :: 0 <= b < |ms| ==> IsFinite(ms[b])
  }

  /** The componentwise mean of a non-empty list of finite pairs. */
  function Mean(ms: seq<Marginals>): Marginals
    requires |ms| > 0 && AllFinite(ms)
  {
    Marginals(Finite(ZeroTotal(ms).value / |ms| as real), Finite(OneTotal(ms).value / |ms| as real))
  }

  /** average_marginals (lines 431-446): sum both entries and divide by the
      count. The source asserts that the averages are finite, which fails for
      an empty list (0/0) and for a list with an infinite entry; then ok is
      false. */
  method AverageMarginals(ms: seq<Marginals>) returns (ok: bool, avg: Marginals)
    ensures ok <==> |ms| > 0 && AllFinite(ms)
    ensures ok ==> avg == Mean(ms)
  {
    var sum0 := Finite(0.0);
    var sum1 := Finite(0.0);
    var i := 0;
    while i < |ms|
      invariant i <= |ms|
      invariant sum0 == ZeroTotal(ms[..i]) && sum1 == OneTotal(ms[..i])
    {
      assert ms[..i + 1][..i] == ms[..i];
      sum0 := Add(sum0, ms[i].zero);
      sum1 := Add(sum1, ms[i].one);
      i := i + 1;
    }
    assert ms[..|ms|] == ms;
    if |ms| > 0 && sum0.Finite? && sum1.Finite? {
      ok := true;
      avg := Marginals(Finite(sum0.value / |ms| as real), Finite(sum1.value / |ms| as real));
    } else {
      ok := false;
      avg := Marginals(Infinity, Infinity);
    }
  }

  /** The difference of a finite pair, entry 1 minus entry 0. */
  function Diff(p: Marginals): real
    requires IsFinite(p)
  {
    p.one.value - p.zero.value
  }

  /** The amount set_marginal adds: the target difference minus the own one. */
  function Correction(target: Marginals, own: Marginals): real
    requires IsFinite(target) && IsFinite(own)
  {
    -Diff(own) + Diff(target)
  }

  /** set_marginal (lines 368-380): add the correction to level l's cost and
      change nothing else. */
  function SetMarginal(levels: seq<Level>, l: nat, target: Marginals, own: Marginals): (r: seq<Level>)
    requires l < |levels| && IsFinite(target) && IsFinite(own)
    ensures SameShape(levels, r)
    ensures r[l].cost == Add(levels[l].cost, Finite(Correction(target, own)))
    ensures forall k :: 0 <= k < |levels| && k != l ==> r[k] == levels[k]
  {
    levels[l := levels[l].(cost := Add(levels[l].cost, Finite(Correction(target, own))))]
  }

  /** After set_marginal with the level's own pair, the level's pair has the
      target's difference and its low entry is unchanged. */
  lemma SetMarginalMatches(instrs: seq<Instr>, levels: seq<Level>, fwd: seq<ExtReal>, m: seq<ExtReal>, l: nat, target: Marginals)
    requires SweepState(instrs, levels, fwd, m) && l < |levels| && IsFinite(target)
    requires IsFinite(LevelMarginals(instrs, levels, fwd, m, l))
    ensures SweepState(instrs, SetMarginal(levels, l, target, LevelMarginals(instrs, levels, fwd, m, l)), fwd, m)
    ensures var after := LevelMarginals(instrs, SetMarginal(levels, l, target, LevelMarginals(instrs, levels, fwd, m, l)), fwd, m, l);
            IsFinite(after) && after.zero == LevelMarginals(instrs, levels, fwd, m, l).zero &&
            Diff(after) == Diff(target)
  {
    var own := LevelMarginals(instrs, levels, fwd, m, l);
    var d := Correction(target, own);
    var levels' := SetMarginal(levels, l, target, own);
    SameShapeKeeps(instrs, levels, levels', [0], []);
    assert levels' == levels[l := levels[l].(cost := Add(levels[l].cost, Finite(d)))];
    UpToShift(instrs, levels, fwd, m, l, d, levels[l].last);
  }

  // ----- sums of level costs -----

  function RealSum(xs: seq<real>): real
  {
    if |xs| == 0 then 0.0 else RealSum(xs[..|xs| - 1]) + xs[|xs| - 1]
  }

  /** The sum of the costs of levels a .. b - 1. */
  function CostSum(levels: seq<Level>, a: nat, b: nat): ExtReal
    requires a <= b <= |levels|
    decreases b
  {
    if a == b then Finite(0.0) else Add(CostSum(levels, a, b - 1), levels[b - 1].cost)
  }

  /** Adding d[k] to the cost of level a + k adds the sum of d to the sum of
      the costs. */
  lemma {:induction false} CostSumShift(levels: seq<Level>, levels': seq<Level>, a: nat, b: nat, d: seq<real>)
    requires a <= b <= |levels| && |levels'| == |levels| && |d| == b - a
    requires forall k :: a <= k < b ==> levels'[k].cost == Add(levels[k].cost, Finite(d[k - a]))
    ensures CostSum(levels', a, b) == Add(CostSum(levels, a, b), Finite(RealSum(d)))
    decreases b
  {
    if a < b {
      var d0 := d[..|d| - 1];
      CostSumShift(levels, levels', a, b - 1, d0);
      var s := CostSum(levels, a, b - 1);
      var c := levels[b - 1].cost;
      var e := d[|d| - 1];
      assert d0 == d[..|d| - 1];
      calc {
        CostSum(levels', a, b);
        Add(Add(s, Finite(RealSum(d0))), Add(c, Finite(e)));
        { AddAssociative(s, Finite(RealSum(d0)), Add(c, Finite(e)));
          AddAssociative(Finite(RealSum(d0)), c, Finite(e));
          AddCommutative(Finite(RealSum(d0)), c);
          AddAssociative(c, Finite(RealSum(d0)), Finite(e));
          AddAssociative(s, c, Add(Finite(RealSum(d0)), Finite(e))); }
        Add(Add(s, c), Finite(RealSum(d0) + e));
      }
    }
  }

  /** The corrections for the pairs ms towards the target. */
  function Corrections(target: Marginals, ms: seq<Marginals>): (r: seq<real>)
    requires IsFinite(target) && AllFinite(ms)
    ensures |r| == |ms| && forall b :: 0 <= b < |ms| ==> r[b] == Correction(target, ms[b])
  {
    if |ms| == 0 then [] else Corrections(target, ms[..|ms| - 1]) + [Correction(target, ms[|ms| - 1])]
  }

  /** k copies of d added up. */
  function Times(k: nat, d: real): real
  {
    if k == 0 then 0.0 else Times(k - 1, d) + d
  }

  lemma {:induction false} TimesIsProduct(k: nat, d: real)
    ensures Times(k, d) == (k as real) * d
  {
    if k > 0 {
      TimesIsProduct(k - 1, d);
      assert (k as real) * d == ((k - 1) as real) * d + d;
    }
  }

  lemma {:induction false} CorrectionsSum(target: Marginals, ms: seq<Marginals>)
    requires IsFinite(target) && AllFinite(ms)
    ensures RealSum(Corrections(target, ms)) ==
            Times(|ms|, Diff(target)) - (OneTotal(ms).value - ZeroTotal(ms).value)
  {
    if |ms| > 0 {
      var ms0 := ms[..|ms| - 1];
      CorrectionsSum(target, ms0);
      var cs := Corrections(target, ms);
      assert cs[..|ms| - 1] == Corrections(target, ms0);
    }
  }

  /** n times the difference of the mean is the difference of the totals. */
  lemma MeanCancel(ms: seq<Marginals>)
    requires |ms| > 0 && AllFinite(ms)
    ensures Times(|ms|, Diff(Mean(ms))) == OneTotal(ms).value - ZeroTotal(ms).value
  {
    var k := |ms| as real;
    var s0 := ZeroTotal(ms).value;
    var s1 := OneTotal(ms).value;
    var dt := Diff(Mean(ms));
    assert dt == s1 / k - s0 / k;
    TimesIsProduct(|ms|, dt);
    assert (s1 / k) * k == s1 && (s0 / k) * k == s0;
    assert k * (s1 / k - s0 / k) == (s1 / k) * k - (s0 / k) * k;
  }

  /** Moving every pair's difference to the mean's costs nothing in total:
      the corrections sum to zero. */
  lemma CorrectionsCancel(ms: seq<Marginals>)
    requires |ms| > 0 && AllFinite(ms)
    ensures RealSum(Corrections(Mean(ms), ms)) == 0.0
  {
    MeanCancel(ms);
    CorrectionsSum(Mean(ms), ms);
  }
}
