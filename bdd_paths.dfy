/** What the backward costs mean. An assignment of 0/1 values to the
    variables selects one outgoing edge at every instruction; following the
    selected edges from an instruction ends at a terminal, and the costs of
    the levels left by a high edge add up to the path's cost (infinity when
    the path ends at the false terminal). Once a backward run has finished,
    the backward cost of every instruction is the cheapest such path from
    it: no assignment does better, and some assignment achieves it. */
module BddPaths {
  import opened ExtendedReals
  import opened BddStorage
  import opened BddInstructions
  import opened BddSweeps

  /** Every instruction's variable is an index of x. */
  ghost predicate Covers(instrs: seq<Instr>, levels: seq<Level>, x: seq<bool>)
    requires Owned(instrs, levels)
  {
    forall k :: 0 <= k < |instrs| ==> VarOf(instrs, levels, k) < |x|
  }

  /** The edge x selects at instruction k. */
  function Selected(instrs: seq<Instr>, levels: seq<Level>, x: seq<bool>, k: nat): Link
    requires Owned(instrs, levels) && Covers(instrs, levels, x) && k < |instrs|
  {
    if x[VarOf(instrs, levels, k)] then instrs[k].high else instrs[k].low
  }

  /** The cost of the path that x selects from c. */
  function PathCost(instrs: seq<Instr>, levels: seq<Level>, x: seq<bool>, c: Link): ExtReal
    requires Owned(instrs, levels) && Downward(instrs, levels) && Covers(instrs, levels, x)
    requires c.At? ==> c.index < |instrs|
    decreases if c.At? then |x| - VarOf(instrs, levels, c.index) else 0
  {
    match c
    case Terminal1 => Finite(0.0)
    case At(k) =>
      assert SuccOk(instrs, levels, k, instrs[k].low) && SuccOk(instrs, levels, k, instrs[k].high);
      if x[VarOf(instrs, levels, k)] then Add(PathCost(instrs, levels, x, instrs[k].high), CostOf(instrs, levels, k))
      else PathCost(instrs, levels, x, instrs[k].low)
    case _ => Infinity
  }

  /** The variable a path from c starts at (past the last variable for a
      terminal). */
  function StartVar(instrs: seq<Instr>, levels: seq<Level>, x: seq<bool>, c: Link): nat
    requires Owned(instrs, levels) && (c.At? ==> c.index < |instrs|)
  {
    if c.At? then VarOf(instrs, levels, c.index) else |x|
  }

  /** A path from c reads x only at c's variable and beyond. */
  lemma {:induction false} PathFrame(instrs: seq<Instr>, levels: seq<Level>, x: seq<bool>, y: seq<bool>, c: Link)
    requires Owned(instrs, levels) && Downward(instrs, levels) && Covers(instrs, levels, x) && |y| == |x|
    requires c.At? ==> c.index < |instrs|
    requires forall u :: StartVar(instrs, levels, x, c) <= u < |x| ==> x[u] == y[u]
    ensures Covers(instrs, levels, y)
    ensures PathCost(instrs, levels, y, c) == PathCost(instrs, levels, x, c)
    decreases if c.At? then |x| - VarOf(instrs, levels, c.index) else 0
  {
    if c.At? {
      var k := c.index;
      assert SuccOk(instrs, levels, k, instrs[k].low) && SuccOk(instrs, levels, k, instrs[k].high);
      PathFrame(instrs, levels, x, y, instrs[k].low);
      PathFrame(instrs, levels, x, y, instrs[k].high);
    }
  }

  /** No path from c is cheaper than its backward cost. */
  lemma {:induction false} BackwardBelowPaths(instrs: seq<Instr>, levels: seq<Level>, m: seq<ExtReal>, x: seq<bool>, c: Link)
    requires Owned(instrs, levels) && Downward(instrs, levels) && BackwardConsistent(instrs, levels, m)
    requires Covers(instrs, levels, x) && (c.At? ==> c.index < |instrs|)
    ensures Le(SuccCost(m, c), PathCost(instrs, levels, x, c))
    decreases if c.At? then |x| - VarOf(instrs, levels, c.index) else 0
  {
    if c.At? {
      var k := c.index;
      assert SuccOk(instrs, levels, k, instrs[k].low) && SuccOk(instrs, levels, k, instrs[k].high);
      assert m[k] == BackwardValue(instrs, levels, m, k);
      if x[VarOf(instrs, levels, k)] {
        BackwardBelowPaths(instrs, levels, m, x, instrs[k].high);
        AddMonotone(SuccCost(m, instrs[k].high), PathCost(instrs, levels, x, instrs[k].high), CostOf(instrs, levels, k));
        LeTransitive(m[k], Add(SuccCost(m, instrs[k].high), CostOf(instrs, levels, k)), PathCost(instrs, levels, x, c));
      } else {
        BackwardBelowPaths(instrs, levels, m, x, instrs[k].low);
        LeTransitive(m[k], SuccCost(m, instrs[k].low), PathCost(instrs, levels, x, c));
      }
    }
  }

  /** The assignment that follows the cheaper edge from c on, agreeing with
      x before c's variable. */
  ghost function BestAssignment(instrs: seq<Instr>, levels: seq<Level>, m: seq<ExtReal>, x: seq<bool>, c: Link): (y: seq<bool>)
    requires Owned(instrs, levels) && Downward(instrs, levels) && |m| == |instrs|
    requires Covers(instrs, levels, x) && (c.At? ==> c.index < |instrs|)
    ensures |y| == |x|
    ensures forall u :: 0 <= u < StartVar(instrs, levels, x, c) ==> y[u] == x[u]
    decreases if c.At? then |x| - VarOf(instrs, levels, c.index) else 0
  {
    if c.At? then
      var k := c.index;
      assert SuccOk(instrs, levels, k, instrs[k].low) && SuccOk(instrs, levels, k, instrs[k].high);
      var high := m[k] != SuccCost(m, instrs[k].low);
      var y := BestAssignment(instrs, levels, m, x, if high then instrs[k].high else instrs[k].low);
      y[VarOf(instrs, levels, k) := high]
    else x
  }

  /** The cheapest path is achieved: its cost is the backward cost. */
  lemma {:induction false} BackwardAttained(instrs: seq<Instr>, levels: seq<Level>, m: seq<ExtReal>, x: seq<bool>, c: Link)
    requires Owned(instrs, levels) && Downward(instrs, levels) && BackwardConsistent(instrs, levels, m)
    requires Covers(instrs, levels, x) && (c.At? ==> c.index < |instrs|)
    ensures Covers(instrs, levels, BestAssignment(instrs, levels, m, x, c))
    ensures PathCost(instrs, levels, BestAssignment(instrs, levels, m, x, c), c) == SuccCost(m, c)
    decreases if c.At? then |x| - VarOf(instrs, levels, c.index) else 0
  {
    if c.At? {
      var k := c.index;
      assert SuccOk(instrs, levels, k, instrs[k].low) && SuccOk(instrs, levels, k, instrs[k].high);
      assert m[k] == BackwardValue(instrs, levels, m, k);
      var high := m[k] != SuccCost(m, instrs[k].low);
      var next := if high then instrs[k].high else instrs[k].low;
      var y := BestAssignment(instrs, levels, m, x, next);
      BackwardAttained(instrs, levels, m, x, next);
      var y' := y[VarOf(instrs, levels, k) := high];
      PathFrame(instrs, levels, y, y', next);
    }
  }

  /** The backward cost of instruction k is the minimum path cost from k over
      all assignments. */
  lemma BackwardIsMinimum(instrs: seq<Instr>, levels: seq<Level>, m: seq<ExtReal>, n: nat, k: nat)
    requires Owned(instrs, levels) && Downward(instrs, levels) && BackwardConsistent(instrs, levels, m)
    requires k < |instrs| && forall i :: 0 <= i < |instrs| ==> VarOf(instrs, levels, i) < n
    ensures forall x: seq<bool> :: |x| == n ==> Le(m[k], PathCost(instrs, levels, x, At(k)))
    ensures exists x: seq<bool> :: |x| == n && Covers(instrs, levels, x) && m[k] == PathCost(instrs, levels, x, At(k))
  {
    forall x: seq<bool> | |x| == n
      ensures Le(m[k], PathCost(instrs, levels, x, At(k)))
    {
      BackwardBelowPaths(instrs, levels, m, x, At(k));
    }
    var x0 := seq(n, _ => false);
    BackwardAttained(instrs, levels, m, x0, At(k));
  }

  /** Backward costs that agree with their steps are determined by the
      level costs: the cheapest path from each instruction. */
  lemma BackwardUnique(instrs: seq<Instr>, levels: seq<Level>, m: seq<ExtReal>, m': seq<ExtReal>, n: nat)
    requires Owned(instrs, levels) && Downward(instrs, levels)
    requires BackwardConsistent(instrs, levels, m) && BackwardConsistent(instrs, levels, m')
    requires forall i :: 0 <= i < |instrs| ==> VarOf(instrs, levels, i) < n
    ensures m == m'
  {
    var x0 := seq(n, _ => false);
    forall k | 0 <= k < |instrs| ensures m[k] == m'[k] {
      var x := BestAssignment(instrs, levels, m, x0, At(k));
      var x' := BestAssignment(instrs, levels, m', x0, At(k));
      BackwardAttained(instrs, levels, m, x0, At(k));
      BackwardAttained(instrs, levels, m', x0, At(k));
      BackwardBelowPaths(instrs, levels, m, x', At(k));
      BackwardBelowPaths(instrs, levels, m', x, At(k));
    }
  }
}
