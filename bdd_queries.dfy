/** The read-only queries of include/bdd/bdd_min_marginal_averaging.h
    (lines 541-593, 618-664): whether an assignment satisfies every BDD (a
    walk that marks the instructions the assignment reaches from each BDD's
    root), its cost, the variable an instruction belongs to, and the first
    and last variable of the BDD a level belongs to. */
module BddQueries {
  import opened ExtendedReals
  import opened BddStorage
  import opened BddInstructions
  import opened BddSweeps
  import opened BddPaths

  datatype Option<T> = None | Some(value: T)

  // ----- bdd_variable -----

  /** The range of level l holds instruction index i. */
  predicate Holds(levels: seq<Level>, l: nat, i: nat)
    requires l < |levels|
  {
    levels[l].first <= i < levels[l].last
  }

  /** In a built table the only level whose range holds an instruction is
      the level the instruction refers to. */
  lemma HoldsOnlyOwn(instrs: seq<Instr>, levels: seq<Level>, i: nat, l: nat)
    requires RangesOk(instrs, levels) && Owned(instrs, levels) && i < |instrs| && l < |levels|
    ensures Holds(levels, l, i) <==> l == LevelOfInstr(instrs, i)
  {
  }

  /** bdd_variable (lines 618-629): the row of the first level, in table
      order, whose range holds i; None where the source throws. */
  method BddVariable(instrs: seq<Instr>, levels: seq<Level>, levelStart: seq<nat>, i: nat) returns (r: Option<nat>)
    requires RowsOk(levels, levelStart)
    ensures r.Some? ==> r.value < NrVars(levelStart)
    ensures r.Some? ==> exists l :: levelStart[r.value] <= l < levelStart[r.value + 1] && Holds(levels, l, i)
    ensures r.Some? ==> forall l :: 0 <= l < levelStart[r.value] ==> !Holds(levels, l, i)
    ensures r.None? <==> forall l :: 0 <= l < |levels| ==> !Holds(levels, l, i)
    ensures RangesOk(instrs, levels) && Owned(instrs, levels) && i < |instrs| ==> r == Some(VarOf(instrs, levels, i))
  {
    var v := 0;
    while v < NrVars(levelStart)
      invariant v <= NrVars(levelStart)
      invariant forall l :: 0 <= l < levelStart[v] ==> !Holds(levels, l, i)
    {
      var l := levelStart[v];
      while l < levelStart[v + 1]
        invariant levelStart[v] <= l <= levelStart[v + 1]
        invariant forall k :: 0 <= k < l ==> !Holds(levels, k, i)
      {
        if levels[l].first <= i < levels[l].last {
          r := Some(v);
          assert Holds(levels, l, i);
          if RangesOk(instrs, levels) && Owned(instrs, levels) && i < |instrs| {
            HoldsOnlyOwn(instrs, levels, i, l);
          }
          return;
        }
        l := l + 1;
      }
      v := v + 1;
    }
    r := None;
    if RangesOk(instrs, levels) && Owned(instrs, levels) && i < |instrs| {
      HoldsOnlyOwn(instrs, levels, i, LevelOfInstr(instrs, i));
    }
  }

  // ----- first_variable_of_bdd and last_variable_of_bdd -----

  /** The head of l's chain: the level of its BDD's first variable. */
  ghost function ChainHead(levels: seq<Level>, l: nat): (h: nat)
    requires ChainOk(levels) && l < |levels|
    ensures h < |levels| && levels[h].prev == NoLevel && levels[h].variable <= levels[l].variable
    decreases levels[l].variable
  {
    if levels[l].prev.LevelAt? then ChainHead(levels, levels[l].prev.index) else l
  }

  /** The tail of l's chain: the level of its BDD's last variable. */
  ghost function ChainTail(levels: seq<Level>, levelStart: seq<nat>, l: nat): (t: nat)
    requires RowsOk(levels, levelStart) && ChainOk(levels) && l < |levels|
    ensures t < |levels| && levels[t].next == NoLevel && levels[l].variable <= levels[t].variable
    decreases NrVars(levelStart) - levels[l].variable
  {
    LevelRow(levels, levelStart, l);
    if levels[l].next.LevelAt? then
      LevelRow(levels, levelStart, levels[l].next.index);
      ChainTail(levels, levelStart, levels[l].next.index)
    else l
  }

  /** The levels of one chain share their head and their tail: each BDD has
      exactly one first and one last variable. */
  lemma ChainShared(levels: seq<Level>, levelStart: seq<nat>, l: nat)
    requires RowsOk(levels, levelStart) && ChainOk(levels) && l < |levels| && levels[l].next.LevelAt?
    ensures ChainHead(levels, levels[l].next.index) == ChainHead(levels, l)
    ensures ChainTail(levels, levelStart, levels[l].next.index) == ChainTail(levels, levelStart, l)
  {
  }

  /** first_variable_of_bdd (lines 650-656): follow prev to the head. */
  method FirstVariableOfBdd(levels: seq<Level>, l: nat) returns (r: nat)
    requires ChainOk(levels) && l < |levels|
    ensures r == levels[ChainHead(levels, l)].variable && r <= levels[l].variable
  {
    var p: nat := l;
    while levels[p].prev.LevelAt?
      invariant p < |levels| && ChainHead(levels, p) == ChainHead(levels, l)
      decreases levels[p].variable
    {
      p := levels[p].prev.index;
    }
    r := levels[p].variable;
  }

  /** last_variable_of_bdd (lines 658-664): follow next to the tail. */
  method LastVariableOfBdd(levels: seq<Level>, levelStart: seq<nat>, l: nat) returns (r: nat)
    requires RowsOk(levels, levelStart) && ChainOk(levels) && l < |levels|
    ensures r == levels[ChainTail(levels, levelStart, l)].variable && levels[l].variable <= r
  {
    var p: nat := l;
    LevelRow(levels, levelStart, p);
    while levels[p].next.LevelAt?
      invariant p < |levels| && ChainTail(levels, levelStart, p) == ChainTail(levels, levelStart, l)
      decreases NrVars(levelStart) - levels[p].variable
    {
      LevelRow(levels, levelStart, p);
      LevelRow(levels, levelStart, levels[p].next.index);
      p := levels[p].next.index;
    }
    r := levels[p].variable;
  }

  // ----- check_feasibility -----

  /** Instruction k is the root of its BDD: the only instruction of a level
      that heads its chain. */
  ghost predicate IsRoot(instrs: seq<Instr>, levels: seq<Level>, k: nat)
    requires Owned(instrs, levels) && k < |instrs|
  {
    levels[LevelOfInstr(instrs, k)].prev == NoLevel && levels[LevelOfInstr(instrs, k)].first == k
  }

  /** Instruction k lies on the path that x selects from some root. */
  ghost predicate Reached(instrs: seq<Instr>, levels: seq<Level>, x: seq<bool>, k: nat)
    requires Owned(instrs, levels) && Downward(instrs, levels) && Covers(instrs, levels, x) && k < |instrs|
    decreases VarOf(instrs, levels, k)
  {
    IsRoot(instrs, levels, k) ||
    exists p :: 0 <= p < |instrs| && VarOf(instrs, levels, p) < VarOf(instrs, levels, k) &&
                Selected(instrs, levels, x, p) == At(k) && Reached(instrs, levels, x, p)
  }

  /** No instruction that x reaches selects the false terminal. */
  ghost predicate Feasible(instrs: seq<Instr>, levels: seq<Level>, x: seq<bool>)
    requires Owned(instrs, levels) && Downward(instrs, levels) && Covers(instrs, levels, x)
  {
    forall p :: 0 <= p < |instrs| && Reached(instrs, levels, x, p) ==> Selected(instrs, levels, x, p) != Terminal0
  }

  /** The terminal at which the path x selects from c ends. */
  function PathEnd(instrs: seq<Instr>, levels: seq<Level>, x: seq<bool>, c: Link): (e: Link)
    requires Owned(instrs, levels) && Downward(instrs, levels) && Covers(instrs, levels, x)
    requires c.At? ==> c.index < |instrs|
    ensures c.At? ==> e.Terminal0? || e.Terminal1?
    decreases if c.At? then |x| - VarOf(instrs, levels, c.index) else 0
  {
    match c
    case At(k) =>
      assert SuccOk(instrs, levels, k, instrs[k].low) && SuccOk(instrs, levels, k, instrs[k].high);
      PathEnd(instrs, levels, x, Selected(instrs, levels, x, k))
    case _ => c
  }

  /** On a feasible x, every path from a reached instruction ends at the
      true terminal. */
  lemma {:induction false} FeasibleReachesTrue(instrs: seq<Instr>, levels: seq<Level>, x: seq<bool>, k: nat)
    requires Owned(instrs, levels) && Downward(instrs, levels) && Covers(instrs, levels, x) && k < |instrs|
    requires Feasible(instrs, levels, x) && Reached(instrs, levels, x, k)
    ensures PathEnd(instrs, levels, x, At(k)) == Terminal1
    decreases |x| - VarOf(instrs, levels, k)
  {
    assert SuccOk(instrs, levels, k, instrs[k].low) && SuccOk(instrs, levels, k, instrs[k].high);
    var next := Selected(instrs, levels, x, k);
    if next.At? {
      assert Reached(instrs, levels, x, next.index);
      FeasibleReachesTrue(instrs, levels, x, next.index);
    }
  }

  /** If every root's path ends at the true terminal, so does the path from
      every reached instruction. */
  lemma {:induction false} AcceptedReachesTrue(instrs: seq<Instr>, levels: seq<Level>, x: seq<bool>, k: nat)
    requires Owned(instrs, levels) && Downward(instrs, levels) && Covers(instrs, levels, x) && k < |instrs|
    requires forall r :: 0 <= r < |instrs| && IsRoot(instrs, levels, r) ==> PathEnd(instrs, levels, x, At(r)) == Terminal1
    requires Reached(instrs, levels, x, k)
    ensures PathEnd(instrs, levels, x, At(k)) == Terminal1
    decreases VarOf(instrs, levels, k)
  {
    if !IsRoot(instrs, levels, k) {
      var p :| 0 <= p < |instrs| && VarOf(instrs, levels, p) < VarOf(instrs, levels, k) &&
               Selected(instrs, levels, x, p) == At(k) && Reached(instrs, levels, x, p);
      AcceptedReachesTrue(instrs, levels, x, p);
      assert SuccOk(instrs, levels, p, instrs[p].low) && SuccOk(instrs, levels, p, instrs[p].high);
    }
  }

  /** x is feasible exactly when every BDD accepts it: the path from every
      root ends at the true terminal. */
  lemma FeasibleIffAccepted(instrs: seq<Instr>, levels: seq<Level>, x: seq<bool>)
    requires Owned(instrs, levels) && Downward(instrs, levels) && Covers(instrs, levels, x)
    ensures Feasible(instrs, levels, x) <==>
            forall r :: 0 <= r < |instrs| && IsRoot(instrs, levels, r) ==> PathEnd(instrs, levels, x, At(r)) == Terminal1
  {
    if Feasible(instrs, levels, x) {
      forall r | 0 <= r < |instrs| && IsRoot(instrs, levels, r)
        ensures PathEnd(instrs, levels, x, At(r)) == Terminal1
      {
        FeasibleReachesTrue(instrs, levels, x, r);
      }
    }
    if forall r :: 0 <= r < |instrs| && IsRoot(instrs, levels, r) ==> PathEnd(instrs, levels, x, At(r)) == Terminal1 {
      forall p | 0 <= p < |instrs| && Reached(instrs, levels, x, p)
        ensures Selected(instrs, levels, x, p) != Terminal0
      {
        AcceptedReachesTrue(instrs, levels, x, p);
      }
    }
  }

  /** Instruction p comes before index i of level l in the walk's order. */
  predicate Done(instrs: seq<Instr>, p: nat, l: nat, i: nat)
    requires p < |instrs| && instrs[p].level.LevelAt?
  {
    LevelOfInstr(instrs, p) < l || (LevelOfInstr(instrs, p) == l && p < i)
  }

  /** The marks of the walk once it has visited every instruction before
      index i of level l: only reached instructions are marked, every
      reached instruction visited is marked, and every marked instruction
      visited avoids the false terminal and has marked its successor. */
  ghost predicate MarkState(instrs: seq<Instr>, levels: seq<Level>, x: seq<bool>, marks: seq<bool>, l: nat, i: nat)
    requires Owned(instrs, levels) && Downward(instrs, levels) && Covers(instrs, levels, x)
  {
    |marks| == |instrs| &&
    (forall k :: 0 <= k < |instrs| && marks[k] ==> Reached(instrs, levels, x, k)) &&
    (forall p :: 0 <= p < |instrs| && Done(instrs, p, l, i) && marks[p] ==>
       Selected(instrs, levels, x, p) != Terminal0 &&
       (Selected(instrs, levels, x, p).At? ==> Selected(instrs, levels, x, p).index < |instrs| && marks[Selected(instrs, levels, x, p).index])) &&
    (forall p :: 0 <= p < |instrs| && Done(instrs, p, l, i) && Reached(instrs, levels, x, p) ==> marks[p])
  }

  /** A reached instruction of the level being visited is marked by the time
      the walk gets to it. */
  lemma MarkedIfReached(instrs: seq<Instr>, levels: seq<Level>, levelStart: seq<nat>, x: seq<bool>, marks: seq<bool>,
                        l: nat, i: nat)
    requires RowsOk(levels, levelStart) && RangesOk(instrs, levels) && Owned(instrs, levels) && Downward(instrs, levels)
    requires Covers(instrs, levels, x) && l < |levels| && levels[l].first <= i < levels[l].last
    requires MarkState(instrs, levels, x, marks, l, i)
    requires levels[l].prev == NoLevel ==> marks[levels[l].first]
    ensures Reached(instrs, levels, x, i) ==> marks[i]
  {
    if Reached(instrs, levels, x, i) && !IsRoot(instrs, levels, i) {
      var p :| 0 <= p < |instrs| && VarOf(instrs, levels, p) < VarOf(instrs, levels, i) &&
               Selected(instrs, levels, x, p) == At(i) && Reached(instrs, levels, x, p);
      LevelRow(levels, levelStart, LevelOfInstr(instrs, p));
      LevelRow(levels, levelStart, l);
      assert Done(instrs, p, l, i);
    }
  }

  /** Index i + 1 of level l: one instruction more has been visited. */
  lemma DoneStep(instrs: seq<Instr>, levels: seq<Level>, l: nat, i: nat)
    requires RangesOk(instrs, levels) && Owned(instrs, levels) && l < |levels| && levels[l].first <= i < levels[l].last
    ensures forall p :: 0 <= p < |instrs| ==> (Done(instrs, p, l, i + 1) <==> Done(instrs, p, l, i) || p == i)
  {
    forall p | 0 <= p < |instrs| ensures Done(instrs, p, l, i + 1) <==> Done(instrs, p, l, i) || p == i {
      InRange(instrs, levels, l, p);
    }
  }

  /** Visiting instruction i of level l. */
  lemma VisitFail(instrs: seq<Instr>, levels: seq<Level>, x: seq<bool>, marks: seq<bool>, l: nat, i: nat)
    requires Owned(instrs, levels) && Downward(instrs, levels) && Covers(instrs, levels, x) && i < |instrs|
    requires MarkState(instrs, levels, x, marks, l, i)
    requires marks[i] && Selected(instrs, levels, x, i) == Terminal0
    ensures !Feasible(instrs, levels, x)
  {
  }

  /** Visiting an unmarked instruction, or one that selects the true
      terminal, changes no mark. */
  lemma VisitSkip(instrs: seq<Instr>, levels: seq<Level>, levelStart: seq<nat>, x: seq<bool>, marks: seq<bool>,
                  l: nat, i: nat)
    requires RowsOk(levels, levelStart) && RangesOk(instrs, levels) && Owned(instrs, levels) && Downward(instrs, levels)
    requires Covers(instrs, levels, x) && l < |levels| && levels[l].first <= i < levels[l].last
    requires MarkState(instrs, levels, x, marks, l, i)
    requires levels[l].prev == NoLevel ==> marks[levels[l].first]
    requires !marks[i] || Selected(instrs, levels, x, i) == Terminal1
    ensures MarkState(instrs, levels, x, marks, l, i + 1)
  {
    MarkedIfReached(instrs, levels, levelStart, x, marks, l, i);
    DoneStep(instrs, levels, l, i);
  }

  /** Visiting a marked instruction that selects another instruction marks
      that one. */
  lemma VisitMark(instrs: seq<Instr>, levels: seq<Level>, x: seq<bool>, marks: seq<bool>, l: nat, i: nat)
    requires RangesOk(instrs, levels) && Owned(instrs, levels) && Downward(instrs, levels)
    requires Covers(instrs, levels, x) && l < |levels| && levels[l].first <= i < levels[l].last
    requires MarkState(instrs, levels, x, marks, l, i)
    requires marks[i] && Selected(instrs, levels, x, i).At?
    ensures Selected(instrs, levels, x, i).index < |instrs|
    ensures MarkState(instrs, levels, x, marks[Selected(instrs, levels, x, i).index := true], l, i + 1)
  {
    assert SuccOk(instrs, levels, i, instrs[i].low) && SuccOk(instrs, levels, i, instrs[i].high);
    var k := Selected(instrs, levels, x, i).index;
    assert Reached(instrs, levels, x, k);
    DoneStep(instrs, levels, l, i);
    var marks' := marks[k := true];
    forall q | 0 <= q < |instrs| && marks'[q] ensures Reached(instrs, levels, x, q) {
      if q != k {
        assert marks[q];
      }
    }
    forall p | 0 <= p < |instrs| && Done(instrs, p, l, i + 1) && marks'[p]
      ensures Selected(instrs, levels, x, p) != Terminal0
      ensures Selected(instrs, levels, x, p).At? ==>
                Selected(instrs, levels, x, p).index < |instrs| && marks'[Selected(instrs, levels, x, p).index]
    {
      if p != i {
        assert Done(instrs, p, l, i);
        assert marks[p];
      }
    }
    forall p | 0 <= p < |instrs| && Done(instrs, p, l, i + 1) && Reached(instrs, levels, x, p) ensures marks'[p] {
      if p != i {
        assert Done(instrs, p, l, i);
      }
    }
  }

  /** The marks after visiting instruction i, whose selected edge leads to
      next: a marked instruction marks its successor. */
  function Visit(marks: seq<bool>, i: nat, next: Link): (r: seq<bool>)
    requires i < |marks|
    ensures |r| == |marks| && forall k :: 0 <= k < |marks| && marks[k] ==> r[k]
  {
    if marks[i] && next.At? && next.index < |marks| then marks[next.index := true] else marks
  }

  /** Visiting instruction i of level l when it does not fail. */
  lemma VisitStep(instrs: seq<Instr>, levels: seq<Level>, levelStart: seq<nat>, x: seq<bool>, marks: seq<bool>,
                  l: nat, i: nat)
    requires RowsOk(levels, levelStart) && RangesOk(instrs, levels) && Owned(instrs, levels) && Downward(instrs, levels)
    requires Covers(instrs, levels, x) && l < |levels| && levels[l].first <= i < levels[l].last
    requires MarkState(instrs, levels, x, marks, l, i)
    requires levels[l].prev == NoLevel ==> marks[levels[l].first]
    requires !(marks[i] && Selected(instrs, levels, x, i) == Terminal0)
    ensures MarkState(instrs, levels, x, Visit(marks, i, Selected(instrs, levels, x, i)), l, i + 1)
    ensures levels[l].prev == NoLevel ==> Visit(marks, i, Selected(instrs, levels, x, i))[levels[l].first]
  {
    assert SuccOk(instrs, levels, i, instrs[i].low) && SuccOk(instrs, levels, i, instrs[i].high);
    if marks[i] && Selected(instrs, levels, x, i).At? {
      VisitMark(instrs, levels, x, marks, l, i);
    } else {
      VisitSkip(instrs, levels, levelStart, x, marks, l, i);
    }
  }

  /** Entering level l: its head, if any, is marked; nothing of l has been
      visited yet. */
  lemma EnterLevel(instrs: seq<Instr>, levels: seq<Level>, x: seq<bool>, marks: seq<bool>, l: nat)
    requires RangesOk(instrs, levels) && Owned(instrs, levels) && Downward(instrs, levels) && Covers(instrs, levels, x)
    requires l < |levels| && MarkState(instrs, levels, x, marks, l, 0)
    ensures levels[l].prev == NoLevel ==> MarkState(instrs, levels, x, marks[levels[l].first := true], l, levels[l].first)
    ensures levels[l].prev != NoLevel ==> MarkState(instrs, levels, x, marks, l, levels[l].first)
  {
    forall p | 0 <= p < |instrs| ensures Done(instrs, p, l, levels[l].first) == Done(instrs, p, l, 0) {
      InRange(instrs, levels, l, p);
    }
    if levels[l].prev == NoLevel {
      assert IsRoot(instrs, levels, levels[l].first);
    }
  }

  /** Leaving level l: all of it has been visited. */
  lemma LeaveLevel(instrs: seq<Instr>, levels: seq<Level>, x: seq<bool>, marks: seq<bool>, l: nat)
    requires RangesOk(instrs, levels) && Owned(instrs, levels) && Downward(instrs, levels) && Covers(instrs, levels, x)
    requires l < |levels| && MarkState(instrs, levels, x, marks, l, levels[l].last)
    ensures MarkState(instrs, levels, x, marks, l + 1, 0)
  {
    forall p | 0 <= p < |instrs| ensures Done(instrs, p, l, levels[l].last) == Done(instrs, p, l + 1, 0) {
      InRange(instrs, levels, l, p);
    }
  }

  /** One level of the walk (lines 552-572): mark the level's root when the
      level heads its chain, then visit its instructions in order with the
      bit val of the level's variable. */
  method VisitLevel(instrs: seq<Instr>, levels: seq<Level>, levelStart: seq<nat>, x: seq<bool>, marks: seq<bool>,
                    l: nat, val: bool)
    returns (ok: bool, marks': seq<bool>)
    requires RowsOk(levels, levelStart) && RangesOk(instrs, levels) && Owned(instrs, levels) && Downward(instrs, levels)
    requires Covers(instrs, levels, x) && l < |levels| && levels[l].variable < |x| && val == x[levels[l].variable]
    requires MarkState(instrs, levels, x, marks, l, 0)
    ensures ok ==> MarkState(instrs, levels, x, marks', l + 1, 0)
    ensures !ok ==> !Feasible(instrs, levels, x)
  {
    EnterLevel(instrs, levels, x, marks, l);
    marks' := marks;
    if levels[l].prev == NoLevel {
      marks' := marks'[levels[l].first := true];
    }
    var i := levels[l].first;
    while i < levels[l].last
      invariant levels[l].first <= i <= levels[l].last && MarkState(instrs, levels, x, marks', l, i)
      invariant levels[l].prev == NoLevel ==> marks'[levels[l].first]
    {
      var next := if val == false then instrs[i].low else instrs[i].high;
      assert next == Selected(instrs, levels, x, i);
      if marks'[i] && next == Terminal0 {
        VisitFail(instrs, levels, x, marks', l, i);
        return false, marks';
      }
      VisitStep(instrs, levels, levelStart, x, marks', l, i);
      marks' := Visit(marks', i, next);
      i := i + 1;
    }
    LeaveLevel(instrs, levels, x, marks', l);
    ok := true;
  }

  /** check_feasibility (lines 541-577): visit the variables in order and,
      at each, the levels of its BDDs: mark the root of a level that heads
      its chain, and let each marked instruction mark the instruction its
      bit selects, failing at the false terminal. */
  method CheckFeasibility(instrs: seq<Instr>, levels: seq<Level>, levelStart: seq<nat>, x: seq<bool>) returns (ok: bool)
    requires RowsOk(levels, levelStart) && RangesOk(instrs, levels) && Owned(instrs, levels) && Downward(instrs, levels)
    requires |x| == NrVars(levelStart)
    ensures Covers(instrs, levels, x)
    ensures ok <==> Feasible(instrs, levels, x)
  {
    forall k | 0 <= k < |instrs| ensures VarOf(instrs, levels, k) < |x| {
      VarBelow(instrs, levels, levelStart, k);
    }
    var marks := seq(|instrs|, _ => false);
    var v := 0;
    while v < |x|
      invariant v <= |x| && MarkState(instrs, levels, x, marks, levelStart[v], 0)
    {
      var val := x[v];
      var l := levelStart[v];
      while l < levelStart[v + 1]
        invariant levelStart[v] <= l <= levelStart[v + 1] && MarkState(instrs, levels, x, marks, l, 0)
      {
        ok, marks := VisitLevel(instrs, levels, levelStart, x, marks, l, val);
        if !ok {
          return false;
        }
        l := l + 1;
      }
      v := v + 1;
    }
    forall p | 0 <= p < |instrs| ensures Done(instrs, p, |levels|, 0) {
    }
    ok := true;
  }

  // ----- evaluate -----

  /** Σ x_v · costs_v over the first n variables, added in order. */
  function AssignmentCost(x: seq<bool>, costs: seq<real>, n: nat): real
    requires n <= |x| && n <= |costs|
  {
    if n == 0 then 0.0 else AssignmentCost(x, costs, n - 1) + (if x[n - 1] then costs[n - 1] else 0.0)
  }

  /** evaluate (lines 580-593): infinity for an infeasible assignment,
      otherwise the sum of the costs of the variables set to 1. */
  method Evaluate(instrs: seq<Instr>, levels: seq<Level>, levelStart: seq<nat>, costs: seq<real>, x: seq<bool>)
    returns (r: ExtReal)
    requires RowsOk(levels, levelStart) && RangesOk(instrs, levels) && Owned(instrs, levels) && Downward(instrs, levels)
    requires |x| == NrVars(levelStart) && |costs| == |x|
    ensures Covers(instrs, levels, x)
    ensures !Feasible(instrs, levels, x) ==> r == Infinity
    ensures Feasible(instrs, levels, x) ==> r == Finite(AssignmentCost(x, costs, |x|))
  {
    var feasible := CheckFeasibility(instrs, levels, levelStart, x);
    if !feasible {
      return Infinity;
    }
    var cost := 0.0;
    var v := 0;
    while v < |x|
      invariant v <= |x| && cost == AssignmentCost(x, costs, v)
    {
      cost := cost + (if x[v] then costs[v] else 0.0);
      v := v + 1;
    }
    r := Finite(cost);
  }
}
