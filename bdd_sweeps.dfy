/** The dynamic-programming sweeps of include/bdd/bdd_min_marginal_averaging.h
    over a built instruction array (lines 115-163, 382-416). Each instruction
    has a forward cost (the cheapest way to reach it from its BDD's root) and
    a backward cost m (the cheapest way from it to the true terminal); a
    level step recomputes one of them for every instruction of one level, a
    variable step does so for every BDD at one variable, and a run does so
    for every variable in increasing (forward) or decreasing (backward)
    order. The per-instruction recurrences live in bdd_branch_instruction.h,
    which is not part of this model; they are the two small definitions
    ForwardValue and BackwardValue below. */
module BddSweeps {
  import opened ExtendedReals
  import opened BddStorage
  import opened BddInstructions

  // ----- rows of the level table -----

  /** Some row of a table with these offsets holds level index l. */
  lemma {:induction false} FindRow(levelStart: seq<nat>, l: nat, v: nat)
    requires 1 <= |levelStart| && v < |levelStart| - 1
    requires forall u, w :: 0 <= u <= w < |levelStart| ==> levelStart[u] <= levelStart[w]
    requires levelStart[v] <= l < levelStart[|levelStart| - 1]
    ensures exists u :: v <= u < |levelStart| - 1 && levelStart[u] <= l < levelStart[u + 1]
    decreases |levelStart| - v
  {
    if l >= levelStart[v + 1] {
      FindRow(levelStart, l, v + 1);
    }
  }

  /** A level lies in the row of its own variable. */
  lemma LevelRow(levels: seq<Level>, levelStart: seq<nat>, l: nat)
    requires RowsOk(levels, levelStart) && l < |levels|
    ensures levels[l].variable + 1 < |levelStart|
    ensures levelStart[levels[l].variable] <= l < levelStart[levels[l].variable + 1]
  {
    FindRow(levelStart, l, 0);
  }

  /** The number of variables of a level table. */
  function NrVars(levelStart: seq<nat>): nat
    requires |levelStart| >= 1
  {
    |levelStart| - 1
  }

  /** Every instruction's variable is one of the table's variables. */
  lemma VarBelow(instrs: seq<Instr>, levels: seq<Level>, levelStart: seq<nat>, i: nat)
    requires RowsOk(levels, levelStart) && Owned(instrs, levels) && i < |instrs|
    ensures VarOf(instrs, levels, i) < NrVars(levelStart)
  {
    LevelRow(levels, levelStart, instrs[i].level.index);
  }

  /** The level an instruction belongs to. */
  function LevelOfInstr(instrs: seq<Instr>, i: nat): nat
    requires i < |instrs| && instrs[i].level.LevelAt?
  {
    instrs[i].level.index
  }

  /** Instruction i is in the range of level l exactly when it refers to l. */
  lemma InRange(instrs: seq<Instr>, levels: seq<Level>, l: nat, i: nat)
    requires RangesOk(instrs, levels) && Owned(instrs, levels) && l < |levels| && i < |instrs|
    ensures levels[l].first <= i < levels[l].last <==> LevelOfInstr(instrs, i) == l
  {
  }

  // ----- the per-instruction recurrences -----

  /** The backward cost of a successor: 0 at the true terminal, infinity at
      the false one. */
  function SuccCost(m: seq<ExtReal>, c: Link): ExtReal
    requires c.At? ==> c.index < |m|
  {
    match c
    case Terminal1 => Finite(0.0)
    case At(k) => m[k]
    case _ => Infinity
  }

  /** Backward step of instruction i: the cheaper of its low branch and its
      high branch plus its level's cost. */
  function BackwardValue(instrs: seq<Instr>, levels: seq<Level>, m: seq<ExtReal>, i: nat): ExtReal
    requires Owned(instrs, levels) && Downward(instrs, levels) && |m| == |instrs| && i < |instrs|
  {
    Min(SuccCost(m, instrs[i].low), Add(SuccCost(m, instrs[i].high), CostOf(instrs, levels, i)))
  }

  /** The cheapest forward cost among the members of a low-incoming list. */
  function LowInMin(instrs: seq<Instr>, ghost rank: seq<nat>, fwd: seq<ExtReal>, c: Link): ExtReal
    requires IncomingOk(instrs, rank) && |fwd| == |instrs|
    requires c.Null? || (c.At? && c.index < |instrs|)
    decreases if c.At? then rank[c.index] + 1 else 0
  {
    if c.At? then Min(fwd[c.index], LowInMin(instrs, rank, fwd, instrs[c.index].nextLowIn)) else Infinity
  }

  /** The cheapest forward cost plus own level cost among the members of a
      high-incoming list. */
  function HighInMin(instrs: seq<Instr>, levels: seq<Level>, ghost rank: seq<nat>, fwd: seq<ExtReal>, c: Link): ExtReal
    requires Owned(instrs, levels) && IncomingOk(instrs, rank) && |fwd| == |instrs|
    requires c.Null? || (c.At? && c.index < |instrs|)
    decreases if c.At? then rank[c.index] + 1 else 0
  {
    if c.At? then
      Min(Add(fwd[c.index], CostOf(instrs, levels, c.index)), HighInMin(instrs, levels, rank, fwd, instrs[c.index].nextHighIn))
    else Infinity
  }

  /** Forward step of instruction i: 0 without predecessors (the root),
      otherwise the cheapest way in over a low or a high edge. */
  function ForwardValue(instrs: seq<Instr>, levels: seq<Level>, ghost rank: seq<nat>, fwd: seq<ExtReal>, i: nat): ExtReal
    requires Owned(instrs, levels) && IncomingOk(instrs, rank) && |fwd| == |instrs| && i < |instrs|
  {
    if instrs[i].firstLowIn.Null? && instrs[i].firstHighIn.Null? then Finite(0.0)
    else Min(LowInMin(instrs, rank, fwd, instrs[i].firstLowIn), HighInMin(instrs, levels, rank, fwd, instrs[i].firstHighIn))
  }

  // ----- what the recurrences read -----

  /** Backward step i reads its own level's cost and the backward costs of
      its successors, which sit at later variables: changing other level
      costs, or backward costs at variables up to i's own, leaves it alone. */
  lemma BackwardFrame(instrs: seq<Instr>, levels: seq<Level>, levels': seq<Level>, m: seq<ExtReal>, m': seq<ExtReal>, i: nat)
    requires Owned(instrs, levels) && Downward(instrs, levels) && Owned(instrs, levels') && Downward(instrs, levels')
    requires SameShape(levels, levels') && |m| == |instrs| && |m'| == |instrs| && i < |instrs|
    requires CostOf(instrs, levels', i) == CostOf(instrs, levels, i)
    requires forall k :: 0 <= k < |instrs| && VarOf(instrs, levels, k) > VarOf(instrs, levels, i) ==> m'[k] == m[k]
    ensures BackwardValue(instrs, levels', m', i) == BackwardValue(instrs, levels, m, i)
  {
    assert SuccOk(instrs, levels, i, instrs[i].low) && SuccOk(instrs, levels, i, instrs[i].high);
  }

  /** The members of s's low-incoming list are predecessors of s, so they
      sit at earlier variables. */
  lemma {:induction false} LowInFrame(instrs: seq<Instr>, levels: seq<Level>, rank: seq<nat>,
                                      fwd: seq<ExtReal>, fwd': seq<ExtReal>, c: Link, s: nat)
    requires Owned(instrs, levels) && Downward(instrs, levels) && IncomingOk(instrs, rank)
    requires |fwd| == |instrs| && |fwd'| == |instrs| && s < |instrs| && LowListLink(instrs, c, At(s))
    requires forall k :: 0 <= k < |instrs| && VarOf(instrs, levels, k) < VarOf(instrs, levels, s) ==> fwd'[k] == fwd[k]
    ensures LowInMin(instrs, rank, fwd', c) == LowInMin(instrs, rank, fwd, c)
    decreases if c.At? then rank[c.index] + 1 else 0
  {
    if c.At? {
      var p := c.index;
      assert SuccOk(instrs, levels, p, instrs[p].low);
      LowInFrame(instrs, levels, rank, fwd, fwd', instrs[p].nextLowIn, s);
    }
  }

  lemma {:induction false} HighInFrame(instrs: seq<Instr>, levels: seq<Level>, levels': seq<Level>, rank: seq<nat>,
                                       fwd: seq<ExtReal>, fwd': seq<ExtReal>, c: Link, s: nat)
    requires Owned(instrs, levels) && Downward(instrs, levels) && Owned(instrs, levels') && IncomingOk(instrs, rank)
    requires SameShape(levels, levels')
    requires |fwd| == |instrs| && |fwd'| == |instrs| && s < |instrs| && HighListLink(instrs, c, At(s))
    requires forall k :: 0 <= k < |instrs| && VarOf(instrs, levels, k) < VarOf(instrs, levels, s) ==>
               fwd'[k] == fwd[k] && CostOf(instrs, levels', k) == CostOf(instrs, levels, k)
    ensures HighInMin(instrs, levels', rank, fwd', c) == HighInMin(instrs, levels, rank, fwd, c)
    decreases if c.At? then rank[c.index] + 1 else 0
  {
    if c.At? {
      var p := c.index;
      assert SuccOk(instrs, levels, p, instrs[p].high);
      HighInFrame(instrs, levels, levels', rank, fwd, fwd', instrs[p].nextHighIn, s);
    }
  }

  /** Forward step i reads the forward costs and level costs of its
      predecessors, which sit at earlier variables: changing them from i's
      variable on leaves it alone. */
  lemma ForwardFrame(instrs: seq<Instr>, levels: seq<Level>, levels': seq<Level>, rank: seq<nat>,
                     fwd: seq<ExtReal>, fwd': seq<ExtReal>, i: nat)
    requires Owned(instrs, levels) && Downward(instrs, levels) && Owned(instrs, levels') && IncomingOk(instrs, rank)
    requires SameShape(levels, levels') && |fwd| == |instrs| && |fwd'| == |instrs| && i < |instrs|
    requires forall k :: 0 <= k < |instrs| && VarOf(instrs, levels, k) < VarOf(instrs, levels, i) ==>
               fwd'[k] == fwd[k] && CostOf(instrs, levels', k) == CostOf(instrs, levels, k)
    ensures ForwardValue(instrs, levels', rank, fwd', i) == ForwardValue(instrs, levels, rank, fwd, i)
  {
    LowInFrame(instrs, levels, rank, fwd, fwd', instrs[i].firstLowIn, i);
    HighInFrame(instrs, levels, levels', rank, fwd, fwd', instrs[i].firstHighIn, i);
  }

  // ----- level steps -----

  /** backward_step(var, bdd_index) (lines 139-156): the backward step of
      every instruction of level l, in order; since no instruction of the
      level is a successor of another, the result is the step applied to the
      state before, and nothing outside the level changes. */
  method BackwardLevel(instrs: seq<Instr>, levels: seq<Level>, m: seq<ExtReal>, l: nat) returns (m': seq<ExtReal>)
    requires RangesOk(instrs, levels) && Owned(instrs, levels) && Downward(instrs, levels)
    requires |m| == |instrs| && l < |levels|
    ensures |m'| == |m|
    ensures forall i :: levels[l].first <= i < levels[l].last ==> m'[i] == BackwardValue(instrs, levels, m, i)
    ensures forall i :: 0 <= i < |m| && !(levels[l].first <= i < levels[l].last) ==> m'[i] == m[i]
  {
    m' := m;
    var i := levels[l].first;
    while i < levels[l].last
      invariant levels[l].first <= i <= levels[l].last && |m'| == |m|
      invariant forall j :: levels[l].first <= j < i ==> m'[j] == BackwardValue(instrs, levels, m, j)
      invariant forall j :: 0 <= j < |m| && !(levels[l].first <= j < i) ==> m'[j] == m[j]
    {
      BackwardFrame(instrs, levels, levels, m, m', i);
      m' := m'[i := BackwardValue(instrs, levels, m', i)];
      i := i + 1;
    }
  }

  /** forward_step(var, bdd_index) (lines 115-130), the same for forward
      costs: predecessors sit at earlier variables, outside the level. */
  method ForwardLevel(instrs: seq<Instr>, levels: seq<Level>, ghost rank: seq<nat>, fwd: seq<ExtReal>, l: nat)
    returns (fwd': seq<ExtReal>)
    requires RangesOk(instrs, levels) && Owned(instrs, levels) && Downward(instrs, levels) && IncomingOk(instrs, rank)
    requires |fwd| == |instrs| && l < |levels|
    ensures |fwd'| == |fwd|
    ensures forall i :: levels[l].first <= i < levels[l].last ==> fwd'[i] == ForwardValue(instrs, levels, rank, fwd, i)
    ensures forall i :: 0 <= i < |fwd| && !(levels[l].first <= i < levels[l].last) ==> fwd'[i] == fwd[i]
  {
    fwd' := fwd;
    var i := levels[l].first;
    while i < levels[l].last
      invariant levels[l].first <= i <= levels[l].last && |fwd'| == |fwd|
      invariant forall j :: levels[l].first <= j < i ==> fwd'[j] == ForwardValue(instrs, levels, rank, fwd, j)
      invariant forall j :: 0 <= j < |fwd| && !(levels[l].first <= j < i) ==> fwd'[j] == fwd[j]
    {
      ForwardFrame(instrs, levels, levels, rank, fwd, fwd', i);
      fwd' := fwd'[i := ForwardValue(instrs, levels, rank, fwd', i)];
      i := i + 1;
    }
  }

  // ----- variable steps and runs -----

  /** Every instruction's backward cost agrees with its backward step: the
      state a backward run leaves. */
  ghost predicate BackwardConsistent(instrs: seq<Instr>, levels: seq<Level>, m: seq<ExtReal>)
    requires Owned(instrs, levels) && Downward(instrs, levels)
  {
    |m| == |instrs| && forall i :: 0 <= i < |instrs| ==> m[i] == BackwardValue(instrs, levels, m, i)
  }

  ghost predicate ForwardConsistent(instrs: seq<Instr>, levels: seq<Level>, rank: seq<nat>, fwd: seq<ExtReal>)
    requires Owned(instrs, levels) && IncomingOk(instrs, rank)
  {
    |fwd| == |instrs| && forall i :: 0 <= i < |instrs| ==> fwd[i] == ForwardValue(instrs, levels, rank, fwd, i)
  }

  /** An instruction has variable v exactly when its level lies in row v. */
  lemma InRow(instrs: seq<Instr>, levels: seq<Level>, levelStart: seq<nat>, v: nat, i: nat)
    requires RowsOk(levels, levelStart) && Owned(instrs, levels) && v + 1 < |levelStart| && i < |instrs|
    ensures VarOf(instrs, levels, i) == v <==> levelStart[v] <= LevelOfInstr(instrs, i) < levelStart[v + 1]
  {
    LevelRow(levels, levelStart, instrs[i].level.index);
  }

  /** backward_step(var) (lines 158-163): the level steps of every BDD at v,
      which together apply the backward step to each instruction of v. */
  method BackwardVar(instrs: seq<Instr>, levels: seq<Level>, levelStart: seq<nat>, m: seq<ExtReal>, v: nat)
    returns (m': seq<ExtReal>)
    requires RowsOk(levels, levelStart) && RangesOk(instrs, levels) && Owned(instrs, levels) && Downward(instrs, levels)
    requires |m| == |instrs| && v < NrVars(levelStart)
    ensures |m'| == |m|
    ensures forall i :: 0 <= i < |m| && VarOf(instrs, levels, i) == v ==> m'[i] == BackwardValue(instrs, levels, m, i)
    ensures forall i :: 0 <= i < |m| && VarOf(instrs, levels, i) != v ==> m'[i] == m[i]
  {
    m' := m;
    var l := levelStart[v];
    while l < levelStart[v + 1]
      invariant levelStart[v] <= l <= levelStart[v + 1] && |m'| == |m|
      invariant forall i :: 0 <= i < |m| && levelStart[v] <= LevelOfInstr(instrs, i) < l ==>
                  m'[i] == BackwardValue(instrs, levels, m, i)
      invariant forall i :: 0 <= i < |m| && !(levelStart[v] <= LevelOfInstr(instrs, i) < l) ==> m'[i] == m[i]
    {
      var m'' := BackwardLevel(instrs, levels, m', l);
      forall i | 0 <= i < |m| && LevelOfInstr(instrs, i) == l
        ensures m''[i] == BackwardValue(instrs, levels, m, i)
      {
        InRange(instrs, levels, l, i);
        BackwardFrame(instrs, levels, levels, m, m', i);
      }
      forall i | 0 <= i < |m| && LevelOfInstr(instrs, i) != l
        ensures m''[i] == m'[i]
      {
        InRange(instrs, levels, l, i);
      }
      m' := m'';
      l := l + 1;
    }
    forall i | 0 <= i < |m| {
      InRow(instrs, levels, levelStart, v, i);
    }
  }

  /** forward_step(var) (lines 132-137), the same for forward costs. */
  method ForwardVar(instrs: seq<Instr>, levels: seq<Level>, levelStart: seq<nat>, ghost rank: seq<nat>,
                    fwd: seq<ExtReal>, v: nat)
    returns (fwd': seq<ExtReal>)
    requires RowsOk(levels, levelStart) && RangesOk(instrs, levels) && Owned(instrs, levels) && Downward(instrs, levels)
    requires IncomingOk(instrs, rank) && |fwd| == |instrs| && v < NrVars(levelStart)
    ensures |fwd'| == |fwd|
    ensures forall i :: 0 <= i < |fwd| && VarOf(instrs, levels, i) == v ==>
              fwd'[i] == ForwardValue(instrs, levels, rank, fwd, i)
    ensures forall i :: 0 <= i < |fwd| && VarOf(instrs, levels, i) != v ==> fwd'[i] == fwd[i]
  {
    fwd' := fwd;
    var l := levelStart[v];
    while l < levelStart[v + 1]
      invariant levelStart[v] <= l <= levelStart[v + 1] && |fwd'| == |fwd|
      invariant forall i :: 0 <= i < |fwd| && levelStart[v] <= LevelOfInstr(instrs, i) < l ==>
                  fwd'[i] == ForwardValue(instrs, levels, rank, fwd, i)
      invariant forall i :: 0 <= i < |fwd| && !(levelStart[v] <= LevelOfInstr(instrs, i) < l) ==> fwd'[i] == fwd[i]
    {
      var fwd'' := ForwardLevel(instrs, levels, rank, fwd', l);
      forall i | 0 <= i < |fwd| && LevelOfInstr(instrs, i) == l
        ensures fwd''[i] == ForwardValue(instrs, levels, rank, fwd, i)
      {
        InRange(instrs, levels, l, i);
        ForwardFrame(instrs, levels, levels, rank, fwd, fwd', i);
      }
      forall i | 0 <= i < |fwd| && LevelOfInstr(instrs, i) != l
        ensures fwd''[i] == fwd'[i]
      {
        InRange(instrs, levels, l, i);
      }
      fwd' := fwd'';
      l := l + 1;
    }
    forall i | 0 <= i < |fwd| {
      InRow(instrs, levels, levelStart, v, i);
    }
  }

  /** backward_run (lines 382-387): variables from the last down to the
      first; afterwards every backward cost agrees with its step. */
  method BackwardRun(instrs: seq<Instr>, levels: seq<Level>, levelStart: seq<nat>, m: seq<ExtReal>)
    returns (m': seq<ExtReal>)
    requires RowsOk(levels, levelStart) && RangesOk(instrs, levels) && Owned(instrs, levels) && Downward(instrs, levels)
    requires |m| == |instrs|
    ensures BackwardConsistent(instrs, levels, m')
  {
    m' := m;
    var v := NrVars(levelStart);
    forall i | 0 <= i < |instrs| {
      VarBelow(instrs, levels, levelStart, i);
    }
    while v > 0
      invariant v <= NrVars(levelStart) && |m'| == |instrs|
      invariant forall i :: 0 <= i < |instrs| && VarOf(instrs, levels, i) >= v ==>
                  m'[i] == BackwardValue(instrs, levels, m', i)
    {
      v := v - 1;
      var m'' := BackwardVar(instrs, levels, levelStart, m', v);
      forall i | 0 <= i < |instrs| && VarOf(instrs, levels, i) >= v
        ensures m''[i] == BackwardValue(instrs, levels, m'', i)
      {
        BackwardFrame(instrs, levels, levels, m', m'', i);
      }
      m' := m'';
    }
  }

  /** forward_run (lines 411-416): variables from the first up to the last. */
  method ForwardRun(instrs: seq<Instr>, levels: seq<Level>, levelStart: seq<nat>, ghost rank: seq<nat>, fwd: seq<ExtReal>)
    returns (fwd': seq<ExtReal>)
    requires RowsOk(levels, levelStart) && RangesOk(instrs, levels) && Owned(instrs, levels) && Downward(instrs, levels)
    requires IncomingOk(instrs, rank) && |fwd| == |instrs|
    ensures ForwardConsistent(instrs, levels, rank, fwd')
  {
    fwd' := fwd;
    var v := 0;
    while v < NrVars(levelStart)
      invariant v <= NrVars(levelStart) && |fwd'| == |instrs|
      invariant forall i :: 0 <= i < |instrs| && VarOf(instrs, levels, i) < v ==>
                  fwd'[i] == ForwardValue(instrs, levels, rank, fwd', i)
    {
      var fwd'' := ForwardVar(instrs, levels, levelStart, rank, fwd', v);
      forall i | 0 <= i < |instrs| && VarOf(instrs, levels, i) <= v
        ensures fwd''[i] == ForwardValue(instrs, levels, rank, fwd'', i)
      {
        ForwardFrame(instrs, levels, levels, rank, fwd', fwd'', i);
      }
      fwd' := fwd'';
      v := v + 1;
    }
    forall i | 0 <= i < |instrs| {
      VarBelow(instrs, levels, levelStart, i);
    }
  }
}
