/** The linearised BDDs of include/bdd/bdd_min_marginal_averaging.h: one array
    of branch instructions and one table of levels. Pointers of the original
    become indices: an instruction refers to its level (whose `cost` is the
    shared `variable_cost` it points at), to its low and high successors and
    to the heads and links of its two incoming lists; a level refers to the
    previous and next level of the same BDD. */
module BddInstructions {
  import opened ExtendedReals
  import opened BddStorage

  datatype LevelLink = NoLevel | LevelAt(index: nat)

  /** bdd_branch_instruction_level: the range [first, last) of its
      instructions, the shared cost and the chain links; the variable whose
      row of the table holds it is kept with it. */
  datatype Level = Level(variable: nat, first: nat, last: nat, cost: ExtReal, prev: LevelLink, next: LevelLink)

  /** std::numeric_limits<std::size_t>::max(), the unset range bound. */
  const SizeMax: nat := 0xFFFF_FFFF_FFFF_FFFF

  /** A default-constructed level of row v. */
  function InitialLevel(v: nat): Level
  {
    Level(v, SizeMax, SizeMax, Infinity, NoLevel, NoLevel)
  }

  /** is_initial_state: equal, field by field, to a default level. */
  predicate IsInitialState(lv: Level)
  {
    lv.first == SizeMax && lv.last == SizeMax && lv.cost == Infinity && lv.prev == NoLevel && lv.next == NoLevel
  }

  /** bdd_branch_instruction: owning level, outgoing links and incoming
      lists. Its two sweep values (the forward cost and the backward cost m)
      are kept in two sequences parallel to the instruction array. */
  datatype Instr = Instr(level: LevelLink, low: Link, high: Link,
                         firstLowIn: Link, nextLowIn: Link, firstHighIn: Link, nextHighIn: Link)

  /** An instruction slot before the builder writes it. */
  const Blank: Instr := Instr(NoLevel, Null, Null, Null, Null, Null, Null)

  // ----- the structural invariant of a built instruction array -----

  /** The row offsets of the level table (a two_dim_variable_array): row v
      holds levels levelStart[v] .. levelStart[v + 1] - 1, all of variable v. */
  ghost predicate RowsOk(levels: seq<Level>, levelStart: seq<nat>)
  {
    |levelStart| >= 1 && levelStart[0] == 0 && levelStart[|levelStart| - 1] == |levels| &&
    (forall u, v :: 0 <= u <= v < |levelStart| ==> levelStart[u] <= levelStart[v]) &&
    (forall v, l :: 0 <= v < |levelStart| - 1 && levelStart[v] <= l < levelStart[v + 1] ==> levels[l].variable == v)
  }

  /** Every level is a non-empty range of the array, and each instruction in
      it refers to the level's shared cost. */
  ghost predicate RangesOk(instrs: seq<Instr>, levels: seq<Level>)
  {
    forall l :: 0 <= l < |levels| ==>
      levels[l].first < levels[l].last <= |instrs| &&
      forall i :: levels[l].first <= i < levels[l].last ==> instrs[i].level == LevelAt(l)
  }

  /** Every instruction lies in the range of the level it refers to. */
  ghost predicate Owned(instrs: seq<Instr>, levels: seq<Level>)
  {
    forall i :: 0 <= i < |instrs| ==>
      instrs[i].level.LevelAt? && instrs[i].level.index < |levels| &&
      levels[instrs[i].level.index].first <= i < levels[instrs[i].level.index].last
  }

  /** The variable of instruction i. */
  function VarOf(instrs: seq<Instr>, levels: seq<Level>, i: nat): nat
    requires Owned(instrs, levels) && i < |instrs|
  {
    levels[instrs[i].level.index].variable
  }

  /** The shared cost instruction i refers to. */
  function CostOf(instrs: seq<Instr>, levels: seq<Level>, i: nat): ExtReal
    requires Owned(instrs, levels) && i < |instrs|
  {
    levels[instrs[i].level.index].cost
  }

  /** A successor of i: a terminal or an instruction at a later variable. */
  ghost predicate SuccOk(instrs: seq<Instr>, levels: seq<Level>, i: nat, c: Link)
    requires Owned(instrs, levels) && i < |instrs|
  {
    c.Terminal0? || c.Terminal1? ||
    (c.At? && c.index < |instrs| && VarOf(instrs, levels, c.index) > VarOf(instrs, levels, i))
  }

  ghost predicate Downward(instrs: seq<Instr>, levels: seq<Level>)
    requires Owned(instrs, levels)
  {
    forall i :: 0 <= i < |instrs| ==>
      SuccOk(instrs, levels, i, instrs[i].low) && SuccOk(instrs, levels, i, instrs[i].high)
  }

  /** A link in a low-incoming list: none, or an instruction whose low
      successor is target. */
  ghost predicate LowListLink(instrs: seq<Instr>, c: Link, target: Link)
  {
    c.Null? || (c.At? && c.index < |instrs| && instrs[c.index].low == target)
  }

  ghost predicate HighListLink(instrs: seq<Instr>, c: Link, target: Link)
  {
    c.Null? || (c.At? && c.index < |instrs| && instrs[c.index].high == target)
  }

  /** c is none or an instruction of rank below r. */
  ghost predicate RankBelow(rank: seq<nat>, c: Link, r: nat)
  {
    c.Null? || (c.At? && c.index < |rank| && rank[c.index] < r)
  }

  /** The incoming lists hold predecessors only, and each list visits
      instructions of strictly decreasing rank (the raw node order), so every
      walk along it ends. */
  ghost predicate IncomingOk(instrs: seq<Instr>, rank: seq<nat>)
  {
    |rank| == |instrs| &&
    forall s :: 0 <= s < |instrs| ==>
      LowListLink(instrs, instrs[s].firstLowIn, At(s)) &&
      LowListLink(instrs, instrs[s].nextLowIn, instrs[s].low) &&
      HighListLink(instrs, instrs[s].firstHighIn, At(s)) &&
      HighListLink(instrs, instrs[s].nextHighIn, instrs[s].high) &&
      RankBelow(rank, instrs[s].nextLowIn, rank[s]) && RankBelow(rank, instrs[s].nextHighIn, rank[s])
  }

  /** Chain links are mutual, and `next` leads to a later variable. */
  ghost predicate ChainOk(levels: seq<Level>)
  {
    forall l :: 0 <= l < |levels| ==>
      (levels[l].next.LevelAt? ==>
         levels[l].next.index < |levels| &&
         levels[levels[l].next.index].variable > levels[l].variable &&
         levels[levels[l].next.index].prev == LevelAt(l)) &&
      (levels[l].prev.LevelAt? ==>
         levels[l].prev.index < |levels| &&
         levels[levels[l].prev.index].variable < levels[l].variable &&
         levels[levels[l].prev.index].next == LevelAt(l))
  }

  /** A chain head (the first variable of its BDD) holds exactly one
      instruction, the BDD's root. */
  ghost predicate HeadsSingle(levels: seq<Level>)
  {
    forall l :: 0 <= l < |levels| && levels[l].prev == NoLevel ==> levels[l].last == levels[l].first + 1
  }

  ghost predicate Shaped(instrs: seq<Instr>, levels: seq<Level>, levelStart: seq<nat>, rank: seq<nat>)
  {
    RowsOk(levels, levelStart) && RangesOk(instrs, levels) && Owned(instrs, levels) &&
    Downward(instrs, levels) && IncomingOk(instrs, rank) && ChainOk(levels) && HeadsSingle(levels)
  }

  /** Two level tables that differ in costs only. */
  ghost predicate SameShape(levels: seq<Level>, levels': seq<Level>)
  {
    |levels'| == |levels| && forall l :: 0 <= l < |levels| ==> levels'[l].(cost := levels[l].cost) == levels[l]
  }

  lemma SameShapeKeeps(instrs: seq<Instr>, levels: seq<Level>, levels': seq<Level>, levelStart: seq<nat>, rank: seq<nat>)
    requires SameShape(levels, levels')
    ensures RowsOk(levels, levelStart) ==> RowsOk(levels', levelStart)
    ensures RangesOk(instrs, levels) ==> RangesOk(instrs, levels')
    ensures Owned(instrs, levels) ==>
              Owned(instrs, levels') && forall i :: 0 <= i < |instrs| ==> VarOf(instrs, levels', i) == VarOf(instrs, levels, i)
    ensures Owned(instrs, levels) && Downward(instrs, levels) ==> Downward(instrs, levels')
    ensures ChainOk(levels) ==> ChainOk(levels')
    ensures HeadsSingle(levels) ==> HeadsSingle(levels')
    ensures Shaped(instrs, levels, levelStart, rank) ==> Shaped(instrs, levels', levelStart, rank)
  {
    assert forall l :: 0 <= l < |levels| ==>
      levels'[l].variable == levels[l].variable && levels'[l].first == levels[l].first &&
      levels'[l].last == levels[l].last && levels'[l].prev == levels[l].prev && levels'[l].next == levels[l].next;
  }

  lemma ShapedKept(instrs: seq<Instr>, levels: seq<Level>, levels': seq<Level>, levelStart: seq<nat>, rank: seq<nat>)
    requires SameShape(levels, levels') && Shaped(instrs, levels, levelStart, rank)
    ensures Shaped(instrs, levels', levelStart, rank)
  {
    SameShapeKeeps(instrs, levels, levels', levelStart, rank);
  }

  lemma SameShapeTransitive(levels: seq<Level>, levels': seq<Level>, levels'': seq<Level>)
    requires SameShape(levels, levels') && SameShape(levels', levels'')
    ensures SameShape(levels, levels'')
  {
    forall l | 0 <= l < |levels| ensures levels''[l].(cost := levels[l].cost) == levels[l] {
      assert levels''[l].(cost := levels'[l].cost) == levels'[l];
    }
  }
}
