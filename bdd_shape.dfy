/** What init_branch_instructions of include/bdd/bdd_min_marginal_averaging.h
    leaves behind, once every node is placed: the level table is cut into rows
    by variable, each level owns a non-empty block of instructions that all
    refer to it, every instruction lies in its level's block, successors sit
    at later variables, the incoming lists hold only predecessors, in
    decreasing node order, the levels of each BDD form a two-way chain, and
    each chain head holds only the BDD's root. */
module BddShape {
  import opened ExtendedReals
  import opened BddStorage
  import opened BddInstructions
  import opened BddLayout

  /** The built instruction array and level table. */
  ghost function FinalInstrs(nodes: seq<RawNode>, delims: seq<nat>): (r: seq<Instr>)
    requires DelimitersOk(delims, |nodes|)
    ensures |r| == |nodes|
  {
    InstrsAfter(nodes, delims, |nodes|)
  }

  ghost function FinalLevels(nodes: seq<RawNode>, delims: seq<nat>, n: nat): (r: seq<Level>)
    requires DelimitersOk(delims, |nodes|)
    ensures |r| == LevelStart(nodes, delims, n)
  {
    LevelsAfter(nodes, delims, n, |nodes|)
  }

  /** The row offsets of the level table. */
  function LevelStarts(nodes: seq<RawNode>, delims: seq<nat>, n: nat): (r: seq<nat>)
    requires DelimitersOk(delims, |nodes|)
    ensures |r| == n + 1 && forall v :: 0 <= v <= n ==> r[v] == LevelStart(nodes, delims, v)
  {
    seq(n + 1, v requires 0 <= v <= n => LevelStart(nodes, delims, v))
  }

  /** Each slot ranked by the raw node written to it. */
  ghost function Ranks(nodes: seq<RawNode>, n: nat): (r: seq<nat>)
    requires VariablesBelow(nodes, n)
    ensures |r| == |nodes|
  {
    seq(|nodes|, s requires 0 <= s < |nodes| => SlotOwner(nodes, n, s))
  }

  // ----- the built table and array, one level or one node at a time -----

  /** BDD c's level at u once all nodes are placed. */
  lemma {:induction false} FinalLevelAt(nodes: seq<RawNode>, delims: seq<nat>, n: nat, c: nat, u: nat)
    requires WellFormed(nodes, delims, n) && c + 1 < |delims| && Touches(nodes, delims, c, u)
    ensures LevelOf(nodes, delims, c, u) < LevelStart(nodes, delims, n)
    ensures FinalLevels(nodes, delims, n)[LevelOf(nodes, delims, c, u)] ==
            ExpectedLevel(nodes, delims, n, c, u, delims[c + 1])
  {
    LevelsAfterAt(nodes, delims, n, |nodes|, c, u);
    assert delims[c + 1] <= delims[|delims| - 1];
    assert Clamp(delims, |nodes|, c) == delims[c + 1];
  }

  /** Node j's instruction once all nodes are placed. */
  lemma FinalInstrAt(nodes: seq<RawNode>, delims: seq<nat>, n: nat, j: nat)
    requires WellFormed(nodes, delims, n) && j < |nodes|
    ensures Slot(nodes, j) < |nodes|
    ensures FinalInstrs(nodes, delims)[Slot(nodes, j)] == ExpectedInstr(nodes, delims, |nodes|, j)
  {
    InstrsAt(nodes, delims, n, |nodes|);
    assert SlotClosed(nodes, delims, InstrsAfter(nodes, delims, |nodes|), |nodes|, j);
  }

  /** Node j lies in the run of its variable within its BDD. */
  lemma NodeInRun(nodes: seq<RawNode>, delims: seq<nat>, n: nat, j: nat, c: nat, u: nat)
    requires WellFormed(nodes, delims, n) && j < |nodes|
    requires c == BddOf(delims, |nodes|, j) && u == nodes[j].variable
    ensures Touches(nodes, delims, c, u)
    ensures RunStart(nodes, delims, n, c, u) <= j <= RunEnd(nodes, delims, n, c, u)
  {
    assert delims[c + 1] <= delims[|delims| - 1];
    VarsInMember(nodes, delims[c], delims[c + 1], j);
  }

  /** Node j's instruction refers to its BDD's level at its variable, and its
      slot lies in that level's block. */
  lemma SlotInLevel(nodes: seq<RawNode>, delims: seq<nat>, n: nat, j: nat)
    requires WellFormed(nodes, delims, n) && j < |nodes|
    ensures Touches(nodes, delims, BddOf(delims, |nodes|, j), nodes[j].variable)
    ensures var l := LevelOf(nodes, delims, BddOf(delims, |nodes|, j), nodes[j].variable);
      var ls := FinalLevels(nodes, delims, n);
      Slot(nodes, j) < |nodes| && l < |ls| &&
      FinalInstrs(nodes, delims)[Slot(nodes, j)].level == LevelAt(l) &&
      ls[l].variable == nodes[j].variable && ls[l].first <= Slot(nodes, j) < ls[l].last
  {
    var c, u := BddOf(delims, |nodes|, j), nodes[j].variable;
    NodeInRun(nodes, delims, n, j, c, u);
    FinalLevelAt(nodes, delims, n, c, u);
    FinalInstrAt(nodes, delims, n, j);
    var f := RunStart(nodes, delims, n, c, u);
    assert delims[c + 1] <= delims[|delims| - 1];
    CountMonotone(nodes, f, j, u);
    CountStrict(nodes, j, delims[c + 1]);
  }

  /** Slot k's owner of Slot(j) is j. */
  lemma OwnerOfSlot(nodes: seq<RawNode>, n: nat, j: nat)
    requires VariablesBelow(nodes, n) && j < |nodes|
    ensures Slot(nodes, j) < |nodes| && SlotOwner(nodes, n, Slot(nodes, j)) == j
  {
    SlotBounds(nodes, n, j);
    var k := SlotOwner(nodes, n, Slot(nodes, j));
    if k != j {
      SlotInjective(nodes, n, j, k);
    }
  }

  // ----- the level table -----

  /** Row v of the table holds only levels of variable v. */
  lemma RowMember(nodes: seq<RawNode>, delims: seq<nat>, n: nat, v: nat, l: nat)
    requires WellFormed(nodes, delims, n) && v < n
    requires LevelStart(nodes, delims, v) <= l < LevelStart(nodes, delims, v + 1)
    ensures l < |FinalLevels(nodes, delims, n)| && FinalLevels(nodes, delims, n)[l].variable == v
  {
    LevelStartMonotone(nodes, delims, v + 1, n);
    var (c, u) := LevelOwner(nodes, delims, n, l);
    LevelOfBounds(nodes, delims, c, u);
    if u < v {
      LevelStartMonotone(nodes, delims, u + 1, v);
    } else if v < u {
      LevelStartMonotone(nodes, delims, v + 1, u);
    }
    FinalLevelAt(nodes, delims, n, c, u);
  }

  lemma FinalRows(nodes: seq<RawNode>, delims: seq<nat>, n: nat)
    requires WellFormed(nodes, delims, n)
    ensures RowsOk(FinalLevels(nodes, delims, n), LevelStarts(nodes, delims, n))
  {
    var ls, st := FinalLevels(nodes, delims, n), LevelStarts(nodes, delims, n);
    forall u, v | 0 <= u <= v < |st| ensures st[u] <= st[v] {
      LevelStartMonotone(nodes, delims, u, v);
    }
    forall v, l | 0 <= v < |st| - 1 && st[v] <= l < st[v + 1] ensures ls[l].variable == v {
      RowMember(nodes, delims, n, v, l);
    }
  }

  // ----- each row tiles its variable's block of instructions -----

  /** A BDD without a node at u adds none to the count at u. */
  lemma CountUntouched(nodes: seq<RawNode>, delims: seq<nat>, b: nat, u: nat)
    requires DelimitersOk(delims, |nodes|) && b + 1 < |delims| && !Touches(nodes, delims, b, u)
    ensures delims[b] <= delims[b + 1] <= |nodes|
    ensures Count(nodes, delims[b + 1], u) == Count(nodes, delims[b], u)
  {
    assert delims[b] <= delims[b + 1] <= delims[|delims| - 1];
    forall k | delims[b] <= k < delims[b + 1] ensures nodes[k].variable != u {
      VarsInMember(nodes, delims[b], delims[b + 1], k);
    }
    CountSkip(nodes, delims[b], delims[b + 1], u);
  }

  /** BDDs b .. c - 1 without a node at u add none to the count at u. */
  lemma {:induction false} CountAcrossUntouched(nodes: seq<RawNode>, delims: seq<nat>, b: nat, c: nat, u: nat)
    requires DelimitersOk(delims, |nodes|) && b <= c < |delims|
    requires forall d :: b <= d < c ==> !Touches(nodes, delims, d, u)
    ensures delims[b] <= delims[c] <= |nodes|
    ensures Count(nodes, delims[c], u) == Count(nodes, delims[b], u)
    decreases c - b
  {
    assert delims[b] <= delims[c] <= delims[|delims| - 1];
    if b < c {
      CountAcrossUntouched(nodes, delims, b, c - 1, u);
      CountUntouched(nodes, delims, c - 1, u);
    }
  }

  /** With as many BDDs at u before c as before b, none of b .. c - 1 touches u. */
  lemma NoneTouchBetween(nodes: seq<RawNode>, delims: seq<nat>, b: nat, c: nat, u: nat)
    requires DelimitersOk(delims, |nodes|) && b <= c < |delims|
    requires BddsBefore(nodes, delims, b, u) == BddsBefore(nodes, delims, c, u)
    ensures forall d :: b <= d < c ==> !Touches(nodes, delims, d, u)
  {
    forall d | b <= d < c ensures !Touches(nodes, delims, d, u) {
      BddsBeforeMonotone(nodes, delims, b, d, u);
      BddsBeforeMonotone(nodes, delims, d, c, u);
    }
  }

  /** The block of BDD c's level at u: the nodes at u before c, up to those
      at u before the next BDD. */
  lemma FinalLevelBlock(nodes: seq<RawNode>, delims: seq<nat>, n: nat, c: nat, u: nat)
    requires WellFormed(nodes, delims, n) && c + 1 < |delims| && Touches(nodes, delims, c, u)
    ensures delims[c] <= delims[c + 1] <= |nodes|
    ensures var l := LevelOf(nodes, delims, c, u);
      var ls := FinalLevels(nodes, delims, n);
      l < |ls| && ls[l].first == Off(nodes, u) + Count(nodes, delims[c], u)
      && ls[l].last == Off(nodes, u) + Count(nodes, delims[c + 1], u)
  {
    assert delims[c + 1] <= delims[|delims| - 1];
    FinalLevelAt(nodes, delims, n, c, u);
    var f := RunStart(nodes, delims, n, c, u);
    CountSkip(nodes, delims[c], f, u);
  }

  /** The BDD whose level at v is level l of row v. */
  lemma RowOwner(nodes: seq<RawNode>, delims: seq<nat>, n: nat, v: nat, l: nat) returns (c: nat)
    requires WellFormed(nodes, delims, n) && v < n
    requires LevelStart(nodes, delims, v) <= l < LevelStart(nodes, delims, v + 1)
    ensures c + 1 < |delims| && Touches(nodes, delims, c, v) && LevelOf(nodes, delims, c, v) == l
  {
    c := NthBdd(nodes, delims, |delims| - 1, v, l - LevelStart(nodes, delims, v));
  }

  /** Off(v + 1) is Off(v) plus the number of nodes at v. */
  lemma OffNext(nodes: seq<RawNode>, v: nat)
    ensures Off(nodes, v + 1) == Off(nodes, v) + Count(nodes, |nodes|, v)
  {
  }

  /** An empty row belongs to a variable without nodes. */
  lemma RowEmpty(nodes: seq<RawNode>, delims: seq<nat>, n: nat, v: nat)
    requires WellFormed(nodes, delims, n) && v < n
    requires LevelStart(nodes, delims, v) == LevelStart(nodes, delims, v + 1)
    ensures Off(nodes, v) == Off(nodes, v + 1)
  {
    var e := |delims| - 1;
    NoneTouchBetween(nodes, delims, 0, e, v);
    CountAcrossUntouched(nodes, delims, 0, e, v);
    OffNext(nodes, v);
  }

  /** The first level of a non-empty row starts at Off(v). */
  lemma RowFirst(nodes: seq<RawNode>, delims: seq<nat>, n: nat, v: nat)
    requires WellFormed(nodes, delims, n) && v < n
    requires LevelStart(nodes, delims, v) < LevelStart(nodes, delims, v + 1)
    ensures var a := LevelStart(nodes, delims, v);
      a < |FinalLevels(nodes, delims, n)| && FinalLevels(nodes, delims, n)[a].first == Off(nodes, v)
  {
    var c := RowOwner(nodes, delims, n, v, LevelStart(nodes, delims, v));
    NoneTouchBetween(nodes, delims, 0, c, v);
    CountAcrossUntouched(nodes, delims, 0, c, v);
    FinalLevelBlock(nodes, delims, n, c, v);
  }

  /** The last level of a non-empty row ends at Off(v + 1). */
  lemma RowLast(nodes: seq<RawNode>, delims: seq<nat>, n: nat, v: nat)
    requires WellFormed(nodes, delims, n) && v < n
    requires LevelStart(nodes, delims, v) < LevelStart(nodes, delims, v + 1)
    ensures var z := LevelStart(nodes, delims, v + 1);
      z - 1 < |FinalLevels(nodes, delims, n)| && FinalLevels(nodes, delims, n)[z - 1].last == Off(nodes, v + 1)
  {
    var e := |delims| - 1;
    var c := RowOwner(nodes, delims, n, v, LevelStart(nodes, delims, v + 1) - 1);
    BddsBeforeMonotone(nodes, delims, c + 1, e, v);
    NoneTouchBetween(nodes, delims, c + 1, e, v);
    CountAcrossUntouched(nodes, delims, c + 1, e, v);
    FinalLevelBlock(nodes, delims, n, c, v);
    OffNext(nodes, v);
  }

  /** Within a row, each level ends where the next one starts. */
  lemma RowNext(nodes: seq<RawNode>, delims: seq<nat>, n: nat, v: nat, l: nat)
    requires WellFormed(nodes, delims, n) && v < n
    requires LevelStart(nodes, delims, v) <= l && l + 1 < LevelStart(nodes, delims, v + 1)
    ensures l + 1 < |FinalLevels(nodes, delims, n)|
    ensures FinalLevels(nodes, delims, n)[l].last == FinalLevels(nodes, delims, n)[l + 1].first
  {
    var c := RowOwner(nodes, delims, n, v, l);
    var d := RowOwner(nodes, delims, n, v, l + 1);
    if d <= c {
      BddsBeforeMonotone(nodes, delims, d, c, v);
    }
    BddsBeforeMonotone(nodes, delims, c + 1, d, v);
    NoneTouchBetween(nodes, delims, c + 1, d, v);
    CountAcrossUntouched(nodes, delims, c + 1, d, v);
    FinalLevelBlock(nodes, delims, n, c, v);
    FinalLevelBlock(nodes, delims, n, d, v);
  }

  /** Row v of the built table tiles the instructions of variable v: its
      first level starts at Off(v), each level ends where the next one
      starts, and its last level ends at Off(v + 1); an empty row belongs to
      a variable without instructions. */
  lemma RowTiles(nodes: seq<RawNode>, delims: seq<nat>, n: nat, v: nat)
    requires WellFormed(nodes, delims, n) && v < n
    ensures var ls, a, z := FinalLevels(nodes, delims, n), LevelStart(nodes, delims, v), LevelStart(nodes, delims, v + 1);
      a <= z <= |ls| &&
      (a == z ==> Off(nodes, v) == Off(nodes, v + 1)) &&
      (a < z ==> ls[a].first == Off(nodes, v) && ls[z - 1].last == Off(nodes, v + 1)) &&
      forall l :: a <= l && l + 1 < z ==> ls[l].last == ls[l + 1].first
  {
    var ls, a, z := FinalLevels(nodes, delims, n), LevelStart(nodes, delims, v), LevelStart(nodes, delims, v + 1);
    LevelStartMonotone(nodes, delims, v, v + 1);
    LevelStartMonotone(nodes, delims, v + 1, n);
    if a == z {
      RowEmpty(nodes, delims, n, v);
    } else {
      RowFirst(nodes, delims, n, v);
      RowLast(nodes, delims, n, v);
    }
    forall l | a <= l && l + 1 < z ensures ls[l].last == ls[l + 1].first {
      RowNext(nodes, delims, n, v, l);
    }
  }

  /** Slot t of level (c, u)'s block holds a node of c at u. */
  lemma BlockMember(nodes: seq<RawNode>, delims: seq<nat>, n: nat, c: nat, u: nat, t: nat)
    requires WellFormed(nodes, delims, n) && c + 1 < |delims| && Touches(nodes, delims, c, u)
    requires var l := LevelOf(nodes, delims, c, u);
      l < |FinalLevels(nodes, delims, n)| &&
      FinalLevels(nodes, delims, n)[l].first <= t < FinalLevels(nodes, delims, n)[l].last
    ensures t < |nodes| && FinalInstrs(nodes, delims)[t].level == LevelAt(LevelOf(nodes, delims, c, u))
  {
    FinalLevelAt(nodes, delims, n, c, u);
    var f, g := RunStart(nodes, delims, n, c, u), RunEnd(nodes, delims, n, c, u);
    var hi := delims[c + 1];
    assert hi <= delims[|delims| - 1];
    CountAcross(nodes, f, g + 1, u);
    CountSkip(nodes, g + 1, hi, u);
    var j := f + (t - (Off(nodes, u) + Count(nodes, f, u)));
    CountAcross(nodes, f, j, u);
    InBdd(nodes, delims, c, j);
    FinalInstrAt(nodes, delims, n, j);
  }

  /** Level (c, u) owns a non-empty block inside the array. */
  lemma BlockBounds(nodes: seq<RawNode>, delims: seq<nat>, n: nat, c: nat, u: nat)
    requires WellFormed(nodes, delims, n) && c + 1 < |delims| && Touches(nodes, delims, c, u)
    ensures var l := LevelOf(nodes, delims, c, u);
      l < |FinalLevels(nodes, delims, n)| &&
      FinalLevels(nodes, delims, n)[l].first < FinalLevels(nodes, delims, n)[l].last <= |nodes|
  {
    FinalLevelAt(nodes, delims, n, c, u);
    var f, g := RunStart(nodes, delims, n, c, u), RunEnd(nodes, delims, n, c, u);
    var hi := delims[c + 1];
    assert hi <= delims[|delims| - 1];
    CountAcross(nodes, f, g + 1, u);
    CountSkip(nodes, g + 1, hi, u);
    CountMonotone(nodes, hi, |nodes|, u);
    OffMonotone(nodes, u + 1, n);
    OffTotal(nodes, n);
  }

  lemma FinalRanges(nodes: seq<RawNode>, delims: seq<nat>, n: nat)
    requires WellFormed(nodes, delims, n)
    ensures RangesOk(FinalInstrs(nodes, delims), FinalLevels(nodes, delims, n))
  {
    var ins, ls := FinalInstrs(nodes, delims), FinalLevels(nodes, delims, n);
    forall l | 0 <= l < |ls|
      ensures ls[l].first < ls[l].last <= |ins|
      ensures forall t :: ls[l].first <= t < ls[l].last ==> ins[t].level == LevelAt(l)
    {
      var (c, u) := LevelOwner(nodes, delims, n, l);
      BlockBounds(nodes, delims, n, c, u);
      forall t | ls[l].first <= t < ls[l].last ensures ins[t].level == LevelAt(l) {
        BlockMember(nodes, delims, n, c, u, t);
      }
    }
  }

  lemma FinalOwned(nodes: seq<RawNode>, delims: seq<nat>, n: nat)
    requires WellFormed(nodes, delims, n)
    ensures Owned(FinalInstrs(nodes, delims), FinalLevels(nodes, delims, n))
  {
    var ins, ls := FinalInstrs(nodes, delims), FinalLevels(nodes, delims, n);
    forall s | 0 <= s < |ins|
      ensures ins[s].level.LevelAt? && ins[s].level.index < |ls| &&
              ls[ins[s].level.index].first <= s < ls[ins[s].level.index].last
    {
      SlotInLevel(nodes, delims, n, SlotOwner(nodes, n, s));
    }
  }

  /** The variable of node j's instruction is node j's variable. */
  lemma VarOfSlot(nodes: seq<RawNode>, delims: seq<nat>, n: nat, j: nat)
    requires WellFormed(nodes, delims, n) && j < |nodes|
    requires Owned(FinalInstrs(nodes, delims), FinalLevels(nodes, delims, n))
    ensures Slot(nodes, j) < |nodes|
    ensures VarOf(FinalInstrs(nodes, delims), FinalLevels(nodes, delims, n), Slot(nodes, j)) == nodes[j].variable
  {
    SlotInLevel(nodes, delims, n, j);
  }

  /** Node j's translated low or high child is a terminal or a later slot. */
  lemma SuccAt(nodes: seq<RawNode>, delims: seq<nat>, n: nat, j: nat, child: Link)
    requires WellFormed(nodes, delims, n) && j < |nodes|
    requires Owned(FinalInstrs(nodes, delims), FinalLevels(nodes, delims, n))
    requires ChildOk(nodes, child, 0, j)
    ensures Slot(nodes, j) < |nodes|
    ensures SuccOk(FinalInstrs(nodes, delims), FinalLevels(nodes, delims, n), Slot(nodes, j), Translate(nodes, child))
  {
    VarOfSlot(nodes, delims, n, j);
    if child.At? {
      VarOfSlot(nodes, delims, n, child.index);
    }
  }

  lemma FinalDownward(nodes: seq<RawNode>, delims: seq<nat>, n: nat)
    requires WellFormed(nodes, delims, n)
    requires Owned(FinalInstrs(nodes, delims), FinalLevels(nodes, delims, n))
    ensures Downward(FinalInstrs(nodes, delims), FinalLevels(nodes, delims, n))
  {
    var ins, ls := FinalInstrs(nodes, delims), FinalLevels(nodes, delims, n);
    forall s | 0 <= s < |ins|
      ensures SuccOk(ins, ls, s, ins[s].low) && SuccOk(ins, ls, s, ins[s].high)
    {
      var j := SlotOwner(nodes, n, s);
      ChildrenBefore(nodes, delims, n, j);
      FinalInstrAt(nodes, delims, n, j);
      SuccAt(nodes, delims, n, j, nodes[j].low);
      SuccAt(nodes, delims, n, j, nodes[j].high);
    }
  }

  // ----- the incoming lists -----

  lemma IncomingLowAt(nodes: seq<RawNode>, delims: seq<nat>, n: nat, j: nat)
    requires WellFormed(nodes, delims, n) && j < |nodes|
    ensures Slot(nodes, j) < |nodes|
    ensures var ins, s := FinalInstrs(nodes, delims), Slot(nodes, j);
      LowListLink(ins, ins[s].firstLowIn, At(s)) &&
      LowListLink(ins, ins[s].nextLowIn, ins[s].low) &&
      RankBelow(Ranks(nodes, n), ins[s].nextLowIn, j)
  {
    FinalInstrAt(nodes, delims, n, j);
    var k := LowParent(nodes, |nodes|, j);
    if k >= 0 {
      FinalInstrAt(nodes, delims, n, k);
    }
    var low := nodes[j].low;
    if low.At? && low.index < |nodes| {
      var p := LowParent(nodes, j, low.index);
      if p >= 0 {
        FinalInstrAt(nodes, delims, n, p);
        OwnerOfSlot(nodes, n, p);
      }
    }
  }

  lemma IncomingHighAt(nodes: seq<RawNode>, delims: seq<nat>, n: nat, j: nat)
    requires WellFormed(nodes, delims, n) && j < |nodes|
    ensures Slot(nodes, j) < |nodes|
    ensures var ins, s := FinalInstrs(nodes, delims), Slot(nodes, j);
      HighListLink(ins, ins[s].firstHighIn, At(s)) &&
      HighListLink(ins, ins[s].nextHighIn, ins[s].high) &&
      RankBelow(Ranks(nodes, n), ins[s].nextHighIn, j)
  {
    FinalInstrAt(nodes, delims, n, j);
    var k := HighParent(nodes, |nodes|, j);
    if k >= 0 {
      FinalInstrAt(nodes, delims, n, k);
    }
    var high := nodes[j].high;
    if high.At? && high.index < |nodes| {
      var p := HighParent(nodes, j, high.index);
      if p >= 0 {
        FinalInstrAt(nodes, delims, n, p);
        OwnerOfSlot(nodes, n, p);
      }
    }
  }

  lemma FinalIncoming(nodes: seq<RawNode>, delims: seq<nat>, n: nat)
    requires WellFormed(nodes, delims, n)
    ensures IncomingOk(FinalInstrs(nodes, delims), Ranks(nodes, n))
  {
    var ins, rank := FinalInstrs(nodes, delims), Ranks(nodes, n);
    forall s | 0 <= s < |ins|
      ensures LowListLink(ins, ins[s].firstLowIn, At(s)) && LowListLink(ins, ins[s].nextLowIn, ins[s].low)
      ensures HighListLink(ins, ins[s].firstHighIn, At(s)) && HighListLink(ins, ins[s].nextHighIn, ins[s].high)
      ensures RankBelow(rank, ins[s].nextLowIn, rank[s]) && RankBelow(rank, ins[s].nextHighIn, rank[s])
    {
      var j := SlotOwner(nodes, n, s);
      IncomingLowAt(nodes, delims, n, j);
      IncomingHighAt(nodes, delims, n, j);
    }
  }

  // ----- the level chains -----

  /** The level `next` of (c, u) points to is the one of the variable just
      before u's run, and its `prev` points back. */
  lemma NextLinked(nodes: seq<RawNode>, delims: seq<nat>, n: nat, c: nat, u: nat)
    requires WellFormed(nodes, delims, n) && c + 1 < |delims| && Touches(nodes, delims, c, u)
    requires RunStart(nodes, delims, n, c, u) > delims[c]
    ensures var w := nodes[RunStart(nodes, delims, n, c, u) - 1].variable;
      var ls := FinalLevels(nodes, delims, n);
      Touches(nodes, delims, c, w) && w > u && LevelOf(nodes, delims, c, w) < |ls| &&
      ls[LevelOf(nodes, delims, c, w)].variable == w &&
      ls[LevelOf(nodes, delims, c, w)].prev == LevelAt(LevelOf(nodes, delims, c, u))
  {
    var f := RunStart(nodes, delims, n, c, u);
    var w := nodes[f - 1].variable;
    assert delims[c + 1] <= delims[|delims| - 1];
    VarsInMember(nodes, delims[c], delims[c + 1], f - 1);
    FinalLevelAt(nodes, delims, n, c, w);
    var g' := RunEnd(nodes, delims, n, c, w);
    assert RunStart(nodes, delims, n, c, w) <= f - 1 <= g';
    assert g' == f - 1;
  }

  /** The level `prev` of (c, u) points to is the one of the variable just
      after u's run, and its `next` points back. */
  lemma PrevLinked(nodes: seq<RawNode>, delims: seq<nat>, n: nat, c: nat, u: nat)
    requires WellFormed(nodes, delims, n) && c + 1 < |delims| && Touches(nodes, delims, c, u)
    requires RunEnd(nodes, delims, n, c, u) + 1 < delims[c + 1]
    ensures var w := nodes[RunEnd(nodes, delims, n, c, u) + 1].variable;
      var ls := FinalLevels(nodes, delims, n);
      Touches(nodes, delims, c, w) && w < u && LevelOf(nodes, delims, c, w) < |ls| &&
      ls[LevelOf(nodes, delims, c, w)].variable == w &&
      ls[LevelOf(nodes, delims, c, w)].next == LevelAt(LevelOf(nodes, delims, c, u))
  {
    var g := RunEnd(nodes, delims, n, c, u);
    var w := nodes[g + 1].variable;
    assert delims[c + 1] <= delims[|delims| - 1];
    VarsInMember(nodes, delims[c], delims[c + 1], g + 1);
    FinalLevelAt(nodes, delims, n, c, w);
    var f' := RunStart(nodes, delims, n, c, w);
    assert BddAt(nodes, delims, c);
    assert forall k :: delims[c] <= k <= g ==> nodes[k].variable >= u;
    assert f' == g + 1;
  }

  lemma {:induction false} ChainAt(nodes: seq<RawNode>, delims: seq<nat>, n: nat, l: nat)
    requires WellFormed(nodes, delims, n) && l < LevelStart(nodes, delims, n)
    ensures var ls := FinalLevels(nodes, delims, n);
      (ls[l].next.LevelAt? ==>
         ls[l].next.index < |ls| && ls[ls[l].next.index].variable > ls[l].variable &&
         ls[ls[l].next.index].prev == LevelAt(l)) &&
      (ls[l].prev.LevelAt? ==>
         ls[l].prev.index < |ls| && ls[ls[l].prev.index].variable < ls[l].variable &&
         ls[ls[l].prev.index].next == LevelAt(l))
  {
    var (c, u) := LevelOwner(nodes, delims, n, l);
    FinalLevelAt(nodes, delims, n, c, u);
    if RunStart(nodes, delims, n, c, u) > delims[c] {
      NextLinked(nodes, delims, n, c, u);
    }
    if RunEnd(nodes, delims, n, c, u) + 1 < delims[c + 1] {
      PrevLinked(nodes, delims, n, c, u);
    }
  }

  lemma FinalChain(nodes: seq<RawNode>, delims: seq<nat>, n: nat)
    requires WellFormed(nodes, delims, n)
    ensures ChainOk(FinalLevels(nodes, delims, n))
  {
    forall l | 0 <= l < |FinalLevels(nodes, delims, n)| {
      ChainAt(nodes, delims, n, l);
    }
  }

  /** A level without `prev` is the root's: a block of one. */
  lemma {:induction false} HeadAt(nodes: seq<RawNode>, delims: seq<nat>, n: nat, l: nat)
    requires WellFormed(nodes, delims, n) && l < LevelStart(nodes, delims, n)
    requires FinalLevels(nodes, delims, n)[l].prev == NoLevel
    ensures FinalLevels(nodes, delims, n)[l].last == FinalLevels(nodes, delims, n)[l].first + 1
  {
    var (c, u) := LevelOwner(nodes, delims, n, l);
    FinalLevelAt(nodes, delims, n, c, u);
    var f, g := RunStart(nodes, delims, n, c, u), RunEnd(nodes, delims, n, c, u);
    var hi := delims[c + 1];
    assert g == hi - 1;
    assert BddAt(nodes, delims, c);
    assert f == hi - 1;
    assert hi <= delims[|delims| - 1];
    CountAcross(nodes, f, hi, u);
  }

  lemma FinalHeads(nodes: seq<RawNode>, delims: seq<nat>, n: nat)
    requires WellFormed(nodes, delims, n)
    ensures HeadsSingle(FinalLevels(nodes, delims, n))
  {
    var ls := FinalLevels(nodes, delims, n);
    forall l | 0 <= l < |ls| && ls[l].prev == NoLevel ensures ls[l].last == ls[l].first + 1 {
      HeadAt(nodes, delims, n, l);
    }
  }

  /** The builder's output over well-formed BDDs has the full structural
      invariant the sweeps rely on. */
  lemma FinalShaped(nodes: seq<RawNode>, delims: seq<nat>, n: nat)
    requires WellFormed(nodes, delims, n)
    ensures Shaped(FinalInstrs(nodes, delims), FinalLevels(nodes, delims, n),
                   LevelStarts(nodes, delims, n), Ranks(nodes, n))
  {
    FinalRows(nodes, delims, n);
    FinalRanges(nodes, delims, n);
    FinalOwned(nodes, delims, n);
    FinalDownward(nodes, delims, n);
    FinalIncoming(nodes, delims, n);
    FinalChain(nodes, delims, n);
    FinalHeads(nodes, delims, n);
  }
}
