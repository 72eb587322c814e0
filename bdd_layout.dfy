/** Where the instruction builder of include/bdd/bdd_min_marginal_averaging.h
    puts everything, in closed form. The second pass is replayed node by node
    (InstrsAfter, LevelsAfter) with the same updates the builder makes, and
    the lemmas here say what the replay holds after any prefix of the nodes:
    node j's instruction (InstrsAt) and BDD b's level at variable u
    (LevelsAfterAt). */
module BddLayout {
  import opened ExtendedReals
  import opened BddStorage
  import opened BddInstructions

  // ----- runs: within a BDD the nodes of one variable are contiguous -----

  /** The last node in [lo, hi) at a variable of VarsIn(lo, hi). */
  ghost function LastAt(nodes: seq<RawNode>, lo: nat, hi: nat, v: nat): (g: nat)
    requires lo <= hi <= |nodes| && v in VarsIn(nodes, lo, hi)
    ensures lo <= g < hi && nodes[g].variable == v
    ensures forall k :: g < k < hi ==> nodes[k].variable != v
    decreases hi - lo
  {
    if nodes[hi - 1].variable == v then hi - 1 else LastAt(nodes, lo, hi - 1, v)
  }

  /** The first node of BDD b at variable u; the nodes before it sit at later
      variables. */
  ghost function RunStart(nodes: seq<RawNode>, delims: seq<nat>, n: nat, b: nat, u: nat): (f: nat)
    requires WellFormed(nodes, delims, n) && b + 1 < |delims| && Touches(nodes, delims, b, u)
    ensures delims[b] <= f < delims[b + 1] && nodes[f].variable == u && u < n
    ensures forall k :: delims[b] <= k < f ==> nodes[k].variable > u
  {
    assert BddAt(nodes, delims, b);
    FirstAt(nodes, delims[b], delims[b + 1], u)
  }

  /** The last node of BDD b at variable u: the run [RunStart, RunEnd] holds
      all its nodes at u, and the nodes after it sit at earlier variables. */
  ghost function RunEnd(nodes: seq<RawNode>, delims: seq<nat>, n: nat, b: nat, u: nat): (g: nat)
    requires WellFormed(nodes, delims, n) && b + 1 < |delims| && Touches(nodes, delims, b, u)
    ensures RunStart(nodes, delims, n, b, u) <= g < delims[b + 1] && nodes[g].variable == u
    ensures forall k :: RunStart(nodes, delims, n, b, u) <= k <= g ==> nodes[k].variable == u
    ensures forall k :: g < k < delims[b + 1] ==> nodes[k].variable < u
  {
    var f := RunStart(nodes, delims, n, b, u);
    assert BddAt(nodes, delims, b);
    LastAt(nodes, delims[b], delims[b + 1], u)
  }

  lemma {:induction false} CountAcross(nodes: seq<RawNode>, j: nat, k: nat, u: nat)
    requires j <= k <= |nodes| && forall m :: j <= m < k ==> nodes[m].variable == u
    ensures Count(nodes, k, u) == Count(nodes, j, u) + (k - j)
    decreases k - j
  {
    if j < k {
      CountAcross(nodes, j, k - 1, u);
    }
  }

  lemma {:induction false} CountSkip(nodes: seq<RawNode>, j: nat, k: nat, u: nat)
    requires j <= k <= |nodes| && forall m :: j <= m < k ==> nodes[m].variable != u
    ensures Count(nodes, k, u) == Count(nodes, j, u)
    decreases k - j
  {
    if j < k {
      CountSkip(nodes, j, k - 1, u);
    }
  }

  /** Node i belongs to BDD b. */
  lemma InBdd(nodes: seq<RawNode>, delims: seq<nat>, b: nat, i: nat)
    requires DelimitersOk(delims, |nodes|) && b + 1 < |delims| && delims[b] <= i < delims[b + 1]
    ensures i < |nodes| && BddOf(delims, |nodes|, i) == b
  {
    assert delims[b + 1] <= delims[|delims| - 1];
    BddOfUnique(delims, |nodes|, i, b);
  }

  /** Every level of a (BDD, variable) pair that occurs lies in the table. */
  lemma {:induction false} LevelInTable(nodes: seq<RawNode>, delims: seq<nat>, n: nat, b: nat, u: nat)
    requires WellFormed(nodes, delims, n) && b + 1 < |delims| && Touches(nodes, delims, b, u)
    ensures u < n && LevelOf(nodes, delims, b, u) < LevelStart(nodes, delims, n)
  {
    var f := RunStart(nodes, delims, n, b, u);
    LevelOfBounds(nodes, delims, b, u);
    LevelStartMonotone(nodes, delims, u + 1, n);
  }

  /** The node starts a run: the builder opens its level here (its variable
      is not yet covered in its BDD). */
  predicate Opens(nodes: seq<RawNode>, delims: seq<nat>, i: nat)
    requires DelimitersOk(delims, |nodes|) && i < |nodes|
  {
    var b := BddOf(delims, |nodes|, i);
    i == delims[b] || nodes[i - 1].variable != nodes[i].variable
  }

  /** Node i opens a level exactly when it is the first of its run. */
  lemma OpensAtRunStart(nodes: seq<RawNode>, delims: seq<nat>, n: nat, i: nat, b: nat, u: nat)
    requires WellFormed(nodes, delims, n) && i < |nodes| && b == BddOf(delims, |nodes|, i)
    requires u == nodes[i].variable && Touches(nodes, delims, b, u)
    ensures Opens(nodes, delims, i) <==> i == RunStart(nodes, delims, n, b, u)
  {
    var f := RunStart(nodes, delims, n, b, u);
    var g := RunEnd(nodes, delims, n, b, u);
    assert f <= i <= g;
  }

  /** ... that is, when its variable is not among those of the earlier nodes
      of its BDD (the builder's covered marks). */
  lemma {:induction false} OpensIff(nodes: seq<RawNode>, delims: seq<nat>, n: nat, i: nat)
    requires WellFormed(nodes, delims, n) && i < |nodes|
    ensures Opens(nodes, delims, i) <==>
      nodes[i].variable !in VarsIn(nodes, delims[BddOf(delims, |nodes|, i)], i)
  {
    var b := BddOf(delims, |nodes|, i);
    var u := nodes[i].variable;
    if u in VarsIn(nodes, delims[b], i) {
      var k := FirstAt(nodes, delims[b], i, u);
      assert BddAt(nodes, delims, b);
    }
    if !Opens(nodes, delims, i) {
      VarsInMember(nodes, delims[b], i, i - 1);
    }
  }

  /** next_bdd_level when node i of BDD b is read: the level most recently
      opened in b, which is that of the previous node. */
  function CursorAt(nodes: seq<RawNode>, delims: seq<nat>, b: nat, i: nat): LevelLink
    requires DelimitersOk(delims, |nodes|) && b + 1 < |delims| && delims[b] <= i <= delims[b + 1]
  {
    assert delims[b + 1] <= delims[|delims| - 1];
    if i == delims[b] then NoLevel else LevelAt(LevelOf(nodes, delims, b, nodes[i - 1].variable))
  }

  // ----- the level table, step by step -----

  /** The first v rows of the level table, NrBdds(u) default levels in row u. */
  ghost function LevelRows(nodes: seq<RawNode>, delims: seq<nat>, v: nat): seq<Level>
    requires DelimitersOk(delims, |nodes|)
  {
    if v == 0 then [] else LevelRows(nodes, delims, v - 1) + seq(NrBdds(nodes, delims, v - 1), _ => InitialLevel(v - 1))
  }

  lemma {:induction false} LevelRowsSize(nodes: seq<RawNode>, delims: seq<nat>, v: nat)
    requires DelimitersOk(delims, |nodes|)
    ensures |LevelRows(nodes, delims, v)| == LevelStart(nodes, delims, v)
  {
    if v > 0 {
      LevelRowsSize(nodes, delims, v - 1);
    }
  }

  lemma {:induction false} LevelRowsAt(nodes: seq<RawNode>, delims: seq<nat>, v: nat, u: nat, l: nat)
    requires DelimitersOk(delims, |nodes|) && u < v
    requires LevelStart(nodes, delims, u) <= l < LevelStart(nodes, delims, u + 1)
    ensures l < |LevelRows(nodes, delims, v)| && LevelRows(nodes, delims, v)[l] == InitialLevel(u)
  {
    LevelRowsSize(nodes, delims, v);
    LevelStartMonotone(nodes, delims, u + 1, v);
    if u < v - 1 {
      LevelRowsAt(nodes, delims, v - 1, u, l);
    } else {
      LevelRowsSize(nodes, delims, v - 1);
    }
  }

  /** Opening level l at instruction offset o: its range becomes empty at o
      and it is linked in front of the cursor level. */
  function OpenLevel(ls: seq<Level>, l: nat, o: nat, cursor: LevelLink): (r: seq<Level>)
    ensures |r| == |ls|
  {
    if l < |ls| then
      var ls1 := ls[l := ls[l].(first := o, last := o)];
      if cursor.LevelAt? && cursor.index < |ls1| then
        var ls2 := ls1[l := ls1[l].(next := cursor)];
        ls2[cursor.index := ls2[cursor.index].(prev := LevelAt(l))]
      else ls1
    else ls
  }

  /** Level l takes one more instruction. */
  function BumpLast(ls: seq<Level>, l: nat): (r: seq<Level>)
    ensures |r| == |ls|
  {
    if l < |ls| then ls[l := ls[l].(last := ls[l].last + 1)] else ls
  }

  /** What node i does to the level table. */
  ghost function StepLevels(nodes: seq<RawNode>, delims: seq<nat>, ls: seq<Level>, i: nat): (r: seq<Level>)
    requires DelimitersOk(delims, |nodes|) && i < |nodes|
    ensures |r| == |ls|
  {
    var b := BddOf(delims, |nodes|, i);
    var v := nodes[i].variable;
    var l := LevelOf(nodes, delims, b, v);
    var ls1 := if Opens(nodes, delims, i)
      then OpenLevel(ls, l, Off(nodes, v) + Count(nodes, i, v), CursorAt(nodes, delims, b, i))
      else ls;
    BumpLast(ls1, l)
  }

  /** The level table once nodes 0 .. i - 1 are placed. */
  ghost function LevelsAfter(nodes: seq<RawNode>, delims: seq<nat>, n: nat, i: nat): (r: seq<Level>)
    requires DelimitersOk(delims, |nodes|) && i <= |nodes|
    ensures |r| == LevelStart(nodes, delims, n)
    decreases 2 * i
  {
    if i == 0 then LevelRowsSize(nodes, delims, n); LevelRows(nodes, delims, n)
    else LevelsThrough(nodes, delims, n, i - 1)
  }

  /** The level table once nodes 0 .. i are placed. */
  ghost function LevelsThrough(nodes: seq<RawNode>, delims: seq<nat>, n: nat, i: nat): (r: seq<Level>)
    requires DelimitersOk(delims, |nodes|) && i < |nodes|
    ensures |r| == LevelStart(nodes, delims, n)
    decreases 2 * i + 1
  {
    StepLevels(nodes, delims, LevelsAfter(nodes, delims, n, i), i)
  }

  /** Opening level l and bumping it, seen from one level t. */
  lemma OpenBumpAt(ls: seq<Level>, l: nat, o: nat, cur: LevelLink, t: nat)
    requires l < |ls| && t < |ls| && cur != LevelAt(l) && (cur.LevelAt? ==> cur.index < |ls|)
    ensures BumpLast(OpenLevel(ls, l, o, cur), l)[t] ==
      if t == l then ls[l].(first := o, last := o + 1, next := if cur.LevelAt? then cur else ls[l].next)
      else if cur == LevelAt(t) then ls[t].(prev := LevelAt(l))
      else ls[t]
  {
  }

  /** Bumping level l, seen from one level t. */
  lemma BumpAt(ls: seq<Level>, l: nat, t: nat)
    requires l < |ls| && t < |ls|
    ensures BumpLast(ls, l)[t] == if t == l then ls[l].(last := ls[l].last + 1) else ls[t]
  {
  }

  /** Node i of BDD b when b's nodes are placed up to i (clamped to b). */
  function Clamp(delims: seq<nat>, i: nat, b: nat): nat
    requires b + 1 < |delims|
  {
    if i < delims[b] then delims[b] else if i > delims[b + 1] then delims[b + 1] else i
  }

  /** BDD b's level at u once b's nodes before e are placed: untouched until
      the run of u starts; then its range runs from u's offset to one past
      the last placed node of the run, `next` is the level of the variable
      before the run and `prev` that of the variable after it, once that
      one is opened. */
  ghost function ExpectedLevel(nodes: seq<RawNode>, delims: seq<nat>, n: nat, b: nat, u: nat, e: nat): Level
    requires WellFormed(nodes, delims, n) && b + 1 < |delims| && Touches(nodes, delims, b, u)
    requires delims[b] <= e <= delims[b + 1]
  {
    assert delims[b + 1] <= delims[|delims| - 1];
    var f := RunStart(nodes, delims, n, b, u);
    var g := RunEnd(nodes, delims, n, b, u);
    if e <= f then InitialLevel(u)
    else Level(u, Off(nodes, u) + Count(nodes, f, u), Off(nodes, u) + Count(nodes, e, u), Infinity,
               if g + 1 < e then LevelAt(LevelOf(nodes, delims, b, nodes[g + 1].variable)) else NoLevel,
               if f == delims[b] then NoLevel else LevelAt(LevelOf(nodes, delims, b, nodes[f - 1].variable)))
  }

  /** The cursor at node i, when not empty, is a level of the table other
      than node i's own. */
  lemma {:induction false} CursorFacts(nodes: seq<RawNode>, delims: seq<nat>, n: nat, i: nat)
    requires WellFormed(nodes, delims, n) && i < |nodes|
    ensures var b := BddOf(delims, |nodes|, i);
      var cur := CursorAt(nodes, delims, b, i);
      var l := LevelOf(nodes, delims, b, nodes[i].variable);
      Touches(nodes, delims, b, nodes[i].variable) && l < LevelStart(nodes, delims, n) &&
      (cur.LevelAt? ==>
         cur.index < LevelStart(nodes, delims, n) && Touches(nodes, delims, b, nodes[i - 1].variable)) &&
      (Opens(nodes, delims, i) ==> cur != LevelAt(l))
  {
    var b := BddOf(delims, |nodes|, i);
    VarsInMember(nodes, delims[b], delims[b + 1], i);
    LevelInTable(nodes, delims, n, b, nodes[i].variable);
    if i > delims[b] {
      VarsInMember(nodes, delims[b], delims[b + 1], i - 1);
      LevelInTable(nodes, delims, n, b, nodes[i - 1].variable);
      if Opens(nodes, delims, i) {
        LevelOfInjective(nodes, delims, b, nodes[i - 1].variable, b, nodes[i].variable);
      }
    }
  }

  /** Node i of another BDD leaves BDD c's level at u alone. */
  lemma {:induction false} StepOtherBdd(nodes: seq<RawNode>, delims: seq<nat>, n: nat, ls: seq<Level>, i: nat, c: nat, u: nat)
    requires WellFormed(nodes, delims, n) && i < |nodes| && c + 1 < |delims| && Touches(nodes, delims, c, u)
    requires BddOf(delims, |nodes|, i) != c && |ls| == LevelStart(nodes, delims, n)
    requires LevelOf(nodes, delims, c, u) < |ls|
    requires ls[LevelOf(nodes, delims, c, u)] == ExpectedLevel(nodes, delims, n, c, u, Clamp(delims, i, c))
    ensures StepLevels(nodes, delims, ls, i)[LevelOf(nodes, delims, c, u)] == ExpectedLevel(nodes, delims, n, c, u, Clamp(delims, i + 1, c))
  {
    var b := BddOf(delims, |nodes|, i);
    var v := nodes[i].variable;
    var l := LevelOf(nodes, delims, b, v);
    var t := LevelOf(nodes, delims, c, u);
    var cur := CursorAt(nodes, delims, b, i);
    CursorFacts(nodes, delims, n, i);
    LevelOfInjective(nodes, delims, b, v, c, u);
    if cur.LevelAt? {
      LevelOfInjective(nodes, delims, b, nodes[i - 1].variable, c, u);
    }
    if Opens(nodes, delims, i) {
      OpenBumpAt(ls, l, Off(nodes, v) + Count(nodes, i, v), cur, t);
    } else {
      BumpAt(ls, l, t);
    }
    assert StepLevels(nodes, delims, ls, i)[t] == ls[t];
    if delims[c] <= i < delims[c + 1] {
      InBdd(nodes, delims, c, i);
    }
    assert Clamp(delims, i, c) == Clamp(delims, i + 1, c);
  }

  /** The level at u of node i's BDD when node i (at u) starts the run: default
      before, and after it a one-instruction range at u's offset, with the
      cursor as `next`. */
  lemma ExpectedOpen(nodes: seq<RawNode>, delims: seq<nat>, n: nat, i: nat, b: nat, u: nat)
    requires WellFormed(nodes, delims, n) && b + 1 < |delims| && delims[b] <= i < delims[b + 1]
    requires nodes[i].variable == u && Touches(nodes, delims, b, u) && i == RunStart(nodes, delims, n, b, u)
    ensures ExpectedLevel(nodes, delims, n, b, u, i) == InitialLevel(u)
    ensures var o := Off(nodes, u) + Count(nodes, i, u);
      ExpectedLevel(nodes, delims, n, b, u, i + 1) ==
        InitialLevel(u).(first := o, last := o + 1, next := CursorAt(nodes, delims, b, i))
  {
    var g := RunEnd(nodes, delims, n, b, u);
  }

  /** A later node of the run adds one instruction to the range. */
  lemma ExpectedGrow(nodes: seq<RawNode>, delims: seq<nat>, n: nat, i: nat, b: nat, u: nat)
    requires WellFormed(nodes, delims, n) && b + 1 < |delims| && delims[b] <= i < delims[b + 1]
    requires nodes[i].variable == u && Touches(nodes, delims, b, u) && i != RunStart(nodes, delims, n, b, u)
    ensures var lv := ExpectedLevel(nodes, delims, n, b, u, i);
      ExpectedLevel(nodes, delims, n, b, u, i + 1) == lv.(last := lv.last + 1)
  {
    var f := RunStart(nodes, delims, n, b, u);
    var g := RunEnd(nodes, delims, n, b, u);
    assert f < i <= g;
  }

  /** A node of the same BDD at another variable, not right after the run of
      w, does not change the level at w. */
  lemma ExpectedUnmoved(nodes: seq<RawNode>, delims: seq<nat>, n: nat, i: nat, b: nat, w: nat)
    requires WellFormed(nodes, delims, n) && b + 1 < |delims| && delims[b] <= i < delims[b + 1]
    requires nodes[i].variable != w && Touches(nodes, delims, b, w)
    requires !(i > delims[b] && nodes[i - 1].variable == w)
    ensures ExpectedLevel(nodes, delims, n, b, w, i + 1) == ExpectedLevel(nodes, delims, n, b, w, i)
  {
    var f := RunStart(nodes, delims, n, b, w);
    var g := RunEnd(nodes, delims, n, b, w);
    assert f != i && g + 1 != i;
    CountSkip(nodes, i, i + 1, w);
  }

  /** The node right after the run of w opens the next level, which becomes
      the level at w's `prev`. */
  lemma ExpectedRunEnds(nodes: seq<RawNode>, delims: seq<nat>, n: nat, i: nat, b: nat, w: nat)
    requires WellFormed(nodes, delims, n) && b + 1 < |delims| && delims[b] < i < delims[b + 1]
    requires nodes[i].variable != w && nodes[i - 1].variable == w
    ensures Touches(nodes, delims, b, w)
    ensures ExpectedLevel(nodes, delims, n, b, w, i + 1) ==
      ExpectedLevel(nodes, delims, n, b, w, i).(prev := LevelAt(LevelOf(nodes, delims, b, nodes[i].variable)))
  {
    VarsInMember(nodes, delims[b], delims[b + 1], i - 1);
    var f := RunStart(nodes, delims, n, b, w);
    var g := RunEnd(nodes, delims, n, b, w);
    assert BddAt(nodes, delims, b);
    assert g == i - 1;
    CountSkip(nodes, i, i + 1, w);
  }

  /** Node i moves its own level: it opens it at the start of its run, and
      adds itself to it. */
  lemma {:induction false} StepOwnLevel(nodes: seq<RawNode>, delims: seq<nat>, n: nat, ls: seq<Level>, i: nat, b: nat, u: nat)
    requires WellFormed(nodes, delims, n) && i < |nodes| && |ls| == LevelStart(nodes, delims, n)
    requires b == BddOf(delims, |nodes|, i) && u == nodes[i].variable && Touches(nodes, delims, b, u)
    requires LevelOf(nodes, delims, b, u) < |ls|
    requires ls[LevelOf(nodes, delims, b, u)] == ExpectedLevel(nodes, delims, n, b, u, Clamp(delims, i, b))
    ensures StepLevels(nodes, delims, ls, i)[LevelOf(nodes, delims, b, u)] == ExpectedLevel(nodes, delims, n, b, u, Clamp(delims, i + 1, b))
  {
    var l := LevelOf(nodes, delims, b, u);
    var cur := CursorAt(nodes, delims, b, i);
    CursorFacts(nodes, delims, n, i);
    OpensAtRunStart(nodes, delims, n, i, b, u);
    assert Clamp(delims, i, b) == i && Clamp(delims, i + 1, b) == i + 1;
    if Opens(nodes, delims, i) {
      OpenBumpAt(ls, l, Off(nodes, u) + Count(nodes, i, u), cur, l);
      ExpectedOpen(nodes, delims, n, i, b, u);
    } else {
      BumpAt(ls, l, l);
      ExpectedGrow(nodes, delims, n, i, b, u);
    }
  }

  /** Node i of the same BDD at another variable w leaves the level at w
      alone, except that it becomes that level's `prev` when node i opens
      the run after w's. */
  lemma {:induction false} StepOtherLevel(nodes: seq<RawNode>, delims: seq<nat>, n: nat, ls: seq<Level>, i: nat, b: nat, w: nat)
    requires WellFormed(nodes, delims, n) && i < |nodes| && |ls| == LevelStart(nodes, delims, n)
    requires b == BddOf(delims, |nodes|, i) && w != nodes[i].variable && Touches(nodes, delims, b, w)
    requires LevelOf(nodes, delims, b, w) < |ls|
    requires ls[LevelOf(nodes, delims, b, w)] == ExpectedLevel(nodes, delims, n, b, w, Clamp(delims, i, b))
    ensures StepLevels(nodes, delims, ls, i)[LevelOf(nodes, delims, b, w)] == ExpectedLevel(nodes, delims, n, b, w, Clamp(delims, i + 1, b))
  {
    var v := nodes[i].variable;
    var t := LevelOf(nodes, delims, b, w);
    var l := LevelOf(nodes, delims, b, v);
    var cur := CursorAt(nodes, delims, b, i);
    CursorFacts(nodes, delims, n, i);
    VarsInMember(nodes, delims[b], delims[b + 1], i);
    LevelOfInjective(nodes, delims, b, v, b, w);
    assert Clamp(delims, i, b) == i && Clamp(delims, i + 1, b) == i + 1;
    if i > delims[b] && nodes[i - 1].variable == w {
      assert Opens(nodes, delims, i) && cur == LevelAt(t);
      OpenBumpAt(ls, l, Off(nodes, v) + Count(nodes, i, v), cur, t);
      ExpectedRunEnds(nodes, delims, n, i, b, w);
    } else {
      if cur.LevelAt? {
        LevelOfInjective(nodes, delims, b, nodes[i - 1].variable, b, w);
      }
      if Opens(nodes, delims, i) {
        OpenBumpAt(ls, l, Off(nodes, v) + Count(nodes, i, v), cur, t);
      } else {
        BumpAt(ls, l, t);
      }
      ExpectedUnmoved(nodes, delims, n, i, b, w);
    }
  }

  /** BDD c's level at u is in its closed form once nodes 0 .. i - 1 are
      placed. */
  ghost predicate LevelClosed(nodes: seq<RawNode>, delims: seq<nat>, n: nat, i: nat, c: nat, u: nat)
    requires WellFormed(nodes, delims, n) && i <= |nodes| && c + 1 < |delims| && Touches(nodes, delims, c, u)
  {
    LevelOf(nodes, delims, c, u) < LevelStart(nodes, delims, n) &&
    LevelsAfter(nodes, delims, n, i)[LevelOf(nodes, delims, c, u)] == ExpectedLevel(nodes, delims, n, c, u, Clamp(delims, i, c))
  }

  /** Node i keeps the closed form of every level. */
  lemma LevelsAfterStep(nodes: seq<RawNode>, delims: seq<nat>, n: nat, i: nat, c: nat, u: nat)
    requires WellFormed(nodes, delims, n) && i < |nodes| && c + 1 < |delims| && Touches(nodes, delims, c, u)
    requires LevelClosed(nodes, delims, n, i, c, u)
    ensures LevelClosed(nodes, delims, n, i + 1, c, u)
  {
    var ls := LevelsAfter(nodes, delims, n, i);
    assert LevelsAfter(nodes, delims, n, i + 1) == StepLevels(nodes, delims, ls, i);
    var b := BddOf(delims, |nodes|, i);
    if b != c {
      StepOtherBdd(nodes, delims, n, ls, i, c, u);
    } else if u == nodes[i].variable {
      StepOwnLevel(nodes, delims, n, ls, i, b, u);
    } else {
      StepOtherLevel(nodes, delims, n, ls, i, b, u);
    }
  }

  /** Before any node is placed every level is a default one. */
  lemma LevelsAfterNone(nodes: seq<RawNode>, delims: seq<nat>, n: nat, c: nat, u: nat)
    requires WellFormed(nodes, delims, n) && c + 1 < |delims| && Touches(nodes, delims, c, u)
    ensures LevelClosed(nodes, delims, n, 0, c, u)
  {
    LevelInTable(nodes, delims, n, c, u);
    assert Clamp(delims, 0, c) == delims[c];
    LevelOfBounds(nodes, delims, c, u);
    var f := RunStart(nodes, delims, n, c, u);
    LevelRowsAt(nodes, delims, n, u, LevelOf(nodes, delims, c, u));
  }

  /** The closed form of every level after any prefix of the nodes. */
  lemma {:induction false} LevelsAfterAt(nodes: seq<RawNode>, delims: seq<nat>, n: nat, i: nat, c: nat, u: nat)
    requires WellFormed(nodes, delims, n) && i <= |nodes| && c + 1 < |delims| && Touches(nodes, delims, c, u)
    ensures LevelClosed(nodes, delims, n, i, c, u)
  {
    if i == 0 {
      LevelsAfterNone(nodes, delims, n, c, u);
    } else {
      LevelsAfterAt(nodes, delims, n, i - 1, c, u);
      LevelsAfterStep(nodes, delims, n, i - 1, c, u);
    }
  }

  // ----- the instruction array, step by step -----

  /** A child link as the per-BDD map translates it: a node index becomes the
      slot of that node, a terminal stays itself. */
  function Translate(nodes: seq<RawNode>, c: Link): Link
  {
    if c.At? && c.index < |nodes| then
      At(Slot(nodes, c.index))
    else c
  }

  /** Instruction s takes child c of the low side: it ins pushed in front of
      c's low-incoming list. */
  function LinkLow(ins: seq<Instr>, s: nat, c: Link): (r: seq<Instr>)
    ensures |r| == |ins|
  {
    if c.At? && c.index < |ins| && s < |ins| then
      var ins1 := ins[s := ins[s].(nextLowIn := ins[c.index].firstLowIn)];
      ins1[c.index := ins1[c.index].(firstLowIn := At(s))]
    else ins
  }

  function LinkHigh(ins: seq<Instr>, s: nat, c: Link): (r: seq<Instr>)
    ensures |r| == |ins|
  {
    if c.At? && c.index < |ins| && s < |ins| then
      var ins1 := ins[s := ins[s].(nextHighIn := ins[c.index].firstHighIn)];
      ins1[c.index := ins1[c.index].(firstHighIn := At(s))]
    else ins
  }

  /** Writing instruction s: its level, its low child (and the low list), its
      high child (and the high list), in the builder's order. */
  function WriteSlot(ins: seq<Instr>, s: nat, lv: LevelLink, lowT: Link, highT: Link): (r: seq<Instr>)
    ensures |r| == |ins|
  {
    if s < |ins| then
      var ins1 := ins[s := ins[s].(level := lv)];
      var ins2 := LinkLow(ins1[s := ins1[s].(low := lowT)], s, lowT);
      LinkHigh(ins2[s := ins2[s].(high := highT)], s, highT)
    else ins
  }

  /** WriteSlot seen from one slot t, when neither child ins s itself. */
  lemma WriteSlotOwn(ins: seq<Instr>, s: nat, lv: LevelLink, lowT: Link, highT: Link)
    requires s < |ins|
    requires lowT.At? ==> lowT.index < |ins| && lowT.index != s
    requires highT.At? ==> highT.index < |ins| && highT.index != s
    ensures WriteSlot(ins, s, lv, lowT, highT)[s] ==
      ins[s].(level := lv, low := lowT, high := highT,
              nextLowIn := if lowT.At? then ins[lowT.index].firstLowIn else ins[s].nextLowIn,
              nextHighIn := if highT.At? then ins[highT.index].firstHighIn else ins[s].nextHighIn)
  {
  }

  lemma WriteSlotOther(ins: seq<Instr>, s: nat, lv: LevelLink, lowT: Link, highT: Link, t: nat)
    requires s < |ins| && t < |ins| && t != s
    ensures WriteSlot(ins, s, lv, lowT, highT)[t] ==
      ins[t].(firstLowIn := if lowT == At(t) then At(s) else ins[t].firstLowIn,
              firstHighIn := if highT == At(t) then At(s) else ins[t].firstHighIn)
  {
  }

  /** What node i does to the instruction array. */
  ghost function WriteInstr(nodes: seq<RawNode>, delims: seq<nat>, ins: seq<Instr>, i: nat): (r: seq<Instr>)
    requires DelimitersOk(delims, |nodes|) && i < |nodes|
    ensures |r| == |ins|
  {
    var l := LevelOf(nodes, delims, BddOf(delims, |nodes|, i), nodes[i].variable);
    WriteSlot(ins, Slot(nodes, i), LevelAt(l), Translate(nodes, nodes[i].low), Translate(nodes, nodes[i].high))
  }

  /** The instruction array once nodes 0 .. i - 1 are placed. */
  ghost function InstrsAfter(nodes: seq<RawNode>, delims: seq<nat>, i: nat): (r: seq<Instr>)
    requires DelimitersOk(delims, |nodes|) && i <= |nodes|
    ensures |r| == |nodes|
    decreases 2 * i
  {
    if i == 0 then seq(|nodes|, _ => Blank)
    else InstrsThrough(nodes, delims, i - 1)
  }

  /** The instruction array once nodes 0 .. i are placed. */
  ghost function InstrsThrough(nodes: seq<RawNode>, delims: seq<nat>, i: nat): (r: seq<Instr>)
    requires DelimitersOk(delims, |nodes|) && i < |nodes|
    ensures |r| == |nodes|
    decreases 2 * i + 1
  {
    WriteInstr(nodes, delims, InstrsAfter(nodes, delims, i), i)
  }

  /** The last node before i whose low child ins node j, or -1. */
  function LowParent(nodes: seq<RawNode>, i: nat, j: nat): (k: int)
    requires i <= |nodes|
    ensures -1 <= k < i && (k >= 0 ==> nodes[k].low == At(j))
  {
    if i == 0 then -1 else if nodes[i - 1].low == At(j) then i - 1 else LowParent(nodes, i - 1, j)
  }

  function HighParent(nodes: seq<RawNode>, i: nat, j: nat): (k: int)
    requires i <= |nodes|
    ensures -1 <= k < i && (k >= 0 ==> nodes[k].high == At(j))
  {
    if i == 0 then -1 else if nodes[i - 1].high == At(j) then i - 1 else HighParent(nodes, i - 1, j)
  }

  /** The instruction of node k, or none. */
  function SlotLink(nodes: seq<RawNode>, k: int): Link
    requires k < |nodes|
  {
    if k < 0 then Null else At(Slot(nodes, k))
  }

  /** Node j's instruction once nodes 0 .. i - 1 are placed: written when
      j < i (level, translated children, and the incoming lists its children
      had when j was placed), and heading the lists of its parents placed so
      far. */
  ghost function ExpectedInstr(nodes: seq<RawNode>, delims: seq<nat>, i: nat, j: nat): Instr
    requires DelimitersOk(delims, |nodes|) && i <= |nodes| && j < |nodes|
  {
    var placed := j < i;
    var low := nodes[j].low;
    var high := nodes[j].high;
    Instr(if placed then LevelAt(LevelOf(nodes, delims, BddOf(delims, |nodes|, j), nodes[j].variable)) else NoLevel,
          if placed then Translate(nodes, low) else Null,
          if placed then Translate(nodes, high) else Null,
          SlotLink(nodes, LowParent(nodes, i, j)),
          if placed && low.At? && low.index < |nodes| then SlotLink(nodes, LowParent(nodes, j, low.index)) else Null,
          SlotLink(nodes, HighParent(nodes, i, j)),
          if placed && high.At? && high.index < |nodes| then SlotLink(nodes, HighParent(nodes, j, high.index)) else Null)
  }

  /** Slot of node k holds its closed form after nodes 0 .. i - 1. */
  ghost predicate SlotClosed(nodes: seq<RawNode>, delims: seq<nat>, ins: seq<Instr>, i: nat, k: nat)
    requires DelimitersOk(delims, |nodes|) && i <= |nodes| && k < |nodes|
  {
    Slot(nodes, k) < |ins| && ins[Slot(nodes, k)] == ExpectedInstr(nodes, delims, i, k)
  }

  /** Children of node i come before it, in its own BDD. */
  lemma ChildrenBefore(nodes: seq<RawNode>, delims: seq<nat>, n: nat, i: nat)
    requires WellFormed(nodes, delims, n) && i < |nodes|
    ensures ChildOk(nodes, nodes[i].low, delims[BddOf(delims, |nodes|, i)], i)
    ensures ChildOk(nodes, nodes[i].high, delims[BddOf(delims, |nodes|, i)], i)
    ensures ChildOk(nodes, nodes[i].low, 0, i) && ChildOk(nodes, nodes[i].high, 0, i)
  {
    assert BddAt(nodes, delims, BddOf(delims, |nodes|, i));
  }

  /** Node i's own slot after it is written. */
  lemma WriteInstrOwn(nodes: seq<RawNode>, delims: seq<nat>, n: nat, ins: seq<Instr>, i: nat)
    requires DelimitersOk(delims, |nodes|) && VariablesBelow(nodes, n) && i < |nodes| && |ins| == |nodes|
    requires ChildOk(nodes, nodes[i].low, 0, i) && ChildOk(nodes, nodes[i].high, 0, i)
    requires SlotClosed(nodes, delims, ins, i, i)
    requires nodes[i].low.At? ==> SlotClosed(nodes, delims, ins, i, nodes[i].low.index)
    requires nodes[i].high.At? ==> SlotClosed(nodes, delims, ins, i, nodes[i].high.index)
    ensures SlotClosed(nodes, delims, WriteInstr(nodes, delims, ins, i), i + 1, i)
  {
    var low, high := nodes[i].low, nodes[i].high;
    if low.At? { SlotInjective(nodes, n, low.index, i); }
    if high.At? { SlotInjective(nodes, n, high.index, i); }
    var l := LevelOf(nodes, delims, BddOf(delims, |nodes|, i), nodes[i].variable);
    WriteSlotOwn(ins, Slot(nodes, i), LevelAt(l), Translate(nodes, low), Translate(nodes, high));
  }

  /** Another node's slot after node i is written: only its list heads move. */
  lemma WriteInstrOther(nodes: seq<RawNode>, delims: seq<nat>, n: nat, ins: seq<Instr>, i: nat, j: nat)
    requires DelimitersOk(delims, |nodes|) && VariablesBelow(nodes, n) && i < |nodes| && j < |nodes| && j != i
    requires |ins| == |nodes| && SlotClosed(nodes, delims, ins, i, j)
    ensures SlotClosed(nodes, delims, WriteInstr(nodes, delims, ins, i), i + 1, j)
  {
    var low, high := nodes[i].low, nodes[i].high;
    SlotBounds(nodes, n, i);
    SlotInjective(nodes, n, i, j);
    if low.At? && low.index < |nodes| && low.index != j { SlotInjective(nodes, n, low.index, j); }
    if high.At? && high.index < |nodes| && high.index != j { SlotInjective(nodes, n, high.index, j); }
    var l := LevelOf(nodes, delims, BddOf(delims, |nodes|, i), nodes[i].variable);
    WriteSlotOther(ins, Slot(nodes, i), LevelAt(l), Translate(nodes, low), Translate(nodes, high), Slot(nodes, j));
  }

  /** Node i keeps the closed form of every instruction. */
  lemma WriteInstrAt(nodes: seq<RawNode>, delims: seq<nat>, n: nat, ins: seq<Instr>, i: nat, j: nat)
    requires WellFormed(nodes, delims, n) && i < |nodes| && j < |nodes| && |ins| == |nodes|
    requires forall k :: 0 <= k < |nodes| ==> SlotClosed(nodes, delims, ins, i, k)
    ensures SlotClosed(nodes, delims, WriteInstr(nodes, delims, ins, i), i + 1, j)
  {
    if j == i {
      ChildrenBefore(nodes, delims, n, i);
      WriteInstrOwn(nodes, delims, n, ins, i);
    } else {
      WriteInstrOther(nodes, delims, n, ins, i, j);
    }
  }

  lemma {:induction false} InstrBlankAt(nodes: seq<RawNode>, delims: seq<nat>, n: nat, k: nat)
    requires DelimitersOk(delims, |nodes|) && VariablesBelow(nodes, n) && k < |nodes|
    ensures SlotClosed(nodes, delims, InstrsAfter(nodes, delims, 0), 0, k)
  {
    SlotBounds(nodes, n, k);
  }

  /** Before any node is placed, every slot is blank. */
  lemma {:induction false} InstrsAtStart(nodes: seq<RawNode>, delims: seq<nat>, n: nat)
    requires DelimitersOk(delims, |nodes|) && VariablesBelow(nodes, n)
    ensures forall k :: 0 <= k < |nodes| ==> SlotClosed(nodes, delims, InstrsAfter(nodes, delims, 0), 0, k)
  {
    forall k | 0 <= k < |nodes|
      ensures SlotClosed(nodes, delims, InstrsAfter(nodes, delims, 0), 0, k)
    {
      InstrBlankAt(nodes, delims, n, k);
    }
  }

  /** The closed form of every instruction after any prefix of the nodes. */
  lemma {:induction false} InstrsAt(nodes: seq<RawNode>, delims: seq<nat>, n: nat, i: nat)
    requires WellFormed(nodes, delims, n) && i <= |nodes|
    ensures forall k :: 0 <= k < |nodes| ==> SlotClosed(nodes, delims, InstrsAfter(nodes, delims, i), i, k)
  {
    if i == 0 {
      InstrsAtStart(nodes, delims, n);
    } else {
      InstrsAt(nodes, delims, n, i - 1);
      var ins := InstrsAfter(nodes, delims, i - 1);
      assert InstrsAfter(nodes, delims, i) == WriteInstr(nodes, delims, ins, i - 1);
      forall k | 0 <= k < |nodes|
        ensures SlotClosed(nodes, delims, InstrsAfter(nodes, delims, i), i, k)
      {
        WriteInstrAt(nodes, delims, n, ins, i - 1, k);
      }
    }
  }

  // ----- what the builder finds when it reaches node i -----

  /** No node before k has node j as a child, when k <= j + 1. */
  lemma {:induction false} NoParentYet(nodes: seq<RawNode>, delims: seq<nat>, n: nat, k: nat, j: nat)
    requires WellFormed(nodes, delims, n) && j < |nodes| && k <= j + 1
    ensures LowParent(nodes, k, j) == -1 && HighParent(nodes, k, j) == -1
  {
    if k > 0 {
      ChildrenBefore(nodes, delims, n, k - 1);
      NoParentYet(nodes, delims, n, k - 1, j);
    }
  }

  /** Node i's slot is still blank when node i is reached. */
  lemma {:induction false} InstrBeforeNode(nodes: seq<RawNode>, delims: seq<nat>, n: nat, i: nat)
    requires WellFormed(nodes, delims, n) && i < |nodes|
    ensures Slot(nodes, i) < |nodes| && InstrsAfter(nodes, delims, i)[Slot(nodes, i)] == Blank
  {
    InstrsAt(nodes, delims, n, i);
    assert SlotClosed(nodes, delims, InstrsAfter(nodes, delims, i), i, i);
    NoParentYet(nodes, delims, n, i, i);
  }

  /** Node i's level when node i is reached: untouched if node i opens it,
      otherwise already holding the earlier nodes of the run, so that its
      `last` is node i's slot. */
  lemma {:induction false} LevelBeforeNode(nodes: seq<RawNode>, delims: seq<nat>, n: nat, i: nat)
    requires WellFormed(nodes, delims, n) && i < |nodes|
    ensures var l := LevelOf(nodes, delims, BddOf(delims, |nodes|, i), nodes[i].variable);
      var ls := LevelsAfter(nodes, delims, n, i);
      l < |ls| &&
      (Opens(nodes, delims, i) ==> ls[l] == InitialLevel(nodes[i].variable)) &&
      (!Opens(nodes, delims, i) ==> ls[l].first <= ls[l].last == Slot(nodes, i) < |nodes|)
  {
    var b, v := BddOf(delims, |nodes|, i), nodes[i].variable;
    CursorFacts(nodes, delims, n, i);
    LevelsAfterAt(nodes, delims, n, i, b, v);
    OpensAtRunStart(nodes, delims, n, i, b, v);
    assert Clamp(delims, i, b) == i;
    SlotBounds(nodes, n, i);
    CountMonotone(nodes, RunStart(nodes, delims, n, b, v), i, v);
  }
}
