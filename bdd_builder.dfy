/** init_branch_instructions of include/bdd/bdd_min_marginal_averaging.h:
    the two passes that turn the raw BDD collection into the instruction array
    and the level table. The first pass counts nodes and BDDs per variable
    (with per-BDD "covered" marks) and takes partial sums; the second replays
    every BDD's nodes in order, opens a level at the first node of each
    variable, writes each node to the next slot of its level, translates its
    children through a per-BDD map primed with the terminals, pushes it onto
    its children's incoming lists and links the BDD's levels into a chain. */
module BddBuilder {
  import opened ExtendedReals
  import opened BddStorage
  import opened BddInstructions
  import opened BddLayout
  import opened BddShape

  // ----- first pass: counting -----

  /** nr_bdd_nodes_per_variable (lines 216-221). */
  method CountNodes(nodes: seq<RawNode>, n: nat) returns (counts: seq<nat>)
    requires VariablesBelow(nodes, n)
    ensures |counts| == n
    ensures forall v :: 0 <= v < n ==> counts[v] == Count(nodes, |nodes|, v)
  {
    counts := seq(n, _ => 0);
    var i := 0;
    while i < |nodes|
      invariant 0 <= i <= |nodes| && |counts| == n
      invariant forall v :: 0 <= v < n ==> counts[v] == Count(nodes, i, v)
    {
      var v := nodes[i].variable;
      counts := counts[v := counts[v] + 1];
      i := i + 1;
    }
  }

  /** Covered-variable marks: `marks` (variable_counted) and the list
      `covered` (variables_covered) agree, and the list has no repeats. */
  ghost predicate MarksAgree(marks: seq<bool>, covered: seq<nat>)
  {
    (forall k :: 0 <= k < |covered| ==> covered[k] < |marks| && marks[covered[k]]) &&
    (forall j, k :: 0 <= j < k < |covered| ==> covered[j] != covered[k]) &&
    (forall v :: 0 <= v < |marks| && marks[v] ==> v in covered)
  }

  /** cover_variable (lines 203-207): marks v and appends it to the list. */
  method Cover(marks: seq<bool>, covered: seq<nat>, v: nat) returns (marks': seq<bool>, covered': seq<nat>)
    requires MarksAgree(marks, covered) && v < |marks| && !marks[v]
    ensures marks' == marks[v := true] && covered' == covered + [v]
    ensures MarksAgree(marks', covered')
  {
    marks', covered' := marks[v := true], covered + [v];
  }

  /** uncover_variables (lines 208-214): clears every mark through the list. */
  method Uncover(marks: seq<bool>, covered: seq<nat>) returns (marks': seq<bool>, covered': seq<nat>)
    requires MarksAgree(marks, covered)
    ensures |marks'| == |marks| && covered' == []
    ensures forall v :: 0 <= v < |marks'| ==> !marks'[v]
  {
    marks' := marks;
    var k := 0;
    while k < |covered|
      invariant 0 <= k <= |covered| && |marks'| == |marks|
      invariant forall j :: k <= j < |covered| ==> marks'[covered[j]]
      invariant forall v :: 0 <= v < |marks'| && marks'[v] ==> v in covered[k..]
    {
      assert marks'[covered[k]];
      marks' := marks'[covered[k] := false];
      k := k + 1;
    }
    covered' := [];
  }

  /** One BDD's turn of nr_bdds_per_variable (lines 228-234): every variable
      it touches gains one, through the marks, which are all clear before and
      after. */
  method CountOneBdd(nodes: seq<RawNode>, delims: seq<nat>, n: nat, b: nat, bddsPerVar: seq<nat>, marks: seq<bool>)
    returns (bddsPerVar': seq<nat>, marks': seq<bool>)
    requires DelimitersOk(delims, |nodes|) && VariablesBelow(nodes, n) && b + 1 < |delims|
    requires |bddsPerVar| == n && |marks| == n && forall v :: 0 <= v < n ==> !marks[v]
    ensures |bddsPerVar'| == n && |marks'| == n && forall v :: 0 <= v < n ==> !marks'[v]
    ensures forall v :: 0 <= v < n ==>
      bddsPerVar'[v] == bddsPerVar[v] + (if Touches(nodes, delims, b, v) then 1 else 0)
  {
    var covered: seq<nat> := [];
    bddsPerVar', marks' := bddsPerVar, marks;
    var i := delims[b];
    while i < delims[b + 1]
      invariant delims[b] <= i <= delims[b + 1] && |bddsPerVar'| == n && |marks'| == n
      invariant MarksAgree(marks', covered)
      invariant forall v :: 0 <= v < n ==> (marks'[v] <==> v in VarsIn(nodes, delims[b], i))
      invariant forall v :: 0 <= v < n ==>
        bddsPerVar'[v] == bddsPerVar[v] + (if v in VarsIn(nodes, delims[b], i) then 1 else 0)
    {
      var v := nodes[i].variable;
      if !marks'[v] {
        marks', covered := Cover(marks', covered, v);
        bddsPerVar' := bddsPerVar'[v := bddsPerVar'[v] + 1];
      }
      i := i + 1;
    }
    marks', covered := Uncover(marks', covered);
  }

  /** nr_bdds_per_variable (lines 226-236): a BDD counts once at each
      variable where it has a node. */
  method CountBdds(nodes: seq<RawNode>, delims: seq<nat>, n: nat) returns (bddsPerVar: seq<nat>)
    requires DelimitersOk(delims, |nodes|) && VariablesBelow(nodes, n)
    ensures |bddsPerVar| == n
    ensures forall v :: 0 <= v < n ==> bddsPerVar[v] == NrBdds(nodes, delims, v)
  {
    bddsPerVar := seq(n, _ => 0);
    var marks: seq<bool> := seq(n, _ => false);
    var b := 0;
    while b < |delims| - 1
      invariant 0 <= b <= |delims| - 1 && |bddsPerVar| == n && |marks| == n
      invariant forall v :: 0 <= v < n ==> !marks[v]
      invariant forall v :: 0 <= v < n ==> bddsPerVar[v] == BddsBefore(nodes, delims, b, v)
    {
      bddsPerVar, marks := CountOneBdd(nodes, delims, n, b, bddsPerVar, marks);
      b := b + 1;
    }
  }

  /** bdd_offset_per_variable (lines 239-242): 0 followed by the partial sums
      of all counts but the last; the last offset plus the last count is the
      number of nodes. */
  method Offsets(nodes: seq<RawNode>, n: nat, counts: seq<nat>) returns (offsets: seq<nat>)
    requires VariablesBelow(nodes, n) && n >= 1
    requires |counts| == n && forall v :: 0 <= v < n ==> counts[v] == Count(nodes, |nodes|, v)
    ensures |offsets| == n
    ensures forall v :: 0 <= v < n ==> offsets[v] == Off(nodes, v)
    ensures offsets[n - 1] + counts[n - 1] == |nodes|
  {
    offsets := [0];
    var v := 1;
    while v < n
      invariant 1 <= v <= n && |offsets| == v
      invariant forall u :: 0 <= u < v ==> offsets[u] == Off(nodes, u)
    {
      offsets := offsets + [offsets[v - 1] + counts[v - 1]];
      v := v + 1;
    }
    OffTotal(nodes, n);
  }

  lemma StartsExtend(nodes: seq<RawNode>, delims: seq<nat>, v: nat, levelStart: seq<nat>, next: nat)
    requires DelimitersOk(delims, |nodes|) && |levelStart| == v + 1
    requires forall u :: 0 <= u <= v ==> levelStart[u] == LevelStart(nodes, delims, u)
    requires next == LevelStart(nodes, delims, v) + NrBdds(nodes, delims, v)
    ensures forall u :: 0 <= u <= v + 1 ==> (levelStart + [next])[u] == LevelStart(nodes, delims, u)
  {
  }

  /** The level table sized by nr_bdds_per_variable (line 245): row v holds
      NrBdds(v) default levels. */
  method LevelTable(nodes: seq<RawNode>, delims: seq<nat>, n: nat, bddsPerVar: seq<nat>)
    returns (levels: seq<Level>, levelStart: seq<nat>)
    requires DelimitersOk(delims, |nodes|)
    requires |bddsPerVar| == n && forall v :: 0 <= v < n ==> bddsPerVar[v] == NrBdds(nodes, delims, v)
    ensures |levelStart| == n + 1
    ensures forall v :: 0 <= v <= n ==> levelStart[v] == LevelStart(nodes, delims, v)
    ensures levels == LevelRows(nodes, delims, n)
  {
    levels, levelStart := [], [0];
    var v := 0;
    while v < n
      invariant 0 <= v <= n && |levelStart| == v + 1 && levels == LevelRows(nodes, delims, v)
      invariant forall u :: 0 <= u <= v ==> levelStart[u] == LevelStart(nodes, delims, u)
    {
      LevelRowsSize(nodes, delims, v);
      levels := levels + seq(bddsPerVar[v], _ => InitialLevel(v));
      StartsExtend(nodes, delims, v, levelStart, |levels|);
      levelStart := levelStart + [|levels|];
      v := v + 1;
    }
  }

  /** The first pass of init_branch_instructions (lines 186-257): node
      counts, BDD counts, offsets and the default level table. */
  method CountingPass(nodes: seq<RawNode>, delims: seq<nat>, n: nat)
    returns (levels: seq<Level>, levelStart: seq<nat>, offsets: seq<nat>)
    requires WellFormed(nodes, delims, n) && n >= 1
    ensures StartsOk(nodes, delims, n, levelStart) && levelStart == LevelStarts(nodes, delims, n)
    ensures OffsetsAt(nodes, n, offsets, 0) && levels == LevelsAfter(nodes, delims, n, 0)
    ensures forall v :: 0 <= v < n ==> levelStart[v] + NrBdds(nodes, delims, v) == levelStart[v + 1]
  {
    var counts := CountNodes(nodes, n);
    var bddsPerVar := CountBdds(nodes, delims, n);
    offsets := Offsets(nodes, n, counts);
    levels, levelStart := LevelTable(nodes, delims, n, bddsPerVar);
  }

  // ----- second pass: filling -----

  /** The loop state of the second pass at node i of BDD b, each part in
      closed form. */
  ghost predicate StartsOk(nodes: seq<RawNode>, delims: seq<nat>, n: nat, levelStart: seq<nat>)
    requires DelimitersOk(delims, |nodes|)
  {
    |levelStart| == n + 1 && forall v :: 0 <= v <= n ==> levelStart[v] == LevelStart(nodes, delims, v)
  }

  /** nr_bdds_per_variable, reset and counted up again: the BDDs before b. */
  ghost predicate CountersAt(nodes: seq<RawNode>, delims: seq<nat>, n: nat, bddsPerVar: seq<nat>, b: nat)
    requires DelimitersOk(delims, |nodes|) && b < |delims|
  {
    |bddsPerVar| == n && forall v :: 0 <= v < n ==> bddsPerVar[v] == BddsBefore(nodes, delims, b, v)
  }

  /** bdd_offset_per_variable: the next free slot of every variable. */
  ghost predicate OffsetsAt(nodes: seq<RawNode>, n: nat, offsets: seq<nat>, i: nat)
    requires i <= |nodes|
  {
    |offsets| == n && forall v :: 0 <= v < n ==> offsets[v] == Off(nodes, v) + Count(nodes, i, v)
  }

  /** variable_counted: the variables of the current BDD seen so far. */
  ghost predicate MarksAt(nodes: seq<RawNode>, n: nat, marks: seq<bool>, lo: nat, i: nat)
    requires lo <= i <= |nodes|
  {
    |marks| == n && forall v :: 0 <= v < n ==> (marks[v] <==> v in VarsIn(nodes, lo, i))
  }

  /** stored_bdd_node_index_to_bdd_address: the two terminals and the nodes
      of the current BDD seen so far, each mapped to where it went. */
  ghost predicate TransAt(nodes: seq<RawNode>, trans: map<Link, Link>, lo: nat, i: nat)
  {
    (forall c :: c in trans <==> (c == Terminal0 || c == Terminal1 || (c.At? && lo <= c.index < i))) &&
    (forall c :: c in trans ==> trans[c] == Translate(nodes, c))
  }

  /** Lines 284-292: level l's range starts empty at offset o, and l is
      linked in front of the cursor level. */
  method OpenAt(levels: seq<Level>, l: nat, o: nat, cursor: LevelLink) returns (levels': seq<Level>)
    requires l < |levels| && (cursor.LevelAt? ==> cursor.index < |levels|)
    ensures levels' == OpenLevel(levels, l, o, cursor)
  {
    levels' := levels[l := levels[l].(first := o, last := o)];
    if cursor.LevelAt? {
      levels' := levels'[l := levels'[l].(next := cursor)];
      levels' := levels'[cursor.index := levels'[cursor.index].(prev := LevelAt(l))];
    }
  }

  /** Lines 299-300: the slot after level l's range, which the range then
      takes in. */
  method TakeSlot(levels: seq<Level>, l: nat) returns (levels': seq<Level>, idx: nat)
    requires l < |levels|
    ensures idx == levels[l].last && levels' == BumpLast(levels, l)
  {
    idx := levels[l].last;
    levels' := levels[l := levels[l].(last := levels[l].last + 1)];
  }

  /** Lines 311-316: instruction s takes c as its low successor and, unless c
      is a terminal, goes to the head of c's low-incoming list. */
  method SetLow(ins: seq<Instr>, s: nat, c: Link) returns (ins': seq<Instr>)
    requires s < |ins| && (c.At? ==> c.index < |ins|)
    ensures |ins'| == |ins| && ins' == LinkLow(ins[s := ins[s].(low := c)], s, c)
  {
    ins' := ins[s := ins[s].(low := c)];
    if c.At? {
      ins' := ins'[s := ins'[s].(nextLowIn := ins'[c.index].firstLowIn)];
      ins' := ins'[c.index := ins'[c.index].(firstLowIn := At(s))];
    }
  }

  /** Lines 320-324, the same on the high side. */
  method SetHigh(ins: seq<Instr>, s: nat, c: Link) returns (ins': seq<Instr>)
    requires s < |ins| && (c.At? ==> c.index < |ins|)
    ensures |ins'| == |ins| && ins' == LinkHigh(ins[s := ins[s].(high := c)], s, c)
  {
    ins' := ins[s := ins[s].(high := c)];
    if c.At? {
      ins' := ins'[s := ins'[s].(nextHighIn := ins'[c.index].firstHighIn)];
      ins' := ins'[c.index := ins'[c.index].(firstHighIn := At(s))];
    }
  }

  /** One node's step of the level table, with its parts named. */
  lemma LevelsAfterNext(nodes: seq<RawNode>, delims: seq<nat>, n: nat, i: nat, l: nat, o: nat)
    requires DelimitersOk(delims, |nodes|) && i < |nodes|
    requires l == LevelOf(nodes, delims, BddOf(delims, |nodes|, i), nodes[i].variable)
    requires o == Off(nodes, nodes[i].variable) + Count(nodes, i, nodes[i].variable)
    ensures var ls := LevelsAfter(nodes, delims, n, i);
      var cursor := CursorAt(nodes, delims, BddOf(delims, |nodes|, i), i);
      LevelsAfter(nodes, delims, n, i + 1) ==
        BumpLast(if Opens(nodes, delims, i) then OpenLevel(ls, l, o, cursor) else ls, l)
  {
    assert LevelsAfter(nodes, delims, n, i + 1) == StepLevels(nodes, delims, LevelsAfter(nodes, delims, n, i), i);
  }

  /** The level half of placing node i (lines 277-300): on the first node of
      its variable in the BDD, cover the variable, open the level at the
      variable's next free slot and link it in front of the previously opened
      level; then take the level's next slot. */
  method PlaceLevel(nodes: seq<RawNode>, delims: seq<nat>, n: nat, i: nat, levelStart: seq<nat>,
                    bddsPerVar: seq<nat>, offsets: seq<nat>, levels: seq<Level>, marks: seq<bool>,
                    covered: seq<nat>, cursor: LevelLink)
    returns (levels': seq<Level>, marks': seq<bool>, covered': seq<nat>, cursor': LevelLink, l: nat, idx: nat)
    requires WellFormed(nodes, delims, n) && i < |nodes| && |nodes| <= SizeMax
    requires StartsOk(nodes, delims, n, levelStart) && OffsetsAt(nodes, n, offsets, i)
    requires CountersAt(nodes, delims, n, bddsPerVar, BddOf(delims, |nodes|, i))
    requires levels == LevelsAfter(nodes, delims, n, i)
    requires MarksAt(nodes, n, marks, delims[BddOf(delims, |nodes|, i)], i) && MarksAgree(marks, covered)
    requires cursor == CursorAt(nodes, delims, BddOf(delims, |nodes|, i), i)
    ensures levels' == LevelsAfter(nodes, delims, n, i + 1)
    ensures MarksAt(nodes, n, marks', delims[BddOf(delims, |nodes|, i)], i + 1) && MarksAgree(marks', covered')
    ensures cursor' == CursorAt(nodes, delims, BddOf(delims, |nodes|, i), i + 1)
    ensures l == LevelOf(nodes, delims, BddOf(delims, |nodes|, i), nodes[i].variable) && idx == Slot(nodes, i)
  {
    ghost var b := BddOf(delims, |nodes|, i);
    var v := nodes[i].variable;
    CursorFacts(nodes, delims, n, i);
    OpensIff(nodes, delims, n, i);
    LevelBeforeNode(nodes, delims, n, i);
    l := levelStart[v] + bddsPerVar[v];
    assert l == LevelOf(nodes, delims, b, v) by {
      assert levelStart[v] == LevelStart(nodes, delims, v);
      assert bddsPerVar[v] == BddsBefore(nodes, delims, b, v);
    }
    assert marks[v] <==> !Opens(nodes, delims, i);
    assert offsets[v] == Slot(nodes, i);
    MarksStep(nodes, n, marks, delims[b], i);
    levels', marks', covered', cursor' := levels, marks, covered, cursor;
    if !marks[v] {
      assert IsInitialState(levels[l]);
      marks', covered' := Cover(marks, covered, v);
      levels' := OpenAt(levels, l, offsets[v], cursor);
      cursor' := LevelAt(l);
      assert levels'[l].last == Slot(nodes, i);
    } else {
      assert !IsInitialState(levels[l]);
      assert marks[v := true] == marks;
    }
    levels', idx := TakeSlot(levels', l);
    LevelsAfterNext(nodes, delims, n, i, l, offsets[v]);
  }

  /** Marking node i's variable keeps the marks those of nodes lo .. i. */
  lemma MarksStep(nodes: seq<RawNode>, n: nat, marks: seq<bool>, lo: nat, i: nat)
    requires lo <= i < |nodes| && nodes[i].variable < n && MarksAt(nodes, n, marks, lo, i)
    ensures MarksAt(nodes, n, marks[nodes[i].variable := true], lo, i + 1)
  {
    assert VarsIn(nodes, lo, i + 1) == VarsIn(nodes, lo, i) + {nodes[i].variable};
  }

  /** One node's step of the instruction array, with its parts named. */
  lemma InstrsAfterNext(nodes: seq<RawNode>, delims: seq<nat>, i: nat, l: nat, s: nat)
    requires DelimitersOk(delims, |nodes|) && i < |nodes|
    requires l == LevelOf(nodes, delims, BddOf(delims, |nodes|, i), nodes[i].variable) && s == Slot(nodes, i)
    ensures InstrsAfter(nodes, delims, i + 1) ==
      WriteSlot(InstrsAfter(nodes, delims, i), s, LevelAt(l), Translate(nodes, nodes[i].low), Translate(nodes, nodes[i].high))
  {
  }

  /** The instruction half of placing node i (lines 302-324): the blank slot
      takes its level, node i's translation is recorded, and each child is
      looked up, stored and, unless a terminal, given the new instruction at
      the head of its incoming list. */
  method PlaceInstr(nodes: seq<RawNode>, delims: seq<nat>, n: nat, i: nat, l: nat, idx: nat,
                    ins: seq<Instr>, trans: map<Link, Link>)
    returns (ins': seq<Instr>, trans': map<Link, Link>)
    requires WellFormed(nodes, delims, n) && i < |nodes|
    requires l == LevelOf(nodes, delims, BddOf(delims, |nodes|, i), nodes[i].variable) && idx == Slot(nodes, i)
    requires ins == InstrsAfter(nodes, delims, i) && TransAt(nodes, trans, delims[BddOf(delims, |nodes|, i)], i)
    ensures ins' == InstrsAfter(nodes, delims, i + 1)
    ensures TransAt(nodes, trans', delims[BddOf(delims, |nodes|, i)], i + 1)
  {
    InstrBeforeNode(nodes, delims, n, i);
    ChildrenBefore(nodes, delims, n, i);
    if nodes[i].low.At? { SlotBounds(nodes, n, nodes[i].low.index); }
    if nodes[i].high.At? { SlotBounds(nodes, n, nodes[i].high.index); }
    assert ins[idx] == Blank;
    ins' := ins[idx := ins[idx].(level := LevelAt(l))];
    trans' := trans[At(i) := At(idx)];
    ghost var lo := delims[BddOf(delims, |nodes|, i)];
    TransStep(nodes, trans, lo, i);
    TransLookup(nodes, trans', lo, i, nodes[i].low);
    TransLookup(nodes, trans', lo, i, nodes[i].high);
    var bddLow := trans'[nodes[i].low];
    ins' := SetLow(ins', idx, bddLow);
    var bddHigh := trans'[nodes[i].high];
    ins' := SetHigh(ins', idx, bddHigh);
    InstrsAfterNext(nodes, delims, i, l, idx);
  }

  /** Node i joins the translated nodes at its slot. */
  lemma TransStep(nodes: seq<RawNode>, trans: map<Link, Link>, lo: nat, i: nat)
    requires lo <= i < |nodes| && TransAt(nodes, trans, lo, i)
    ensures TransAt(nodes, trans[At(i) := At(Slot(nodes, i))], lo, i + 1)
  {
  }

  /** A child of node i is already translated. */
  lemma TransLookup(nodes: seq<RawNode>, trans: map<Link, Link>, lo: nat, i: nat, c: Link)
    requires i < |nodes| && TransAt(nodes, trans, lo, i + 1) && ChildOk(nodes, c, lo, i)
    ensures c in trans && trans[c] == Translate(nodes, c)
  {
  }

  /** Lines 334-336: every variable the BDD covered gains one BDD. */
  method IncrementCovered(bddsPerVar: seq<nat>, marks: seq<bool>, covered: seq<nat>) returns (bddsPerVar': seq<nat>)
    requires MarksAgree(marks, covered) && |bddsPerVar| == |marks|
    ensures |bddsPerVar'| == |bddsPerVar|
    ensures forall v :: 0 <= v < |marks| ==> bddsPerVar'[v] == bddsPerVar[v] + (if marks[v] then 1 else 0)
  {
    bddsPerVar' := bddsPerVar;
    var k := 0;
    while k < |covered|
      invariant 0 <= k <= |covered| && |bddsPerVar'| == |bddsPerVar|
      invariant forall v :: 0 <= v < |marks| ==> bddsPerVar'[v] == bddsPerVar[v] + (if v in covered[..k] then 1 else 0)
    {
      assert covered[k] !in covered[..k];
      assert covered[..k + 1] == covered[..k] + [covered[k]];
      bddsPerVar' := bddsPerVar'[covered[k] := bddsPerVar'[covered[k]] + 1];
      k := k + 1;
    }
    assert covered[..k] == covered;
  }

  /** The state of the second pass inside BDD b, before its node i. */
  ghost predicate Filling(nodes: seq<RawNode>, delims: seq<nat>, n: nat, b: nat, i: nat,
                          offsets: seq<nat>, ins: seq<Instr>, levels: seq<Level>, marks: seq<bool>,
                          covered: seq<nat>, trans: map<Link, Link>, cursor: LevelLink)
    requires DelimitersOk(delims, |nodes|) && b + 1 < |delims|
  {
    delims[b] <= i <= delims[b + 1] && i <= |nodes| &&
    OffsetsAt(nodes, n, offsets, i) &&
    ins == InstrsAfter(nodes, delims, i) && levels == LevelsAfter(nodes, delims, n, i) &&
    MarksAt(nodes, n, marks, delims[b], i) && MarksAgree(marks, covered) &&
    TransAt(nodes, trans, delims[b], i) && cursor == CursorAt(nodes, delims, b, i)
  }

  /** The state at the first node of BDD b: clear marks, the terminals only
      and no previous level. */
  lemma FillStart(nodes: seq<RawNode>, delims: seq<nat>, n: nat, b: nat, offsets: seq<nat>,
                  ins: seq<Instr>, levels: seq<Level>, marks: seq<bool>)
    requires DelimitersOk(delims, |nodes|) && b + 1 < |delims|
    requires OffsetsAt(nodes, n, offsets, delims[b])
    requires ins == InstrsAfter(nodes, delims, delims[b]) && levels == LevelsAfter(nodes, delims, n, delims[b])
    requires |marks| == n && forall v :: 0 <= v < n ==> !marks[v]
    ensures Filling(nodes, delims, n, b, delims[b], offsets, ins, levels, marks, [],
                    map[Terminal0 := Terminal0, Terminal1 := Terminal1], NoLevel)
  {
    assert delims[b + 1] <= delims[|delims| - 1];
    assert VarsIn(nodes, delims[b], delims[b]) == {};
  }

  /** Lines 277-324 for node i of BDD b: its level, its instruction and its
      variable's next free slot. */
  method PlaceNode(nodes: seq<RawNode>, delims: seq<nat>, n: nat, b: nat, i: nat, levelStart: seq<nat>,
                   bddsPerVar: seq<nat>, offsets: seq<nat>, ins: seq<Instr>, levels: seq<Level>,
                   marks: seq<bool>, covered: seq<nat>, trans: map<Link, Link>, cursor: LevelLink)
    returns (offsets': seq<nat>, ins': seq<Instr>, levels': seq<Level>, marks': seq<bool>,
             covered': seq<nat>, trans': map<Link, Link>, cursor': LevelLink)
    requires WellFormed(nodes, delims, n) && b + 1 < |delims| && |nodes| <= SizeMax
    requires StartsOk(nodes, delims, n, levelStart) && CountersAt(nodes, delims, n, bddsPerVar, b)
    requires Filling(nodes, delims, n, b, i, offsets, ins, levels, marks, covered, trans, cursor)
    requires i < delims[b + 1]
    ensures Filling(nodes, delims, n, b, i + 1, offsets', ins', levels', marks', covered', trans', cursor')
  {
    InBdd(nodes, delims, b, i);
    var l, idx;
    levels', marks', covered', cursor', l, idx :=
      PlaceLevel(nodes, delims, n, i, levelStart, bddsPerVar, offsets, levels, marks, covered, cursor);
    ins', trans' := PlaceInstr(nodes, delims, n, i, l, idx, ins, trans);
    var v := nodes[i].variable;
    offsets' := offsets[v := offsets[v] + 1];
  }

  /** The node loop of one BDD (lines 274-325): every node of BDD b in order. */
  method PlaceNodes(nodes: seq<RawNode>, delims: seq<nat>, n: nat, b: nat, levelStart: seq<nat>,
                    bddsPerVar: seq<nat>, offsets: seq<nat>, ins: seq<Instr>, levels: seq<Level>,
                    marks: seq<bool>, covered: seq<nat>)
    returns (offsets': seq<nat>, ins': seq<Instr>, levels': seq<Level>, marks': seq<bool>,
             covered': seq<nat>, trans: map<Link, Link>, cursor: LevelLink)
    requires WellFormed(nodes, delims, n) && b + 1 < |delims| && |nodes| <= SizeMax
    requires StartsOk(nodes, delims, n, levelStart) && CountersAt(nodes, delims, n, bddsPerVar, b)
    requires Filling(nodes, delims, n, b, delims[b], offsets, ins, levels, marks, covered,
                     map[Terminal0 := Terminal0, Terminal1 := Terminal1], NoLevel)
    ensures Filling(nodes, delims, n, b, delims[b + 1], offsets', ins', levels', marks', covered', trans, cursor)
  {
    trans := map[Terminal0 := Terminal0, Terminal1 := Terminal1];
    cursor := NoLevel;
    offsets', ins', levels', marks', covered' := offsets, ins, levels, marks, covered;
    var i := delims[b];
    while i < delims[b + 1]
      invariant Filling(nodes, delims, n, b, i, offsets', ins', levels', marks', covered', trans, cursor)
      decreases delims[b + 1] - i
    {
      offsets', ins', levels', marks', covered', trans, cursor :=
        PlaceNode(nodes, delims, n, b, i, levelStart, bddsPerVar, offsets', ins', levels', marks', covered', trans, cursor);
      i := i + 1;
    }
  }

  /** One BDD's turn of the second pass (lines 267-336): start from clear
      marks, a map holding the two terminals and no previous level, place its
      nodes in order, then count the BDD at every variable it covered. */
  method FillBdd(nodes: seq<RawNode>, delims: seq<nat>, n: nat, b: nat, levelStart: seq<nat>,
                 bddsPerVar: seq<nat>, offsets: seq<nat>, ins: seq<Instr>, levels: seq<Level>,
                 marks: seq<bool>, covered: seq<nat>)
    returns (bddsPerVar': seq<nat>, offsets': seq<nat>, ins': seq<Instr>, levels': seq<Level>,
             marks': seq<bool>, covered': seq<nat>)
    requires WellFormed(nodes, delims, n) && b + 1 < |delims| && |nodes| <= SizeMax
    requires StartsOk(nodes, delims, n, levelStart) && CountersAt(nodes, delims, n, bddsPerVar, b)
    requires OffsetsAt(nodes, n, offsets, delims[b])
    requires ins == InstrsAfter(nodes, delims, delims[b]) && levels == LevelsAfter(nodes, delims, n, delims[b])
    requires |marks| == n && MarksAgree(marks, covered)
    ensures CountersAt(nodes, delims, n, bddsPerVar', b + 1) && OffsetsAt(nodes, n, offsets', delims[b + 1])
    ensures ins' == InstrsAfter(nodes, delims, delims[b + 1]) && levels' == LevelsAfter(nodes, delims, n, delims[b + 1])
    ensures |marks'| == n && MarksAgree(marks', covered')
  {
    assert delims[b + 1] <= delims[|delims| - 1];
    marks', covered' := Uncover(marks, covered);
    FillStart(nodes, delims, n, b, offsets, ins, levels, marks');
    var trans, cursor;
    offsets', ins', levels', marks', covered', trans, cursor :=
      PlaceNodes(nodes, delims, n, b, levelStart, bddsPerVar, offsets, ins, levels, marks', covered');
    bddsPerVar' := IncrementCovered(bddsPerVar, marks', covered');
  }

  /** The second pass over all BDDs (lines 258-336), from the zeroed per-BDD
      counters, all marks clear, the blank array and the default table. */
  method FillAll(nodes: seq<RawNode>, delims: seq<nat>, n: nat, levelStart: seq<nat>, offsets: seq<nat>,
                 ins: seq<Instr>, levels: seq<Level>)
    returns (ins': seq<Instr>, levels': seq<Level>, bddsPerVar: seq<nat>)
    requires WellFormed(nodes, delims, n) && |nodes| <= SizeMax
    requires StartsOk(nodes, delims, n, levelStart) && OffsetsAt(nodes, n, offsets, 0)
    requires ins == InstrsAfter(nodes, delims, 0) && levels == LevelsAfter(nodes, delims, n, 0)
    ensures ins' == InstrsAfter(nodes, delims, |nodes|) && levels' == LevelsAfter(nodes, delims, n, |nodes|)
    ensures |bddsPerVar| == n && forall v :: 0 <= v < n ==> bddsPerVar[v] == NrBdds(nodes, delims, v)
  {
    bddsPerVar := seq(n, _ => 0);
    var marks: seq<bool> := seq(n, _ => false);
    var covered: seq<nat> := [];
    var offsets' := offsets;
    ins', levels' := ins, levels;
    var b := 0;
    while b < |delims| - 1
      invariant 0 <= b <= |delims| - 1
      invariant CountersAt(nodes, delims, n, bddsPerVar, b) && OffsetsAt(nodes, n, offsets', delims[b])
      invariant ins' == InstrsAfter(nodes, delims, delims[b]) && levels' == LevelsAfter(nodes, delims, n, delims[b])
      invariant |marks| == n && MarksAgree(marks, covered)
    {
      bddsPerVar, offsets', ins', levels', marks, covered :=
        FillBdd(nodes, delims, n, b, levelStart, bddsPerVar, offsets', ins', levels', marks, covered);
      b := b + 1;
    }
  }

  // ----- the whole builder -----

  /** init_branch_instructions (lines 186-345): both passes over a
      well-formed collection. The array has one instruction per raw node, row
      v of the level table one level per BDD with a node at v, and the result
      is the closed form of the fill pass, so it has the shape BddShape
      proves. */
  method Build(nodes: seq<RawNode>, delims: seq<nat>, n: nat)
    returns (instrs: seq<Instr>, levels: seq<Level>, levelStart: seq<nat>)
    requires WellFormed(nodes, delims, n) && n >= 1 && |nodes| <= SizeMax
    ensures |instrs| == |nodes| && |levelStart| == n + 1
    ensures forall v :: 0 <= v < n ==> levelStart[v] + NrBdds(nodes, delims, v) == levelStart[v + 1]
    ensures instrs == FinalInstrs(nodes, delims) && levels == FinalLevels(nodes, delims, n)
    ensures levelStart == LevelStarts(nodes, delims, n)
    ensures Shaped(instrs, levels, levelStart, Ranks(nodes, n))
  {
    var levels0, offsets, bddsPerVar;
    levels0, levelStart, offsets := CountingPass(nodes, delims, n);
    instrs, levels, bddsPerVar := FillAll(nodes, delims, n, levelStart, offsets, seq(|nodes|, _ => Blank), levels0);
    FinalShaped(nodes, delims, n);
  }
}
