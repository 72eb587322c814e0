/** The triangle factor of the lifted disjoint paths solver
    (include/lifted_disjoint_paths/ldp_triangle_factor.hxx): three edges vu, uw
    and vw of a triangle, a list of feasible 0/1 labelings of the three edges,
    one cost per edge and the index of the labeling chosen as primal solution. */
module LdpTriangleFactor {
  import opened ExtendedReals

  /** A std::bitset<3>; bit 0 labels the edge vu, bit 1 the edge uw, bit 2 the edge vw. */
  type Labeling = bv3

  /** `label[e]`: the bit of edge e. */
  predicate Bit(l: Labeling, e: nat)
    requires e < 3
  {
    (l >> e) & 1 == 1
  }

  /** The std::bitset<3> string constructor: the first character is the most
      significant bit, so "100" sets bit 2. */
  function FromString(s: string): (l: Labeling)
    requires |s| == 3 && forall k | 0 <= k < 3 :: s[k] == '0' || s[k] == '1'
    ensures forall e | 0 <= e < 3 :: Bit(l, e) <==> s[2 - e] == '1'
  {
    (if s[0] == '1' then 4 else 0) | (if s[1] == '1' then 2 else 0) | (if s[2] == '1' then 1 else 0)
  }

  /** `label[0]*edgeCosts[0] + label[1]*edgeCosts[1] + label[2]*edgeCosts[2]`. */
  function LabelingCost(l: Labeling, c: seq<real>): real
    requires |c| == 3
  {
    (if Bit(l, 0) then c[0] else 0.0) + (if Bit(l, 1) then c[1] else 0.0) + (if Bit(l, 2) then c[2] else 0.0)
  }

  /** The running minimum of LowerBound: it starts from 0 and takes each
      labeling's cost in turn. */
  function MinCost(labs: seq<Labeling>, c: seq<real>): real
    requires |c| == 3
  {
    if labs == [] then 0.0
    else
      var m := MinCost(labs[..|labs| - 1], c);
      var v := LabelingCost(labs[|labs| - 1], c);
      if v < m then v else m
  }

  /** The index LowerBound keeps: the last one at which the running minimum
      strictly decreased, 0 if it never did. */
  function ArgMin(labs: seq<Labeling>, c: seq<real>): nat
    requires |c| == 3
  {
    if labs == [] then 0
    else if LabelingCost(labs[|labs| - 1], c) < MinCost(labs[..|labs| - 1], c) then |labs| - 1
    else ArgMin(labs[..|labs| - 1], c)
  }

  /** The smallest cost among the labelings whose bit e equals `bit`;
      infinity when there is none (the start value of delta's minima). */
  function MinWithBit(labs: seq<Labeling>, c: seq<real>, e: nat, bit: bool): ExtReal
    requires |c| == 3 && e < 3
  {
    if labs == [] then Infinity
    else
      var m := MinWithBit(labs[..|labs| - 1], c, e, bit);
      var l := labs[|labs| - 1];
      if Bit(l, e) == bit then Min(m, Finite(LabelingCost(l, c))) else m
  }

  /** The five labelings every triangle factor has: 000, 111, 100, 010, 001. */
  const BaseLabelings: seq<Labeling> := [0, 7, 4, 2, 1]

  /** LowerBound's result is at most 0 and at most the cost of every labeling. */
  lemma {:induction false} MinCostIsLowerBound(labs: seq<Labeling>, c: seq<real>)
    requires |c| == 3
    ensures MinCost(labs, c) <= 0.0
    ensures forall i | 0 <= i < |labs| :: MinCost(labs, c) <= LabelingCost(labs[i], c)
  {
    if labs != [] {
      var p := labs[..|labs| - 1];
      MinCostIsLowerBound(p, c);
      assert forall i | 0 <= i < |p| :: labs[i] == p[i];
    }
  }

  /** When the first labeling costs 0 (the labeling 000), the kept index is
      the first labeling whose cost is the minimum. */
  lemma {:induction false} ArgMinIsFirstMinimum(labs: seq<Labeling>, c: seq<real>)
    requires |c| == 3 && |labs| > 0 && LabelingCost(labs[0], c) == 0.0
    ensures ArgMin(labs, c) < |labs|
    ensures LabelingCost(labs[ArgMin(labs, c)], c) == MinCost(labs, c)
    ensures forall j | 0 <= j < ArgMin(labs, c) :: LabelingCost(labs[j], c) > MinCost(labs, c)
  {
    var p := labs[..|labs| - 1];
    if |labs| == 1 {
      assert p == [];
    } else {
      ArgMinIsFirstMinimum(p, c);
      MinCostIsLowerBound(p, c);
      assert forall i | 0 <= i < |p| :: labs[i] == p[i];
    }
  }

  /** Raising edge e's cost by u raises the cost of a labeling by u when its
      bit e is set and leaves it unchanged otherwise. */
  lemma LabelingCostUpdate(l: Labeling, c: seq<real>, e: nat, u: real)
    requires |c| == 3 && e < 3
    ensures LabelingCost(l, c[e := c[e] + u])
            == if Bit(l, e) then LabelingCost(l, c) + u else LabelingCost(l, c)
  {
  }

  /** updateCost(e, u) raises every bit-e-set minimum by u and leaves every
      bit-e-clear minimum as it was. */
  lemma {:induction false} MinWithBitUpdate(labs: seq<Labeling>, c: seq<real>, e: nat, u: real)
    requires |c| == 3 && e < 3
    ensures MinWithBit(labs, c[e := c[e] + u], e, true) == Add(MinWithBit(labs, c, e, true), Finite(u))
    ensures MinWithBit(labs, c[e := c[e] + u], e, false) == MinWithBit(labs, c, e, false)
  {
    if labs != [] {
      var p := labs[..|labs| - 1];
      MinWithBitUpdate(p, c, e, u);
      LabelingCostUpdate(labs[|labs| - 1], c, e, u);
      MinShift(MinWithBit(p, c, e, true), Finite(LabelingCost(labs[|labs| - 1], c)), u);
    }
  }

  /** Both minima of delta are finite as soon as the labelings contain one
      labeling with bit e set and one with it clear. */
  lemma {:induction false} MinWithBitFinite(labs: seq<Labeling>, c: seq<real>, e: nat, bit: bool, k: nat)
    requires |c| == 3 && e < 3 && k < |labs| && Bit(labs[k], e) == bit
    ensures MinWithBit(labs, c, e, bit).Finite?
    ensures MinWithBit(labs, c, e, bit).value <= LabelingCost(labs[k], c)
  {
    var p := labs[..|labs| - 1];
    if k < |labs| - 1 {
      assert labs[k] == p[k];
      MinWithBitFinite(p, c, e, bit, k);
    }
  }

  /** A finite minimum is attained: some labeling with bit e equal to `bit`
      costs exactly that much. */
  lemma {:induction false} MinWithBitAttained(labs: seq<Labeling>, c: seq<real>, e: nat, bit: bool)
    requires |c| == 3 && e < 3 && MinWithBit(labs, c, e, bit).Finite?
    ensures exists k | 0 <= k < |labs| :: Bit(labs[k], e) == bit && LabelingCost(labs[k], c) == MinWithBit(labs, c, e, bit).value
  {
    var p := labs[..|labs| - 1];
    var l := labs[|labs| - 1];
    var m := MinWithBit(p, c, e, bit);
    if Bit(l, e) == bit && MinWithBit(labs, c, e, bit) == Finite(LabelingCost(l, c)) {
      assert Bit(labs[|labs| - 1], e) == bit;
    } else {
      assert MinWithBit(labs, c, e, bit) == m;
      MinWithBitAttained(p, c, e, bit);
      var k :| 0 <= k < |p| && Bit(p[k], e) == bit && LabelingCost(p[k], c) == m.value;
      assert labs[k] == p[k];
    }
  }

  /** delta's value: best cost with bit e set minus best cost with bit e clear. */
  function Delta(labs: seq<Labeling>, c: seq<real>, e: nat): (d: real)
    requires |c| == 3 && e < 3 && 5 <= |labs| && labs[..5] == BaseLabelings
    ensures MinWithBit(labs, c, e, true).Finite? && MinWithBit(labs, c, e, false).Finite?
    ensures d == MinWithBit(labs, c, e, true).value - MinWithBit(labs, c, e, false).value
  {
    assert labs[1] == 7 && labs[0] == 0;
    MinWithBitFinite(labs, c, e, true, 1);
    MinWithBitFinite(labs, c, e, false, 0);
    MinWithBit(labs, c, e, true).value - MinWithBit(labs, c, e, false).value
  }

  /** After updateCost(e, u), delta(e) is larger by exactly u. */
  lemma DeltaAfterUpdate(labs: seq<Labeling>, c: seq<real>, e: nat, u: real)
    requires |c| == 3 && e < 3 && 5 <= |labs| && labs[..5] == BaseLabelings
    ensures Delta(labs, c[e := c[e] + u], e) == Delta(labs, c, e) + u
  {
    MinWithBitUpdate(labs, c, e, u);
  }

  class TriangleFactor {
    var primal: nat                 // primal_: index of the chosen feasible labeling
    const vuInd: nat
    const uwInd: nat
    const vwInd: nat
    const edgeCosts: array<real>
    const labelings: seq<Labeling>

    ghost predicate Valid()
      reads this
    {
      edgeCosts.Length == 3 && 5 <= |labelings| && labelings[..5] == BaseLabelings && primal < |labelings|
    }

    /** The source leaves edgeCosts uninitialised; here the initial costs are
        given explicitly. */
    constructor (vu: nat, uw: nat, vw: nat, initialCosts: seq<real>, vuBase: bool := false, uwBase: bool := false)
      requires |initialCosts| == 3
      ensures Valid() && fresh(edgeCosts)
      ensures vuInd == vu && uwInd == uw && vwInd == vw && edgeCosts[..] == initialCosts
      ensures labelings == BaseLabelings + (if vuBase then [3] else []) + (if uwBase then [5] else [])
      ensures primal == 0
    {
      var costs := new real[3];
      costs[0], costs[1], costs[2] := initialCosts[0], initialCosts[1], initialCosts[2];
      var labs := [FromString("000"), FromString("111"), FromString("100"), FromString("010"), FromString("001")];
      assert labs == BaseLabelings;
      if vuBase {
        labs := labs + [FromString("011")];
      }
      if uwBase {
        labs := labs + [FromString("101")];
      }
      vuInd, uwInd, vwInd := vu, uw, vw;
      edgeCosts := costs;
      labelings := labs;
      primal := 0;
    }

    /** The cost of the chosen labeling. */
    function EvaluatePrimal(): (r: real)
      reads this, edgeCosts
      requires Valid()
      ensures r >= MinCost(labelings, edgeCosts[..])
    {
      MinCostIsLowerBound(labelings, edgeCosts[..]);
      LabelingCost(labelings[primal], edgeCosts[..])
    }

    /** The minimum labeling cost; also records the minimising labeling as primal. */
    method LowerBound() returns (minValue: real)
      requires Valid()
      modifies this
      ensures Valid()
      ensures minValue == MinCost(labelings, edgeCosts[..])
      ensures primal == ArgMin(labelings, edgeCosts[..])
      ensures EvaluatePrimal() == minValue
    {
      var c := edgeCosts[..];
      minValue := 0.0;
      var minIndex: nat := 0;
      var i := 0;
      while i < |labelings|
        invariant 0 <= i <= |labelings|
        invariant minValue == MinCost(labelings[..i], c)
        invariant minIndex == ArgMin(labelings[..i], c)
      {
        var lab := labelings[i];
        var value := (if Bit(lab, 0) then edgeCosts[0] else 0.0)
                     + (if Bit(lab, 1) then edgeCosts[1] else 0.0)
                     + (if Bit(lab, 2) then edgeCosts[2] else 0.0);
        assert labelings[..i + 1][..i] == labelings[..i];
        if value < minValue {
          minValue := value;
          minIndex := i;
        }
        i := i + 1;
      }
      assert labelings[..i] == labelings;
      assert labelings[0] == 0;
      ArgMinIsFirstMinimum(labelings, c);
      primal := minIndex;
    }

    method InitPrimal()
      modifies this
      ensures primal == 0
    {
      primal := 0;
    }

    /** Min-marginal difference of edge e: the best labeling with the edge set
        minus the best labeling with it clear. */
    method DeltaOf(edgeId: nat) returns (d: real)
      requires Valid() && edgeId <= 2
      ensures d == Delta(labelings, edgeCosts[..], edgeId)
    {
      var c := edgeCosts[..];
      var min1 := Infinity;
      var min0 := Infinity;
      var i := 0;
      while i < |labelings|
        invariant 0 <= i <= |labelings|
        invariant min1 == MinWithBit(labelings[..i], c, edgeId, true)
        invariant min0 == MinWithBit(labelings[..i], c, edgeId, false)
      {
        var l := labelings[i];
        var value := (if Bit(l, 0) then edgeCosts[0] else 0.0)
                     + (if Bit(l, 1) then edgeCosts[1] else 0.0)
                     + (if Bit(l, 2) then edgeCosts[2] else 0.0);
        assert labelings[..i + 1][..i] == labelings[..i];
        if Bit(l, edgeId) {
          min1 := Min(min1, Finite(value));
        } else {
          min0 := Min(min0, Finite(value));
        }
        i := i + 1;
      }
      assert labelings[..i] == labelings;
      var _ := Delta(labelings, c, edgeId);
      d := min1.value - min0.value;
    }

    /** Adds `update` to the cost of edge `edgeId` and changes nothing else. */
    method UpdateCost(edgeId: nat, update: real)
      requires Valid() && edgeId <= 2
      modifies edgeCosts
      ensures Valid()
      ensures edgeCosts[..] == old(edgeCosts[..])[edgeId := old(edgeCosts[edgeId]) + update]
    {
      edgeCosts[edgeId] := edgeCosts[edgeId] + update;
    }
  }
}
