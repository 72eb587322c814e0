/** The raw BDD collection that the instruction builder of
    include/bdd/bdd_min_marginal_averaging.h consumes: one flat list of nodes,
    BDD after BDD, cut into BDDs by a list of delimiters. Each node names its
    variable and its low and high children; a child is one of the two shared
    terminals or an earlier node of the same BDD. The counting functions here
    say in closed form where the builder puts each node and each
    (variable, BDD) level. */
module BddStorage {

  /** A node reference: none (a null pointer), one of the two shared
      terminals, or an index. */
  datatype Link = Null | Terminal0 | Terminal1 | At(index: nat)

  datatype RawNode = RawNode(variable: nat, low: Link, high: Link)

  /** c is a terminal, or a node of the BDD starting at lo that comes before
      node i and sits at a later variable. */
  predicate ChildOk(nodes: seq<RawNode>, c: Link, lo: nat, i: nat)
    requires i < |nodes|
  {
    c.Terminal0? || c.Terminal1? ||
    (c.At? && lo <= c.index < i && nodes[c.index].variable > nodes[i].variable)
  }

  /** Delimiters start at 0, end at the node count and never decrease. */
  predicate DelimitersOk(delims: seq<nat>, count: nat)
  {
    |delims| >= 1 && delims[0] == 0 && delims[|delims| - 1] == count &&
    forall a, c :: 0 <= a <= c < |delims| ==> delims[a] <= delims[c]
  }

  predicate VariablesBelow(nodes: seq<RawNode>, n: nat)
  {
    forall i :: 0 <= i < |nodes| ==> nodes[i].variable < n
  }

  /** What the builder relies on within one BDD, nodes lo .. hi - 1:
      children are already translated when their parent is read (so they come
      first, within the same BDD), children sit at later variables, the nodes
      come by non-increasing variable, and the last node (the root) is alone
      at its variable. */
  predicate BddOk(nodes: seq<RawNode>, lo: nat, hi: nat)
    requires lo <= hi <= |nodes|
  {
    (forall i :: lo <= i < hi ==> ChildOk(nodes, nodes[i].low, lo, i) && ChildOk(nodes, nodes[i].high, lo, i)) &&
    (forall i, k :: lo <= i <= k < hi ==> nodes[i].variable >= nodes[k].variable) &&
    (lo + 2 <= hi ==> nodes[hi - 2].variable > nodes[hi - 1].variable)
  }

  /** BDD b of the collection is well formed. */
  predicate BddAt(nodes: seq<RawNode>, delims: seq<nat>, b: nat)
    requires DelimitersOk(delims, |nodes|) && b + 1 < |delims|
  {
    assert delims[b + 1] <= delims[|delims| - 1];
    BddOk(nodes, delims[b], delims[b + 1])
  }

  predicate WellFormed(nodes: seq<RawNode>, delims: seq<nat>, n: nat)
  {
    DelimitersOk(delims, |nodes|) && VariablesBelow(nodes, n) &&
    forall b :: 0 <= b < |delims| - 1 ==> BddAt(nodes, delims, b)
  }

  /** The BDD that node i belongs to. */
  function BddOf(delims: seq<nat>, count: nat, i: nat): (b: nat)
    requires DelimitersOk(delims, count) && i < count
    ensures b + 1 < |delims| && delims[b] <= i < delims[b + 1]
  {
    BddFrom(delims, count, i, 0)
  }

  function BddFrom(delims: seq<nat>, count: nat, i: nat, b: nat): (r: nat)
    requires DelimitersOk(delims, count) && i < count
    requires b + 1 < |delims| && delims[b] <= i
    ensures r + 1 < |delims| && delims[r] <= i < delims[r + 1]
    decreases |delims| - b
  {
    if i < delims[b + 1] then b else BddFrom(delims, count, i, b + 1)
  }

  /** The delimiters leave node i a single BDD. */
  lemma BddOfUnique(delims: seq<nat>, count: nat, i: nat, c: nat)
    requires DelimitersOk(delims, count) && c + 1 < |delims| && delims[c] <= i < delims[c + 1] && i < count
    ensures BddOf(delims, count, i) == c
  {
    var b := BddOf(delims, count, i);
    assert delims[c] <= i < delims[b + 1] && delims[b] <= i < delims[c + 1];
  }

  // ----- nodes per variable and the slots of the instruction array -----

  /** Number of nodes at variable v among the first hi. */
  function Count(nodes: seq<RawNode>, hi: nat, v: nat): nat
    requires hi <= |nodes|
  {
    if hi == 0 then 0 else Count(nodes, hi - 1, v) + (if nodes[hi - 1].variable == v then 1 else 0)
  }

  /** Σ_{u < v} Count(nodes, hi, u). */
  function OffAt(nodes: seq<RawNode>, hi: nat, v: nat): nat
    requires hi <= |nodes|
  {
    if v == 0 then 0 else OffAt(nodes, hi, v - 1) + Count(nodes, hi, v - 1)
  }

  /** Where the instructions of variable v start: the partial sums of the
      per-variable node counts. */
  function Off(nodes: seq<RawNode>, v: nat): nat
  {
    OffAt(nodes, |nodes|, v)
  }

  /** The instruction slot that node j is written to: after the earlier nodes
      of its variable. */
  function Slot(nodes: seq<RawNode>, j: nat): nat
    requires j < |nodes|
  {
    Off(nodes, nodes[j].variable) + Count(nodes, j, nodes[j].variable)
  }

  lemma {:induction false} CountMonotone(nodes: seq<RawNode>, a: nat, c: nat, v: nat)
    requires a <= c <= |nodes|
    ensures Count(nodes, a, v) <= Count(nodes, c, v)
    decreases c - a
  {
    if a < c {
      CountMonotone(nodes, a, c - 1, v);
    }
  }

  lemma {:induction false} CountStrict(nodes: seq<RawNode>, j: nat, c: nat)
    requires j < c <= |nodes|
    ensures Count(nodes, j, nodes[j].variable) < Count(nodes, c, nodes[j].variable)
  {
    CountMonotone(nodes, j + 1, c, nodes[j].variable);
  }

  lemma {:induction false} OffMonotone(nodes: seq<RawNode>, u: nat, v: nat)
    requires u <= v
    ensures Off(nodes, u) <= Off(nodes, v)
    decreases v - u
  {
    if u < v {
      OffMonotone(nodes, u, v - 1);
    }
  }

  lemma {:induction false} OffAtStep(nodes: seq<RawNode>, hi: nat, v: nat)
    requires hi < |nodes|
    ensures OffAt(nodes, hi + 1, v) == OffAt(nodes, hi, v) + (if nodes[hi].variable < v then 1 else 0)
  {
    if v > 0 {
      OffAtStep(nodes, hi, v - 1);
    }
  }

  lemma {:induction false} OffAtNone(nodes: seq<RawNode>, v: nat)
    ensures OffAt(nodes, 0, v) == 0
  {
    if v > 0 {
      OffAtNone(nodes, v - 1);
    }
  }

  lemma {:induction false} OffAtAll(nodes: seq<RawNode>, hi: nat, n: nat)
    requires hi <= |nodes| && VariablesBelow(nodes, n)
    ensures OffAt(nodes, hi, n) == hi
  {
    if hi == 0 {
      OffAtNone(nodes, n);
    } else {
      OffAtAll(nodes, hi - 1, n);
      OffAtStep(nodes, hi - 1, n);
    }
  }

  /** The per-variable counts add up to the number of nodes. */
  lemma OffTotal(nodes: seq<RawNode>, n: nat)
    requires VariablesBelow(nodes, n)
    ensures Off(nodes, n) == |nodes|
  {
    OffAtAll(nodes, |nodes|, n);
  }

  /** Node j's slot lies in its variable's block [Off(v), Off(v + 1)). */
  lemma SlotBounds(nodes: seq<RawNode>, n: nat, j: nat)
    requires VariablesBelow(nodes, n) && j < |nodes|
    ensures Off(nodes, nodes[j].variable) <= Slot(nodes, j) < Off(nodes, nodes[j].variable + 1)
    ensures Slot(nodes, j) < |nodes|
  {
    CountStrict(nodes, j, |nodes|);
    OffMonotone(nodes, nodes[j].variable + 1, n);
    OffTotal(nodes, n);
  }

  /** Different nodes get different slots. */
  lemma SlotInjective(nodes: seq<RawNode>, n: nat, j: nat, k: nat)
    requires VariablesBelow(nodes, n) && j < |nodes| && k < |nodes| && j != k
    ensures Slot(nodes, j) != Slot(nodes, k)
  {
    var u, v := nodes[j].variable, nodes[k].variable;
    if u == v {
      if j < k { CountStrict(nodes, j, k); } else { CountStrict(nodes, k, j); }
    } else {
      SlotBounds(nodes, n, j);
      SlotBounds(nodes, n, k);
      if u < v { OffMonotone(nodes, u + 1, v); } else { OffMonotone(nodes, v + 1, u); }
    }
  }

  /** The variable whose block holds slot s. */
  ghost function SlotVariable(nodes: seq<RawNode>, n: nat, s: nat, v: nat): (u: nat)
    requires VariablesBelow(nodes, n) && s < |nodes| && v <= n && Off(nodes, v) <= s
    ensures v <= u < n && Off(nodes, u) <= s < Off(nodes, u + 1)
    decreases n - v
  {
    OffTotal(nodes, n);
    if s < Off(nodes, v + 1) then v else SlotVariable(nodes, n, s, v + 1)
  }

  /** The node among the first hi that is the t-th one at variable v. */
  ghost function NthAt(nodes: seq<RawNode>, hi: nat, v: nat, t: nat): (j: nat)
    requires hi <= |nodes| && t < Count(nodes, hi, v)
    ensures j < hi && nodes[j].variable == v && Count(nodes, j, v) == t
  {
    if t < Count(nodes, hi - 1, v) then NthAt(nodes, hi - 1, v, t) else hi - 1
  }

  /** Every slot below the node count is the slot of some node. */
  ghost function SlotOwner(nodes: seq<RawNode>, n: nat, s: nat): (j: nat)
    requires VariablesBelow(nodes, n) && s < |nodes|
    ensures j < |nodes| && Slot(nodes, j) == s
  {
    var u := SlotVariable(nodes, n, s, 0);
    NthAt(nodes, |nodes|, u, s - Off(nodes, u))
  }

  // ----- BDDs per variable and the level table -----

  /** The variables of nodes lo, ..., hi - 1. */
  function VarsIn(nodes: seq<RawNode>, lo: nat, hi: nat): set<nat>
    requires lo <= hi <= |nodes|
    decreases hi - lo
  {
    if hi == lo then {} else VarsIn(nodes, lo, hi - 1) + {nodes[hi - 1].variable}
  }

  /** BDD b has a node at variable v. */
  predicate Touches(nodes: seq<RawNode>, delims: seq<nat>, b: nat, v: nat)
    requires DelimitersOk(delims, |nodes|) && b + 1 < |delims|
  {
    v in VarsIn(nodes, delims[b], delims[b + 1])
  }

  /** Number of BDDs before b with a node at v; each counts once. */
  function BddsBefore(nodes: seq<RawNode>, delims: seq<nat>, b: nat, v: nat): nat
    requires DelimitersOk(delims, |nodes|) && b < |delims|
  {
    if b == 0 then 0
    else BddsBefore(nodes, delims, b - 1, v) + (if Touches(nodes, delims, b - 1, v) then 1 else 0)
  }

  /** Number of levels (BDDs) at variable v. */
  function NrBdds(nodes: seq<RawNode>, delims: seq<nat>, v: nat): nat
    requires DelimitersOk(delims, |nodes|)
  {
    BddsBefore(nodes, delims, |delims| - 1, v)
  }

  /** Row offsets of the level table: the levels of variable v start here. */
  function LevelStart(nodes: seq<RawNode>, delims: seq<nat>, v: nat): nat
    requires DelimitersOk(delims, |nodes|)
  {
    if v == 0 then 0 else LevelStart(nodes, delims, v - 1) + NrBdds(nodes, delims, v - 1)
  }

  /** The level of BDD b at variable v: row v, column "BDDs before b at v". */
  function LevelOf(nodes: seq<RawNode>, delims: seq<nat>, b: nat, v: nat): nat
    requires DelimitersOk(delims, |nodes|) && b < |delims|
  {
    LevelStart(nodes, delims, v) + BddsBefore(nodes, delims, b, v)
  }

  lemma {:induction false} VarsInMember(nodes: seq<RawNode>, lo: nat, hi: nat, j: nat)
    requires lo <= j < hi <= |nodes|
    ensures nodes[j].variable in VarsIn(nodes, lo, hi)
    decreases hi - lo
  {
    if j < hi - 1 {
      VarsInMember(nodes, lo, hi - 1, j);
    }
  }

  /** The first node in [lo, hi) at a variable of VarsIn(lo, hi). */
  ghost function FirstAt(nodes: seq<RawNode>, lo: nat, hi: nat, v: nat): (j: nat)
    requires lo <= hi <= |nodes| && v in VarsIn(nodes, lo, hi)
    ensures lo <= j < hi && nodes[j].variable == v
    ensures forall k :: lo <= k < j ==> nodes[k].variable != v
    decreases hi - lo
  {
    if v in VarsIn(nodes, lo, hi - 1) then FirstAt(nodes, lo, hi - 1, v)
    else
      assert forall k :: lo <= k < hi - 1 ==> nodes[k].variable != v by {
        forall k | lo <= k < hi - 1 ensures nodes[k].variable != v {
          VarsInMember(nodes, lo, hi - 1, k);
        }
      }
      hi - 1
  }

  lemma {:induction false} VarsInMemberInverse(nodes: seq<RawNode>, lo: nat, hi: nat, k: nat, v: nat)
    requires lo <= k <= hi <= |nodes| && v in VarsIn(nodes, lo, k)
    ensures v in VarsIn(nodes, lo, hi)
  {
    var j := FirstAt(nodes, lo, k, v);
    VarsInMember(nodes, lo, hi, j);
  }

  lemma {:induction false} BddsBeforeMonotone(nodes: seq<RawNode>, delims: seq<nat>, b: nat, c: nat, v: nat)
    requires DelimitersOk(delims, |nodes|) && b <= c < |delims|
    ensures BddsBefore(nodes, delims, b, v) <= BddsBefore(nodes, delims, c, v)
    ensures b < c && Touches(nodes, delims, b, v) ==>
      BddsBefore(nodes, delims, b, v) < BddsBefore(nodes, delims, c, v)
    decreases c - b
  {
    if b < c {
      BddsBeforeMonotone(nodes, delims, b, c - 1, v);
    }
  }

  lemma {:induction false} LevelStartMonotone(nodes: seq<RawNode>, delims: seq<nat>, u: nat, v: nat)
    requires DelimitersOk(delims, |nodes|) && u <= v
    ensures LevelStart(nodes, delims, u) <= LevelStart(nodes, delims, v)
    decreases v - u
  {
    if u < v {
      LevelStartMonotone(nodes, delims, u, v - 1);
    }
  }

  /** The level of a BDD at a variable it touches lies in that variable's row. */
  lemma LevelOfBounds(nodes: seq<RawNode>, delims: seq<nat>, b: nat, v: nat)
    requires DelimitersOk(delims, |nodes|) && b + 1 < |delims| && Touches(nodes, delims, b, v)
    ensures LevelStart(nodes, delims, v) <= LevelOf(nodes, delims, b, v) < LevelStart(nodes, delims, v + 1)
  {
    BddsBeforeMonotone(nodes, delims, b, |delims| - 1, v);
  }

  /** Distinct (BDD, variable) pairs that occur have distinct levels. */
  lemma LevelOfInjective(nodes: seq<RawNode>, delims: seq<nat>, b: nat, u: nat, c: nat, v: nat)
    requires DelimitersOk(delims, |nodes|) && b + 1 < |delims| && c + 1 < |delims|
    requires Touches(nodes, delims, b, u) && Touches(nodes, delims, c, v)
    requires b != c || u != v
    ensures LevelOf(nodes, delims, b, u) != LevelOf(nodes, delims, c, v)
  {
    if u == v {
      if b < c { BddsBeforeMonotone(nodes, delims, b, c, v); }
      else { BddsBeforeMonotone(nodes, delims, c, b, v); }
    } else {
      LevelOfBounds(nodes, delims, b, u);
      LevelOfBounds(nodes, delims, c, v);
      if u < v { LevelStartMonotone(nodes, delims, u + 1, v); }
      else { LevelStartMonotone(nodes, delims, v + 1, u); }
    }
  }

  /** The variable whose row holds level l. */
  ghost function LevelVariable(nodes: seq<RawNode>, delims: seq<nat>, n: nat, l: nat, v: nat): (u: nat)
    requires DelimitersOk(delims, |nodes|) && v <= n && LevelStart(nodes, delims, v) <= l < LevelStart(nodes, delims, n)
    ensures v <= u < n && LevelStart(nodes, delims, u) <= l < LevelStart(nodes, delims, u + 1)
    decreases n - v
  {
    if l < LevelStart(nodes, delims, v + 1) then v else LevelVariable(nodes, delims, n, l, v + 1)
  }

  /** The BDD before c that is the t-th one touching v. */
  ghost function NthBdd(nodes: seq<RawNode>, delims: seq<nat>, c: nat, v: nat, t: nat): (b: nat)
    requires DelimitersOk(delims, |nodes|) && c < |delims| && t < BddsBefore(nodes, delims, c, v)
    ensures b < c && Touches(nodes, delims, b, v) && BddsBefore(nodes, delims, b, v) == t
  {
    if t < BddsBefore(nodes, delims, c - 1, v) then NthBdd(nodes, delims, c - 1, v, t) else c - 1
  }

  /** Every level of the table belongs to one (BDD, variable) pair that occurs. */
  ghost function LevelOwner(nodes: seq<RawNode>, delims: seq<nat>, n: nat, l: nat): (bv: (nat, nat))
    requires DelimitersOk(delims, |nodes|) && l < LevelStart(nodes, delims, n)
    ensures bv.0 + 1 < |delims| && bv.1 < n && Touches(nodes, delims, bv.0, bv.1)
    ensures LevelOf(nodes, delims, bv.0, bv.1) == l
  {
    var v := LevelVariable(nodes, delims, n, l, 0);
    (NthBdd(nodes, delims, |delims| - 1, v, l - LevelStart(nodes, delims, v)), v)
  }
}
