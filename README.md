# LPMP: BDD min-marginal averaging and lifted disjoint paths helpers

LPMP is a library of message-passing solvers for discrete optimisation. This
project models three of its parts.

- **The BDD min-marginal-averaging engine** (`bdd_min_marginal_averaging`)
  solves a 0/1 linear program whose constraints are given as BDDs.
  - The builder linearises all BDDs into one array of branch instructions.
    Each instruction has its low and high successor and its lists of
    incoming instructions.
  - It also builds a table of levels with one row per variable and one
    level per BDD containing that variable. A level owns a contiguous block
    of instructions and the cost share of its variable. It is chained to the
    previous and next levels of its BDD.
  - A backward sweep computes, at every instruction, the cheapest cost of
    reaching the true terminal. A forward sweep applies the forward step, the
    cost of arriving from the root, variable by variable.
  - The min-marginal of a level is the pair of its cheapest costs with the
    variable at 0 and at 1. An averaging pass moves each level's cost so
    that all levels of a variable show the average min-marginal difference,
    while the variable's total cost stays unchanged.
  - The lower bound is the sum over the BDDs of the backward costs at the
    roots. Feasibility and evaluation of a 0/1 assignment are also modelled.
- **`VertexGroups`** assigns the vertices of a lifted disjoint paths graph to
  time frames. It adds the source and sink vertices and cuts paths to a
  window of frames.
- **`ldp_triangle_factor`** is a factor over the three edges of a
  triangle. It works with the feasible labelings of those edges, a lower
  bound, the primal labeling and min-marginal differences.

Modelling decisions:

- **Pointers become indices.** An instruction's `variable_cost` pointer is
  the index of its level.
- **BDD arrays and levels are sequences.** The instruction sweeps and the
  averaging passes are methods that take the old sequences and return new
  ones. The class `BddSolver.Solver` holds the solver state in fields and
  updates them in place.
- **Doubles become extended reals.** IEEE doubles are modelled as reals
  extended by +∞ (`ExtendedReals`).
- **Two kinds of debug `assert`.** Structural ones, which the builder
  guarantees, become preconditions. Numeric ones (`std::isfinite`) become
  an `ok` result, so the sweeps still say what happens when they would fire.

The per-instruction steps (`forward_step`, `backward_step` and
`min_marginal` of a `bdd_branch_instruction`) are defined in
`include/bdd/bdd_branch_instruction.h`. That file is not part of this model.
The model uses the standard recurrences:

- **backward:** `m = min(m(low), m(high) + cost)`, with 0 at the true
  terminal and ∞ at the false terminal;
- **forward:** 0 at a root; otherwise the minimum over the incoming low edges
  of `fwd` and over the incoming high edges of `fwd + cost`;
- **min-marginal:** `(fwd + m(low), fwd + cost + m(high))`.

## Model

| member | source | states |
|---|---|---|
| ExtendedReals.Add | include/bdd/bdd_min_marginal_averaging.h:395 | the sum is finite exactly when both operands are, and is then their real sum |
| ExtendedReals.Min | include/bdd/bdd_min_marginal_averaging.h:360-361 | std::min: the result is one of the two arguments and below both |
| BddStorage.OffTotal | include/bdd/bdd_min_marginal_averaging.h:239-242 | the last per-variable offset plus the last node count equals the number of nodes (the assert on line 242) |
| BddStorage.SlotBounds | include/bdd/bdd_min_marginal_averaging.h:284-302 | the slot given to node j lies within its variable's block of the instruction array |
| BddStorage.SlotInjective | include/bdd/bdd_min_marginal_averaging.h:299-303 | two different nodes get different slots, so no instruction is written twice (the assert on line 303) |
| BddStorage.LevelOfBounds | include/bdd/bdd_min_marginal_averaging.h:279 | the level of BDD b at variable v lies in row v of the level table |
| BddStorage.LevelOfInjective | include/bdd/bdd_min_marginal_averaging.h:279-297 | distinct (BDD, variable) pairs get distinct levels, so a level is opened only once (the asserts on lines 281 and 296) |
| BddBuilder.Cover | include/bdd/bdd_min_marginal_averaging.h:203-207 | cover_variable marks v and appends it to the covered list, keeping marks and list in agreement |
| BddBuilder.Uncover | include/bdd/bdd_min_marginal_averaging.h:208-214 | uncover_variables clears every mark and empties the list |
| BddBuilder.CountNodes | include/bdd/bdd_min_marginal_averaging.h:216-223 | for every variable, the number of nodes at that variable |
| BddBuilder.CountOneBdd | include/bdd/bdd_min_marginal_averaging.h:227-235 | one BDD adds one, to the count of each variable it touches and to no other variable, and leaves no mark behind |
| BddBuilder.CountBdds | include/bdd/bdd_min_marginal_averaging.h:226-236 | for every variable, the number of BDDs that contain it |
| BddBuilder.Offsets | include/bdd/bdd_min_marginal_averaging.h:239-242 | the exclusive prefix sums of the node counts, last offset plus last count equal to the node count |
| BddBuilder.LevelTable | include/bdd/bdd_min_marginal_averaging.h:244-245 | rows of default levels, row v holding one level per BDD containing v, with the row offsets |
| BddBuilder.CountingPass | include/bdd/bdd_min_marginal_averaging.h:191-253 | the first pass yields the row offsets (each row as long as its BDD count) and the blank level table |
| BddBuilder.PlaceLevel | include/bdd/bdd_min_marginal_averaging.h:279-300 | the level of the node's (BDD, variable) is opened at its first node and chained to the previous level, and the node gets that level's next slot |
| BddBuilder.PlaceInstr | include/bdd/bdd_min_marginal_averaging.h:302-324 | the instruction in that slot points at its level and at the translated children, and is pushed onto the children's incoming lists |
| BddBuilder.IncrementCovered | include/bdd/bdd_min_marginal_averaging.h:334-336 | exactly the covered variables have their BDD counter increased by one |
| BddBuilder.FillBdd | include/bdd/bdd_min_marginal_averaging.h:261-337 | after one BDD the arrays equal the closed-form replay up to that BDD's last node |
| BddBuilder.FillAll | include/bdd/bdd_min_marginal_averaging.h:260-341 | the second pass yields the closed-form instructions and levels, with every row filled (the assert on line 340) |
| BddBuilder.Build | include/bdd/bdd_min_marginal_averaging.h:186-345 | init_branch_instructions yields one instruction per node and one row per variable of the expected length, and the result satisfies the whole structural invariant Shaped |
| BddShape.FinalRows | include/bdd/bdd_min_marginal_averaging.h:245 | the built level table is cut into rows of levels of the row's variable |
| BddShape.RowTiles | include/bdd/bdd_min_marginal_averaging.h:278-300 | row v of the built level table tiles variable v's block of instructions: the first level starts at the variable's offset, each level ends where the next one in the row starts, the last ends at the next variable's offset, and an empty row belongs to a variable without nodes |
| BddShape.FinalRanges | include/bdd/bdd_min_marginal_averaging.h:284-300 | every level owns a non-empty block of instructions inside the array |
| BddShape.FinalOwned | include/bdd/bdd_min_marginal_averaging.h:299-305 | every instruction points at the level whose block contains it |
| BddShape.FinalDownward | include/bdd/bdd_min_marginal_averaging.h:326-327 | every non-terminal successor is an instruction at a later variable (the commented-out asserts) |
| BddShape.FinalIncoming | include/bdd/bdd_min_marginal_averaging.h:313-324 | the incoming lists hold only predecessors over the matching edge, in decreasing node order |
| BddShape.FinalChain | include/bdd/bdd_min_marginal_averaging.h:288-294 | prev and next links of the levels are mutual, next leading to a later variable and prev to an earlier one |
| BddShape.FinalHeads | include/bdd/bdd_min_marginal_averaging.h:288-294 | a level without a predecessor holds exactly one instruction (the assert on line 403) |
| BddShape.FinalShaped | include/bdd/bdd_min_marginal_averaging.h:186-345 | the built arrays satisfy all of the structural invariants above at once |
| BddSweeps.BackwardLevel | include/bdd/bdd_min_marginal_averaging.h:139-156 | backward_step(var, bdd): every instruction of the level takes its backward value; nothing else changes |
| BddSweeps.ForwardLevel | include/bdd/bdd_min_marginal_averaging.h:115-130 | forward_step(var, bdd): every instruction of the level takes its forward value; nothing else changes |
| BddSweeps.BackwardVar | include/bdd/bdd_min_marginal_averaging.h:158-163 | backward_step(var): exactly the instructions of variable v take their backward values |
| BddSweeps.ForwardVar | include/bdd/bdd_min_marginal_averaging.h:132-137 | forward_step(var): exactly the instructions of variable v take their forward values |
| BddSweeps.BackwardRun | include/bdd/bdd_min_marginal_averaging.h:382-387 | after the run from the last variable down, every backward cost agrees with its step |
| BddSweeps.ForwardRun | include/bdd/bdd_min_marginal_averaging.h:411-416 | after the run from the first variable up, every forward cost agrees with its step |
| BddPaths.BackwardBelowPaths | include/bdd/bdd_min_marginal_averaging.h:382-387 | a consistent backward cost is at most the cost of the path any assignment selects |
| BddPaths.BackwardIsMinimum | include/bdd/bdd_min_marginal_averaging.h:382-387 | a consistent backward cost is the minimum over all assignments: below each, and attained by one |
| BddPaths.BackwardUnique | include/bdd/bdd_min_marginal_averaging.h:382-387 | two backward states that both agree with their steps are equal |
| BddMarginals.MinPair | include/bdd/bdd_min_marginal_averaging.h:360-361 | the component-wise minimum of two marginal pairs |
| BddMarginals.LevelMarginalsMinimum | include/bdd/bdd_min_marginal_averaging.h:350-366 | a level's min-marginal is, in each component, below every instruction's marginal and equal to one of them |
| BddMarginals.MinMarginal | include/bdd/bdd_min_marginal_averaging.h:350-366 | min_marginal's loop computes the level's min-marginal |
| BddMarginals.UpToShift | include/bdd/bdd_min_marginal_averaging.h:379 | raising a level's cost by d raises its 1-marginal by d and leaves its 0-marginal unchanged |
| BddMarginals.AverageMarginals | include/bdd/bdd_min_marginal_averaging.h:431-446 | ok exactly when there are marginals and all are finite, and then the result is their mean |
| BddMarginals.SetMarginal | include/bdd/bdd_min_marginal_averaging.h:368-380 | only level l's cost changes, by the target difference minus its own difference |
| BddMarginals.SetMarginalMatches | include/bdd/bdd_min_marginal_averaging.h:368-380 | after set_marginal the level's min-marginal difference equals the target's, with the 0-marginal unchanged |
| BddMarginals.CostSumShift | include/bdd/bdd_min_marginal_averaging.h:476-479 | shifting the levels of a row by amounts d shifts the row's total cost by the sum of d |
| BddMarginals.CorrectionsCancel | include/bdd/bdd_min_marginal_averaging.h:473-479 | moving every level to the mean difference changes the row's total cost by zero |
| BddAveraging.CollectForward | include/bdd/bdd_min_marginal_averaging.h:455-459 | forward steps the levels of v and collects, in order, the min-marginal of each level |
| BddAveraging.SetRow | include/bdd/bdd_min_marginal_averaging.h:477-479 | every level of row v receives its set_marginal correction |
| BddAveraging.RowConserved | include/bdd/bdd_min_marginal_averaging.h:473-479 | averaging leaves a variable's total cost over its BDDs unchanged |
| BddAveraging.RowMatched | include/bdd/bdd_min_marginal_averaging.h:473-479 | after averaging, every level of v has the average min-marginal difference |
| BddAveraging.ForwardAverageVar | include/bdd/bdd_min_marginal_averaging.h:452-480 | one variable of the forward pass: ok exactly when the row is non-empty and finite; then the row's total is kept and its levels agree; only row v and its forward costs change |
| BddAveraging.AveragingForward | include/bdd/bdd_min_marginal_averaging.h:449-481 | the forward pass keeps the table's shape; when ok the forward costs are consistent and each row's total is kept |
| BddBackward.CollectBackward | include/bdd/bdd_min_marginal_averaging.h:491-494 | collects, in order, the min-marginal of each level of v |
| BddBackward.SetRowBackward | include/bdd/bdd_min_marginal_averaging.h:506-510 | sets the marginals of row v, recomputes its backward costs from the new level costs, and adds the row's root contributions to lb |
| BddBackward.BackwardAverageVar | include/bdd/bdd_min_marginal_averaging.h:488-511 | one variable of the backward pass: ok exactly when the row is non-empty and finite; otherwise nothing changes; when ok the row total is kept and the bound grows by the row's contributions |
| BddBackward.AveragingBackward | include/bdd/bdd_min_marginal_averaging.h:483-514 | the backward pass keeps the shape; when ok the backward costs are consistent, lb is the lower bound of the new state and each row's total is kept |
| BddBound.LowerBoundRun | include/bdd/bdd_min_marginal_averaging.h:389-409 | lower_bound_backward_run: consistent backward costs and the sum of the roots' backward costs over all BDDs |
| BddBound.HeadBoundIsMinimum | include/bdd/bdd_min_marginal_averaging.h:399-409 | lower_bound_backward: for a level without a predecessor, the backward cost of its first instruction, which is the cheapest path cost from it and attained by some assignment; 0 for every other level |
| BddBound.LowerBoundUnique | include/bdd/bdd_min_marginal_averaging.h:389-397 | the bound depends only on the level costs, not on which consistent backward state is used |
| BddBound.LowerBoundBelowCost | include/bdd/bdd_min_marginal_averaging.h:389-409 | weak duality: the bound is at most what any assignment pays, summed over the BDDs |
| BddQueries.BddVariable | include/bdd/bdd_min_marginal_averaging.h:618-629 | the first row holding instruction i, None exactly when no level holds it (the runtime_error); on a built array the instruction's variable |
| BddQueries.FirstVariableOfBdd | include/bdd/bdd_min_marginal_averaging.h:650-656 | the variable of the head of the level's chain, at most the level's own variable |
| BddQueries.LastVariableOfBdd | include/bdd/bdd_min_marginal_averaging.h:658-664 | the variable of the tail of the level's chain, at least the level's own variable |
| BddQueries.FeasibleIffAccepted | include/bdd/bdd_min_marginal_averaging.h:541-578 | the marking semantics of check_feasibility agree with following x from every root: feasible exactly when every root's path ends at the true terminal |
| BddQueries.CheckFeasibility | include/bdd/bdd_min_marginal_averaging.h:541-578 | the marking loop returns true exactly when x is feasible |
| BddQueries.Evaluate | include/bdd/bdd_min_marginal_averaging.h:580-593 | infinity for an infeasible x, otherwise the sum of the costs of the variables set to 1 |
| BddCosts.Padded | include/bdd/bdd_min_marginal_averaging.h:527-529 | costs_ holds the input followed by zeros up to the number of variables |
| BddCosts.ShareSum | include/bdd/bdd_min_marginal_averaging.h:532-537 | the equal shares of a row add up to the variable's cost |
| BddCosts.SetCosts | include/bdd/bdd_min_marginal_averaging.h:524-539 | costs are the padded input; each level of row v carries costs[v] divided by the row length, so the row adds up to costs[v]; only costs change; the backward costs are consistent |
| BddCosts.AsWrittenCost | include/bdd/bdd_min_marginal_averaging.h:535 | what line 535 reads, defined exactly for v below the input length |
| BddCosts.AsWrittenReadsPastInput | include/bdd/bdd_min_marginal_averaging.h:527-535 | with one input value and two variables the assert holds but variable 1 is read past the input |
| BddCosts.AsWrittenAgrees | include/bdd/bdd_min_marginal_averaging.h:528-535 | where the as-written read is defined it equals costs_, and for a full-length input it is always defined |
| BddSolver.Init | include/bdd/bdd_min_marginal_averaging.h:171-184 | init: the built arrays, the padded objective as costs, rows adding up to their costs, consistent backward costs |
| BddSolver.Solver.constructor | include/bdd/bdd_min_marginal_averaging.h:178-184 | the same state as Init, in the fields |
| BddSolver.Solver.SetCosts | include/bdd/bdd_min_marginal_averaging.h:524-539 | set_costs on the fields: new costs and shares, the rest of the state kept |
| BddSolver.Solver.BackwardRun | include/bdd/bdd_min_marginal_averaging.h:382-387 | consistent backward costs, every other field kept |
| BddSolver.Solver.ForwardRun | include/bdd/bdd_min_marginal_averaging.h:411-416 | consistent forward costs, every other field kept |
| BddSolver.Solver.LowerBound | include/bdd/bdd_min_marginal_averaging.h:389-397 | the lower bound of the current costs, with only the backward costs changed |
| BddSolver.Solver.Iteration | include/bdd/bdd_min_marginal_averaging.h:418-429 | a forward then a backward averaging pass; when ok, each variable's total cost is kept and lb is the new lower bound |
| BddSolver.Solver.Evaluate | include/bdd/bdd_min_marginal_averaging.h:580-593 | evaluate against costs_: infinity exactly for infeasible assignments |
| LdpVertexGroups.FillFrames | include/lifted_disjoint_paths/ldp_vertex_groups.hxx:155-175 | the frame loop stores each frame's consecutive vertex ids and labels each vertex with its absolute frame |
| LdpVertexGroups.ExpectedGroupsPartition | include/lifted_disjoint_paths/ldp_vertex_groups.hxx:179-196 | the groups with s and t added, and the labels shifted by timeShift, list every vertex exactly in the frame it is labelled with |
| LdpVertexGroups.ShiftedSinkOutOfRange | include/lifted_disjoint_paths/ldp_vertex_groups.hxx:155-190 | with one frame and timeShift 1, the index frameCounter of line 190 is not below the size of groups |
| LdpVertexGroups.InnerPathIsCutAndFilter | include/lifted_disjoint_paths/ldp_vertex_groups.hxx:357-365 | an inner path is the path cut before its first vertex later than maxT, then filtered to times of at least minT |
| LdpVertexGroups.InnerPathInWindow | include/lifted_disjoint_paths/ldp_vertex_groups.hxx:357-365 | every kept vertex has its time in [minT, maxT] |
| LdpVertexGroups.InnerPathsNonemptyInWindow | include/lifted_disjoint_paths/ldp_vertex_groups.hxx:354-369 | every extracted path is non-empty and inside the window, and there are no more of them than input paths |
| LdpVertexGroups.NoVerticesPlacesSourceAndSink | include/lifted_disjoint_paths/ldp_vertex_groups.hxx:177-190 | without regular vertices s = 0 and t = 1 are placed in the first and last frame and labelled with them, as the wrapped maxVertex + 1 and + 2 give |
| LdpVertexGroups.VertexGroups.constructor | include/lifted_disjoint_paths/ldp_vertex_groups.hxx:70-75 | the default object: no groups, all counters 0 |
| LdpVertexGroups.VertexGroups.FromMap | include/lifted_disjoint_paths/ldp_vertex_groups.hxx:54-68 | vToGroup as given, maxVertex three below its length (negative, that is wrapped, below length 3), maxTime its last entry, and groups[t] the map's entry for t or empty |
| LdpVertexGroups.VertexGroups.InitFromVector | include/lifted_disjoint_paths/ldp_vertex_groups.hxx:150-203 | as written, for every input including a graph without vertices: succeeds exactly when timeShift_ is 0, then the groups partition the vertices by their labels |
| LdpVertexGroups.VertexGroups.InitShifted | include/lifted_disjoint_paths/ldp_vertex_groups.hxx:150-203 | corrected: for every input and every shift, the groups and labels partition the vertices, s in frame timeShift and t in frame maxTime + 1 |
| LdpVertexGroups.VertexGroups.InitFromFrames | include/lifted_disjoint_paths/ldp_vertex_groups.hxx:92-94 | the unshifted case, empty frame lists included: the groups and labels partition the vertices |
| LdpVertexGroups.VertexGroups.GetGroupIndex | include/lifted_disjoint_paths/ldp_vertex_groups.hxx:99-102 | getGroupIndex(v), for v up to t as the assert demands: when every vertex is listed in its frame, the result is a frame of the graph that lists v |
| LdpVertexGroups.VertexGroups.GetGroupVertices | include/lifted_disjoint_paths/ldp_vertex_groups.hxx:103-107 | getGroupVertices(index), for frames up to t's as the assert demands: when every listed vertex is labelled, each returned vertex is a vertex of the graph labelled index |
| LdpVertexGroups.VertexGroups.GroupIndexListsVertex | include/lifted_disjoint_paths/ldp_vertex_groups.hxx:99-107 | when every vertex is listed in its frame, getGroupVertices(getGroupIndex(v)) contains v |
| LdpVertexGroups.VertexGroups.GroupVerticesMapBack | include/lifted_disjoint_paths/ldp_vertex_groups.hxx:99-107 | when every listed vertex is labelled with its frame, getGroupIndex maps each vertex of getGroupVertices(i) back to i |
| LdpVertexGroups.VertexGroups.GetMaxVertex | include/lifted_disjoint_paths/ldp_vertex_groups.hxx:110-112 | the size_t the source returns: three fewer than the shifted vertex count with s and t, wrapped modulo 2^64 when that count is below 3 |
| LdpVertexGroups.VertexGroups.GetMaxTime | include/lifted_disjoint_paths/ldp_vertex_groups.hxx:115-117 | the last video frame: the frame before t's |
| LdpVertexGroups.VertexGroups.TestCorrectness | include/lifted_disjoint_paths/ldp_vertex_groups.hxx:135-148 | true exactly when every vertex of every frame maps back to that frame |
| LdpVertexGroups.VertexGroups.ExtractInnerPaths | include/lifted_disjoint_paths/ldp_vertex_groups.hxx:350-371 | the loops compute the inner paths (see the three lemmas above) |
| LdpTriangleFactor.FromString | include/lifted_disjoint_paths/ldp_triangle_factor.hxx:30-35 | std::bitset<3> from a string: bit e is set exactly when character 2 - e is '1' |
| LdpTriangleFactor.MinCostIsLowerBound | include/lifted_disjoint_paths/ldp_triangle_factor.hxx:40-53 | LowerBound's value is at most 0 and at most every labeling's cost |
| LdpTriangleFactor.ArgMinIsFirstMinimum | include/lifted_disjoint_paths/ldp_triangle_factor.hxx:40-53 | with 000 first, the kept index is the first labeling of minimum cost |
| LdpTriangleFactor.MinWithBitUpdate | include/lifted_disjoint_paths/ldp_triangle_factor.hxx:68-87 | after updateCost(e, u) the best cost with bit e set rises by u and the one with it clear is unchanged |
| LdpTriangleFactor.MinWithBitAttained | include/lifted_disjoint_paths/ldp_triangle_factor.hxx:70-80 | a finite minimum of delta is the cost of some labeling with the matching bit |
| LdpTriangleFactor.Delta | include/lifted_disjoint_paths/ldp_triangle_factor.hxx:68-82 | both minima are finite for the five base labelings, and delta is their difference |
| LdpTriangleFactor.DeltaAfterUpdate | include/lifted_disjoint_paths/ldp_triangle_factor.hxx:68-87 | after updateCost(e, u), delta(e) is larger by exactly u |
| LdpTriangleFactor.TriangleFactor.constructor | include/lifted_disjoint_paths/ldp_triangle_factor.hxx:23-38 | the five base labelings, then 011 if vu is base and 101 if uw is base; primal 0 |
| LdpTriangleFactor.TriangleFactor.EvaluatePrimal | include/lifted_disjoint_paths/ldp_triangle_factor.hxx:55-59 | the chosen labeling's cost, never below the lower bound |
| LdpTriangleFactor.TriangleFactor.LowerBound | include/lifted_disjoint_paths/ldp_triangle_factor.hxx:40-53 | the minimum labeling cost, with primal set to the first minimising labeling, whose cost it equals |
| LdpTriangleFactor.TriangleFactor.InitPrimal | include/lifted_disjoint_paths/ldp_triangle_factor.hxx:66 | primal reset to 0 |
| LdpTriangleFactor.TriangleFactor.DeltaOf | include/lifted_disjoint_paths/ldp_triangle_factor.hxx:68-82 | the loop returns Delta: best cost with the edge set minus best cost with it clear |
| LdpTriangleFactor.TriangleFactor.UpdateCost | include/lifted_disjoint_paths/ldp_triangle_factor.hxx:84-87 | adds the update to one edge cost and changes nothing else |

## Left out

- The per-instruction steps: these are defined in `include/bdd/bdd_branch_instruction.h`, which is not part of this model. The model uses the recurrences stated above, and the defaults of `fwd` and `m` give way to starting values chosen by the caller.
- `bdd_storage`, `add_bdd` and building the storage from an `ILP_input` through CUDD are not part of this model. The solver starts from a flat node list with delimiters that satisfies `BddStorage.WellFormed`: every variable is below the number of variables, and each BDD satisfies `BddStorage.BddOk`.
- `BddStorage.BddOk` requires three things of each BDD:
  - the children of a node are terminals or earlier nodes of the same BDD, at strictly later variables;
  - the nodes come by non-increasing variable;
  - the root, the last node, is alone at its variable.

  These conditions stand for what the source expects of `bdd_storage` without checking it. They give the chain order of the commented-out assert on line 289 (`next_bdd_level > &bdd_level`), the later successor variables of the commented-out asserts on lines 326-327, and the single instruction of a chain head asserted on line 403.
- `init()` without arguments resizes `costs_` to +∞. These costs are only read by `evaluate`, which is modelled after `set_costs` (so no 0 × ∞ arises).
- IEEE doubles: modelled as reals extended by +∞, with exact real division. Rounding, NaN and -∞ are not modelled.
- Debug assertions: structural ones (lines 121, 145, 273, 281, 296, 303, 309, 318, 403, 527, 533) are preconditions. The `std::isfinite` checks of `min_marginal`, `average_marginals` and `set_marginal` become the `ok` result of the averaging passes. An empty row is also `ok = false`, where the source would divide by zero.
- `check_bdd_branch_instruction` and `check_bdd_branch_instruction_level` are debug checks, covered by the structural invariant `Shaped`.
- `bdd_level_variable`: the binary search over level addresses is replaced by the variable stored in each level. `FirstVariableOfBdd` and `LastVariableOfBdd` return that variable.
- BddShape.FinalIncoming: states that every member of an incoming list is a predecessor, in order. It does not state that every predecessor is in the list, because the forward sweep's proofs do not need it.
- `get_bdd_branch_instruction`, `bdd_branch_instruction_index` and `export_dot`: these are address arithmetic and output.
- Timing and logging output (`std::cout`, `std::chrono` in `iteration` and `init`) has no effect on the state.
- `VertexGroups`: `initFromFile` and the parameter constructor read a file. The template parameter is unused by the modelled members.
- LdpVertexGroups.VertexGroups.FromMap: requires keys below `maxTime + 2`, because `groups[pair.first]` is out of bounds otherwise, and a non-empty `vToGroup_`, whose `back()` is undefined otherwise.
- LdpVertexGroups.VertexGroups: `maxVertex` is kept as a signed integer, -1 or -2 where the source's size_t wraps (no vertices, or a `vToGroup_` of length 1 or 2). The source only uses it as `maxVertex + 1` and `maxVertex + 2`, which agree with the wrapped values, and `GetMaxVertex` returns the wrapped value. Other size_t overflow (more than 2^64 vertices or frames) is not modelled.
- BddQueries.Evaluate: an assignment is a sequence of booleans. The source's `evaluate` multiplies each cost by the raw iterator value (line 591), while `check_feasibility` reads it as a bool (line 550), so values other than 0 and 1 are not modelled.
- BddSweeps.ForwardRun: the forward costs are proved to agree with their recurrence. They are not proved to be the cheapest cost of a path from a root, because that needs every predecessor to be in the incoming lists (see BddShape.FinalIncoming).
- `TestCorrectness`: the `printToo` output is dropped, and a failing `assert` becomes the result `false`.
- `ldp_triangle_factor`: `edgeCosts` is left uninitialised by the source constructor, so the model's constructor takes the initial costs as a parameter.
- `LdpTriangleFactor.TriangleFactor.LowerBound`: the source method is `const` but assigns `primal_`. The model declares it as modifying the object.
- `ldp_triangle_factor`: `serialize_primal`, `serialize_dual` and `export_variables` are serialisation only.
- The `short` and `int` loop counters of the triangle factor and `extractInnerPaths` are modelled without overflow, since there are at most 7 labelings and the vectors are small.

## Findings

| source | as written | input that shows it | evidently intended | confidence | as-written member | corrected member |
|---|---|---|---|---|---|---|
| include/bdd/bdd_min_marginal_averaging.h:535 | the share of variable v is read as `*(begin+v)`, from the input range, although the assert on line 527 admits an input shorter than the number of variables | an objective `[5.0]` for 2 variables: variable 1 is read past the end of the input | read the padded `costs_[v]`, which is 0 there | not executed | BddCosts.AsWrittenReadsPastInput | BddCosts.SetCosts |
| include/lifted_disjoint_paths/ldp_vertex_groups.hxx:190 | the sink t is stored at `groups.at(frameCounter)`, an absolute frame number, while `groups` has `maxTime + 2 - timeShift` entries indexed relative to `timeShift` | `verticesInFrames = [1]`, `timeShift_ = 1`: frameCounter is 3 and groups has 3 entries, so `std::out_of_range` is thrown (for every timeShift_ > 0) | `groups.at(frameCounter - timeShift)`, as the frame loop stores the other frames (the check on line 194 then needs `i + timeShift`) | not executed | LdpVertexGroups.VertexGroups.InitFromVector | LdpVertexGroups.VertexGroups.InitShifted |
