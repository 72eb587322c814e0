/** Time frames of the lifted disjoint paths tracker
    (include/lifted_disjoint_paths/ldp_vertex_groups.hxx). The graph's vertices
    are consecutive ids, frame by frame; `groups` lists, per frame (relative to
    `timeShift`), the vertices of that frame, and `vToGroup` gives, per vertex
    (relative to `vertexShift`), its frame. Two extra vertices follow the
    regular ones: the source s in frame `timeShift` and the sink t in frame
    `maxTime + 1`. */
module LdpVertexGroups {

  /** Σ s (std::accumulate), taken from the back so that Sum(s[..i+1]) unfolds to Sum(s[..i]) + s[i]. */
  function Sum(s: seq<nat>): nat
  {
    if s == [] then 0 else Sum(s[..|s| - 1]) + s[|s| - 1]
  }

  /** n copies of x. */
  function Repeat(x: nat, n: nat): seq<nat>
  {
    seq(n, _ => x)
  }

  /** The n consecutive ids start, start + 1, .... */
  function Run(start: nat, n: nat): seq<nat>
  {
    seq(n, j => start + j)
  }

  /** The frames pushed into vToGroup by initFromVector for the frames counted
      in `counts`: counts[f] copies of the absolute frame number timeShift + f + 1. */
  function Labels(counts: seq<nat>, timeShift: nat): seq<nat>
  {
    if counts == [] then []
    else Labels(counts[..|counts| - 1], timeShift) + Repeat(timeShift + |counts|, counts[|counts| - 1])
  }

  /** The vertices of frame i (1 <= i <= |counts|): counts[i-1] consecutive ids
      that follow the ids of the earlier frames. */
  function FrameVertices(counts: seq<nat>, vertexShift: nat, i: nat): seq<nat>
    requires 1 <= i <= |counts|
  {
    Run(vertexShift + Sum(counts[..i - 1]), counts[i - 1])
  }

  lemma {:induction false} SumPrefix(s: seq<nat>, i: nat)
    requires i < |s|
    ensures Sum(s[..i + 1]) == Sum(s[..i]) + s[i]
  {
    assert s[..i + 1][..i] == s[..i];
  }

  lemma {:induction false} SumPrefixMonotone(s: seq<nat>, i: nat, j: nat)
    requires i <= j <= |s|
    ensures Sum(s[..i]) <= Sum(s[..j])
    decreases j - i
  {
    if i < j {
      SumPrefix(s, j - 1);
      SumPrefixMonotone(s, i, j - 1);
    }
  }

  lemma {:induction false} LabelsLength(counts: seq<nat>, timeShift: nat)
    ensures |Labels(counts, timeShift)| == Sum(counts)
  {
    if counts != [] {
      LabelsLength(counts[..|counts| - 1], timeShift);
    }
  }

  /** The k-th vertex of frame i carries the frame timeShift + i. */
  lemma {:induction false} LabelsAt(counts: seq<nat>, timeShift: nat, i: nat, k: nat)
    requires 1 <= i <= |counts| && k < counts[i - 1]
    ensures Sum(counts[..i - 1]) + k < |Labels(counts, timeShift)|
    ensures Labels(counts, timeShift)[Sum(counts[..i - 1]) + k] == timeShift + i
  {
    var n := |counts|;
    var init := counts[..n - 1];
    LabelsLength(init, timeShift);
    LabelsLength(counts, timeShift);
    if i == n {
      assert counts[..i - 1] == init;
    } else {
      assert counts[..i - 1] == init[..i - 1];
      assert init[i - 1] == counts[i - 1];
      LabelsAt(init, timeShift, i, k);
    }
    SumPrefixMonotone(counts, i - 1, n - 1);
    SumPrefix(counts, i - 1);
    SumPrefixMonotone(counts, i, n);
    assert counts[..n] == counts;
  }

  /** Conversely every regular vertex lies in one frame, the one its label names. */
  lemma {:induction false} LabelsInverse(counts: seq<nat>, timeShift: nat, u: nat)
    requires u < Sum(counts)
    ensures u < |Labels(counts, timeShift)|
    ensures 1 <= Labels(counts, timeShift)[u] - timeShift <= |counts|
    ensures var i := Labels(counts, timeShift)[u] - timeShift;
            Sum(counts[..i - 1]) <= u < Sum(counts[..i - 1]) + counts[i - 1]
  {
    var n := |counts|;
    var init := counts[..n - 1];
    LabelsLength(init, timeShift);
    LabelsLength(counts, timeShift);
    assert counts[..n] == counts;
    if u < Sum(init) {
      LabelsInverse(init, timeShift, u);
      var i := Labels(init, timeShift)[u] - timeShift;
      assert Labels(counts, timeShift)[u] == Labels(init, timeShift)[u];
      assert counts[..i - 1] == init[..i - 1];
    } else {
      assert counts[..n - 1] == init;
    }
  }

  /** The groups once frames 1 .. f-1 are stored. */
  function FramesBefore(counts: seq<nat>, vertexShift: nat, f: nat): (g: seq<seq<nat>>)
    requires 1 <= f <= |counts| + 1
    ensures |g| == |counts| + 2
  {
    if f == 1 then seq(|counts| + 2, _ => [])
    else FramesBefore(counts, vertexShift, f - 1)[f - 1 := FrameVertices(counts, vertexShift, f - 1)]
  }

  lemma {:induction false} FramesBeforeAt(counts: seq<nat>, vertexShift: nat, f: nat, i: nat)
    requires 1 <= f <= |counts| + 1 && i < |counts| + 2
    ensures FramesBefore(counts, vertexShift, f)[i] == if 1 <= i < f then FrameVertices(counts, vertexShift, i) else []
  {
    if f > 1 {
      FramesBeforeAt(counts, vertexShift, f - 1, i);
    }
  }

  /** The groups initFromVector builds when timeShift is 0: s alone in
      frame 0, the video frames, t alone in frame |counts| + 1. */
  function ExpectedGroups(counts: seq<nat>, vertexShift: nat): seq<seq<nat>>
  {
    FramesBefore(counts, vertexShift, |counts| + 1)[0 := [vertexShift + Sum(counts)]][|counts| + 1 := [vertexShift + Sum(counts) + 1]]
  }

  lemma {:induction false} ExpectedGroupsAt(counts: seq<nat>, vertexShift: nat, i: nat)
    requires i < |counts| + 2
    ensures |ExpectedGroups(counts, vertexShift)| == |counts| + 2
    ensures ExpectedGroups(counts, vertexShift)[i]
            == if i == 0 then [vertexShift + Sum(counts)]
               else if i == |counts| + 1 then [vertexShift + Sum(counts) + 1]
               else FrameVertices(counts, vertexShift, i)
  {
    FramesBeforeAt(counts, vertexShift, |counts| + 1, i);
  }

  /** Every vertex listed in group i is known and has vToGroup entry i. */
  ghost predicate GroupsLabelled(groups: seq<seq<nat>>, vToGroup: seq<nat>, timeShift: nat, vertexShift: nat)
  {
    forall i, k | 0 <= i < |groups| && 0 <= k < |groups[i]| ::
      vertexShift <= groups[i][k] < vertexShift + |vToGroup|
      && vToGroup[groups[i][k] - vertexShift] == i + timeShift
  }

  /** Every vertex appears in the group its vToGroup entry names. */
  ghost predicate LabelsListed(groups: seq<seq<nat>>, vToGroup: seq<nat>, timeShift: nat, vertexShift: nat)
  {
    forall u | 0 <= u < |vToGroup| ::
      timeShift <= vToGroup[u] < timeShift + |groups|
      && u + vertexShift in groups[vToGroup[u] - timeShift]
  }

  /** Both directions together: the groups partition the vertex ids. */
  ghost predicate Partition(groups: seq<seq<nat>>, vToGroup: seq<nat>, timeShift: nat, vertexShift: nat)
  {
    GroupsLabelled(groups, vToGroup, timeShift, vertexShift) && LabelsListed(groups, vToGroup, timeShift, vertexShift)
  }

  /** A vertex listed in group i is labelled i. */
  lemma {:induction false} GroupMemberLabelled(counts: seq<nat>, timeShift: nat, vertexShift: nat, g: seq<seq<nat>>, vt: seq<nat>,
                                               i: nat, k: nat)
    requires g == ExpectedGroups(counts, vertexShift) && vt == Labels(counts, timeShift) + [timeShift, |counts| + timeShift + 1]
    requires i < |g| && k < |g[i]|
    ensures vertexShift <= g[i][k] < vertexShift + |vt| && vt[g[i][k] - vertexShift] == i + timeShift
  {
    ExpectedGroupsAt(counts, vertexShift, i);
    LabelsLength(counts, timeShift);
    if 1 <= i <= |counts| {
      LabelsAt(counts, timeShift, i, k);
      SumPrefix(counts, i - 1);
      SumPrefixMonotone(counts, i, |counts|);
      assert counts[..|counts|] == counts;
    }
  }

  /** A vertex labelled i is listed in group i. */
  lemma {:induction false} LabelledVertexListed(counts: seq<nat>, timeShift: nat, vertexShift: nat, g: seq<seq<nat>>, vt: seq<nat>,
                                                u: nat)
    requires g == ExpectedGroups(counts, vertexShift) && vt == Labels(counts, timeShift) + [timeShift, |counts| + timeShift + 1]
    requires u < |vt|
    ensures timeShift <= vt[u] < timeShift + |g| && u + vertexShift in g[vt[u] - timeShift]
  {
    var lab := Labels(counts, timeShift);
    var n := Sum(counts);
    LabelsLength(counts, timeShift);
    ExpectedGroupsAt(counts, vertexShift, 0);
    if u < n {
      LabelsInverse(counts, timeShift, u);
      var i := lab[u] - timeShift;
      ExpectedGroupsAt(counts, vertexShift, i);
      assert g[i][u - Sum(counts[..i - 1])] == u + vertexShift;
    } else if u == n + 1 {
      ExpectedGroupsAt(counts, vertexShift, |counts| + 1);
    }
  }

  lemma {:induction false} ExpectedGroupsLabelled(counts: seq<nat>, timeShift: nat, vertexShift: nat, g: seq<seq<nat>>, vt: seq<nat>)
    requires g == ExpectedGroups(counts, vertexShift) && vt == Labels(counts, timeShift) + [timeShift, |counts| + timeShift + 1]
    ensures GroupsLabelled(g, vt, timeShift, vertexShift)
  {
    forall i, k | 0 <= i < |g| && 0 <= k < |g[i]|
      ensures vertexShift <= g[i][k] < vertexShift + |vt| && vt[g[i][k] - vertexShift] == i + timeShift
    {
      GroupMemberLabelled(counts, timeShift, vertexShift, g, vt, i, k);
    }
  }

  lemma {:induction false} ExpectedLabelsListed(counts: seq<nat>, timeShift: nat, vertexShift: nat, g: seq<seq<nat>>, vt: seq<nat>)
    requires g == ExpectedGroups(counts, vertexShift) && vt == Labels(counts, timeShift) + [timeShift, |counts| + timeShift + 1]
    ensures LabelsListed(g, vt, timeShift, vertexShift)
  {
    forall u | 0 <= u < |vt|
      ensures timeShift <= vt[u] < timeShift + |g| && u + vertexShift in g[vt[u] - timeShift]
    {
      LabelledVertexListed(counts, timeShift, vertexShift, g, vt, u);
    }
  }

  /** The frames built from a count vector form a partition of
      [vertexShift, vertexShift + Σcounts + 2), s and t included, for any
      time shift. */
  lemma {:induction false} ExpectedGroupsPartition(counts: seq<nat>, timeShift: nat, vertexShift: nat)
    ensures Partition(ExpectedGroups(counts, vertexShift), Labels(counts, timeShift) + [timeShift, |counts| + timeShift + 1],
                      timeShift, vertexShift)
  {
    var g := ExpectedGroups(counts, vertexShift);
    var vt := Labels(counts, timeShift) + [timeShift, |counts| + timeShift + 1];
    ExpectedGroupsLabelled(counts, timeShift, vertexShift, g, vt);
    ExpectedLabelsListed(counts, timeShift, vertexShift, g, vt);
  }

  /** The time of a vertex (getGroupIndex on a given vToGroup). */
  function TimeOf(vToGroup: seq<nat>, vertexShift: nat, v: nat): nat
    requires vertexShift <= v < vertexShift + |vToGroup|
  {
    vToGroup[v - vertexShift]
  }

  /** extractInnerPaths reads the time of each vertex of a path up to and
      including the first one after maxT; those vertices must be known. */
  ghost predicate Readable(vToGroup: seq<nat>, vertexShift: nat, path: seq<nat>, maxT: nat)
  {
    path != [] ==>
      && vertexShift <= path[0] < vertexShift + |vToGroup|
      && (TimeOf(vToGroup, vertexShift, path[0]) <= maxT ==> Readable(vToGroup, vertexShift, path[1..], maxT))
  }

  /** The part of one path extractInnerPaths keeps: the vertices with time in
      [minT, maxT], in order, up to the first vertex later than maxT. */
  function InnerPath(vToGroup: seq<nat>, vertexShift: nat, path: seq<nat>, minT: nat, maxT: nat): seq<nat>
    requires Readable(vToGroup, vertexShift, path, maxT)
  {
    if path == [] then []
    else
      var t := TimeOf(vToGroup, vertexShift, path[0]);
      if t > maxT then []
      else (if t >= minT then [path[0]] else []) + InnerPath(vToGroup, vertexShift, path[1..], minT, maxT)
  }

  /** extractInnerPaths: the inner part of every path, empty results dropped. */
  function InnerPaths(vToGroup: seq<nat>, vertexShift: nat, paths: seq<seq<nat>>, minT: nat, maxT: nat): seq<seq<nat>>
    requires forall i | 0 <= i < |paths| :: Readable(vToGroup, vertexShift, paths[i], maxT)
  {
    if paths == [] then []
    else
      var p := InnerPath(vToGroup, vertexShift, paths[0], minT, maxT);
      (if |p| > 0 then [p] else []) + InnerPaths(vToGroup, vertexShift, paths[1..], minT, maxT)
  }

  /** Index of the first vertex later than maxT (|path| if none). */
  function FirstLate(vToGroup: seq<nat>, vertexShift: nat, path: seq<nat>, maxT: nat): (k: nat)
    requires Readable(vToGroup, vertexShift, path, maxT)
    ensures k <= |path|
    ensures forall j | 0 <= j < k :: vertexShift <= path[j] < vertexShift + |vToGroup|
                                     && TimeOf(vToGroup, vertexShift, path[j]) <= maxT
    ensures k < |path| ==> vertexShift <= path[k] < vertexShift + |vToGroup|
                           && TimeOf(vToGroup, vertexShift, path[k]) > maxT
  {
    if path == [] || TimeOf(vToGroup, vertexShift, path[0]) > maxT then 0
    else 1 + FirstLate(vToGroup, vertexShift, path[1..], maxT)
  }

  /** The vertices of `s` whose time is at least minT, in order. */
  function AtLeast(vToGroup: seq<nat>, vertexShift: nat, s: seq<nat>, minT: nat): seq<nat>
    requires forall j | 0 <= j < |s| :: vertexShift <= s[j] < vertexShift + |vToGroup|
  {
    if s == [] then []
    else (if TimeOf(vToGroup, vertexShift, s[0]) >= minT then [s[0]] else [])
         + AtLeast(vToGroup, vertexShift, s[1..], minT)
  }

  /** The inner path is the path cut before its first vertex later than maxT,
      filtered to the vertices not earlier than minT. */
  lemma {:induction false} InnerPathIsCutAndFilter(vToGroup: seq<nat>, vertexShift: nat, path: seq<nat>, minT: nat, maxT: nat)
    requires Readable(vToGroup, vertexShift, path, maxT)
    ensures InnerPath(vToGroup, vertexShift, path, minT, maxT)
            == AtLeast(vToGroup, vertexShift, path[..FirstLate(vToGroup, vertexShift, path, maxT)], minT)
  {
    var k := FirstLate(vToGroup, vertexShift, path, maxT);
    if path != [] && TimeOf(vToGroup, vertexShift, path[0]) <= maxT {
      InnerPathIsCutAndFilter(vToGroup, vertexShift, path[1..], minT, maxT);
      assert path[..k][1..] == path[1..][..k - 1];
    }
  }

  /** Every vertex of p is known and has its time in [minT, maxT]. */
  ghost predicate InWindow(vToGroup: seq<nat>, vertexShift: nat, p: seq<nat>, minT: nat, maxT: nat)
  {
    forall j | 0 <= j < |p| :: vertexShift <= p[j] < vertexShift + |vToGroup|
                               && minT <= TimeOf(vToGroup, vertexShift, p[j]) <= maxT
  }

  /** Every kept vertex has its time in the window [minT, maxT]. */
  lemma {:induction false} InnerPathInWindow(vToGroup: seq<nat>, vertexShift: nat, path: seq<nat>, minT: nat, maxT: nat)
    requires Readable(vToGroup, vertexShift, path, maxT)
    ensures InWindow(vToGroup, vertexShift, InnerPath(vToGroup, vertexShift, path, minT, maxT), minT, maxT)
  {
    if path != [] && TimeOf(vToGroup, vertexShift, path[0]) <= maxT {
      InnerPathInWindow(vToGroup, vertexShift, path[1..], minT, maxT);
      var head: seq<nat> := if TimeOf(vToGroup, vertexShift, path[0]) >= minT then [path[0]] else [];
      var tail := InnerPath(vToGroup, vertexShift, path[1..], minT, maxT);
      assert InnerPath(vToGroup, vertexShift, path, minT, maxT) == head + tail;
      forall j | 0 <= j < |head + tail|
        ensures vertexShift <= (head + tail)[j] < vertexShift + |vToGroup|
                && minT <= TimeOf(vToGroup, vertexShift, (head + tail)[j]) <= maxT
      {
        if j >= |head| {
          assert (head + tail)[j] == tail[j - |head|];
        }
      }
    }
  }

  /** Every extracted path is nonempty and lies inside the window, and there
      are no more of them than input paths. */
  lemma {:induction false} InnerPathsNonemptyInWindow(vToGroup: seq<nat>, vertexShift: nat, paths: seq<seq<nat>>, minT: nat, maxT: nat)
    requires forall i | 0 <= i < |paths| :: Readable(vToGroup, vertexShift, paths[i], maxT)
    ensures var out := InnerPaths(vToGroup, vertexShift, paths, minT, maxT);
            |out| <= |paths|
            && forall i | 0 <= i < |out| :: |out[i]| > 0 && InWindow(vToGroup, vertexShift, out[i], minT, maxT)
  {
    if paths != [] {
      InnerPathInWindow(vToGroup, vertexShift, paths[0], minT, maxT);
      InnerPathsNonemptyInWindow(vToGroup, vertexShift, paths[1..], minT, maxT);
      var p := InnerPath(vToGroup, vertexShift, paths[0], minT, maxT);
      var head: seq<seq<nat>> := if |p| > 0 then [p] else [];
      var tail := InnerPaths(vToGroup, vertexShift, paths[1..], minT, maxT);
      forall i | 0 <= i < |head + tail|
        ensures |(head + tail)[i]| > 0 && InWindow(vToGroup, vertexShift, (head + tail)[i], minT, maxT)
      {
        if i >= |head| {
          assert (head + tail)[i] == tail[i - |head|];
        }
      }
    }
  }

  /** The state of initFromVector's frame loop at absolute frame `frame`
      (relative frame f = frame - timeShift, 1 <= f <= |counts| + 1), with
      inFrame vertices of that frame seen so far. */
  ghost predicate FillState(counts: seq<nat>, timeShift: nat, vertexShift: nat, frame: nat, inFrame: nat,
                       vertexCounter: nat, verticesInGroup: seq<nat>, vToGroup: seq<nat>, groups: seq<seq<nat>>)
  {
    && timeShift + 1 <= frame <= timeShift + |counts| + 1
    && var f := frame - timeShift;
       && (f <= |counts| ==> inFrame <= counts[f - 1])
       && (f == |counts| + 1 ==> inFrame == 0)
       && vertexCounter == vertexShift + Sum(counts[..f - 1]) + inFrame
       && verticesInGroup == Run(vertexShift + Sum(counts[..f - 1]), inFrame)
       && vToGroup == Labels(counts[..f - 1], timeShift) + Repeat(frame, inFrame)
       && groups == FramesBefore(counts, vertexShift, f)
  }

  lemma {:induction false} FillStart(counts: seq<nat>, timeShift: nat, vertexShift: nat)
    ensures FillState(counts, timeShift, vertexShift, timeShift + 1, 0, vertexShift, [], [], FramesBefore(counts, vertexShift, 1))
  {
  }

  /** The current frame is complete: its vertices become its group. */
  lemma FillCloseFrame(counts: seq<nat>, timeShift: nat, vertexShift: nat, frame: nat, inFrame: nat,
                       vertexCounter: nat, verticesInGroup: seq<nat>, vToGroup: seq<nat>, groups: seq<seq<nat>>)
    requires FillState(counts, timeShift, vertexShift, frame, inFrame, vertexCounter, verticesInGroup, vToGroup, groups)
    requires frame <= timeShift + |counts| && inFrame == counts[frame - 1 - timeShift]
    ensures FillState(counts, timeShift, vertexShift, frame + 1, 0, vertexCounter, [], vToGroup,
                      groups[frame - timeShift := verticesInGroup])
  {
    var f := frame - timeShift;
    SumPrefix(counts, f - 1);
    assert counts[..f][..f - 1] == counts[..f - 1];
    assert (frame + 1) - timeShift == f + 1;
  }

  /** One more vertex of the current frame. */
  lemma FillAddVertex(counts: seq<nat>, timeShift: nat, vertexShift: nat, frame: nat, inFrame: nat,
                       vertexCounter: nat, verticesInGroup: seq<nat>, vToGroup: seq<nat>, groups: seq<seq<nat>>)
    requires FillState(counts, timeShift, vertexShift, frame, inFrame, vertexCounter, verticesInGroup, vToGroup, groups)
    requires frame <= timeShift + |counts| && inFrame != counts[frame - 1 - timeShift]
    ensures FillState(counts, timeShift, vertexShift, frame, inFrame + 1, vertexCounter + 1,
                      verticesInGroup + [vertexCounter], vToGroup + [frame], groups)
  {
    var f := frame - timeShift;
    var base := Labels(counts[..f - 1], timeShift);
    assert Repeat(frame, inFrame + 1) == Repeat(frame, inFrame) + [frame];
    assert base + Repeat(frame, inFrame + 1) == (base + Repeat(frame, inFrame)) + [frame];
    assert Run(vertexShift + Sum(counts[..f - 1]), inFrame + 1) == verticesInGroup + [vertexCounter];
  }

  lemma {:induction false} FillBound(counts: seq<nat>, timeShift: nat, vertexShift: nat, frame: nat, inFrame: nat,
                       vertexCounter: nat, verticesInGroup: seq<nat>, vToGroup: seq<nat>, groups: seq<seq<nat>>)
    requires FillState(counts, timeShift, vertexShift, frame, inFrame, vertexCounter, verticesInGroup, vToGroup, groups)
    ensures vertexCounter - vertexShift <= Sum(counts)
    ensures frame == timeShift + |counts| + 1 ==>
              && vertexCounter == vertexShift + Sum(counts) && vToGroup == Labels(counts, timeShift)
              && groups == FramesBefore(counts, vertexShift, |counts| + 1)
  {
    var f := frame - timeShift;
    assert counts[..|counts|] == counts;
    if f <= |counts| {
      SumPrefix(counts, f - 1);
      SumPrefixMonotone(counts, f, |counts|);
    }
  }

  /** The frame loop of initFromVector: frames are numbered from
      timeShift + 1; each vertex id is pushed into its frame's group and its
      frame into vToGroup, and a group is stored once its frame is full. */
  method FillFrames(counts: seq<nat>, ts: nat, vs: nat) returns (gs: seq<seq<nat>>, vt: seq<nat>, vertexCounter: nat)
    ensures gs == FramesBefore(counts, vs, |counts| + 1)
    ensures vt == Labels(counts, ts) && |vt| == Sum(counts)
    ensures vertexCounter == vs + Sum(counts)
  {
    var mt := |counts| + ts;
    var groupsSize := mt + 2 - ts;
    gs := seq(groupsSize, _ => []);
    var inFrameCounter: nat := 0;
    vertexCounter := vs;
    var frameCounter: nat := ts + 1;
    var verticesInGroup: seq<nat> := [];
    vt := [];
    FillStart(counts, ts, vs);
    while frameCounter <= mt
      invariant frameCounter >= ts + 1
      invariant FillState(counts, ts, vs, frameCounter, inFrameCounter, vertexCounter, verticesInGroup, vt, gs)
      decreases Sum(counts) + |counts| + 1 - (vertexCounter - vs) - (frameCounter - ts)
    {
      FillBound(counts, ts, vs, frameCounter, inFrameCounter, vertexCounter, verticesInGroup, vt, gs);
      ghost var progress := (vertexCounter - vs) + (frameCounter - ts);
      while frameCounter <= mt && inFrameCounter == counts[frameCounter - 1 - ts]
        invariant frameCounter >= ts + 1
        invariant FillState(counts, ts, vs, frameCounter, inFrameCounter, vertexCounter, verticesInGroup, vt, gs)
        invariant (vertexCounter - vs) + (frameCounter - ts) >= progress
        invariant frameCounter > mt ==> (vertexCounter - vs) + (frameCounter - ts) > progress
        decreases mt + 1 - frameCounter
      {
        FillCloseFrame(counts, ts, vs, frameCounter, inFrameCounter, vertexCounter, verticesInGroup, vt, gs);
        gs := gs[frameCounter - ts := verticesInGroup];
        inFrameCounter := 0;
        frameCounter := frameCounter + 1;
        verticesInGroup := [];
      }
      if frameCounter <= mt {
        FillAddVertex(counts, ts, vs, frameCounter, inFrameCounter, vertexCounter, verticesInGroup, vt, gs);
        verticesInGroup := verticesInGroup + [vertexCounter];
        vt := vt + [frameCounter];
        inFrameCounter := inFrameCounter + 1;
        vertexCounter := vertexCounter + 1;
      }
      FillBound(counts, ts, vs, frameCounter, inFrameCounter, vertexCounter, verticesInGroup, vt, gs);
    }
    assert frameCounter == ts + |counts| + 1;
    FillBound(counts, ts, vs, frameCounter, inFrameCounter, vertexCounter, verticesInGroup, vt, gs);
    LabelsLength(counts, ts);
  }

  lemma ConcatAssociative<T>(a: seq<T>, b: seq<T>, c: seq<T>)
    ensures a + (b + c) == (a + b) + c
  {
  }

  /** One vertex of extractInnerPaths' inner loop. */
  lemma {:induction false} InnerPathStep(vToGroup: seq<nat>, vertexShift: nat, path: seq<nat>, j: nat, minT: nat, maxT: nat)
    requires j < |path| && Readable(vToGroup, vertexShift, path[j..], maxT)
    ensures vertexShift <= path[j] < vertexShift + |vToGroup|
    ensures var t := TimeOf(vToGroup, vertexShift, path[j]);
            && (t <= maxT ==> Readable(vToGroup, vertexShift, path[j + 1..], maxT))
            && InnerPath(vToGroup, vertexShift, path[j..], minT, maxT)
               == if t > maxT then []
                  else (if t >= minT then [path[j]] else []) + InnerPath(vToGroup, vertexShift, path[j + 1..], minT, maxT)
  {
    assert path[j..][0] == path[j] && path[j..][1..] == path[j + 1..];
  }

  /** One path of extractInnerPaths' outer loop. */
  lemma {:induction false} InnerPathsStep(vToGroup: seq<nat>, vertexShift: nat, paths: seq<seq<nat>>, i: nat, minT: nat, maxT: nat)
    requires i < |paths| && forall k | 0 <= k < |paths| :: Readable(vToGroup, vertexShift, paths[k], maxT)
    ensures var p := InnerPath(vToGroup, vertexShift, paths[i], minT, maxT);
            InnerPaths(vToGroup, vertexShift, paths[i..], minT, maxT)
            == (if |p| > 0 then [p] else []) + InnerPaths(vToGroup, vertexShift, paths[i + 1..], minT, maxT)
  {
    assert paths[i..][0] == paths[i] && paths[i..][1..] == paths[i + 1..];
  }

  /** With one frame of one vertex and timeShift 1, initFromVector ends the
      loop with frameCounter 3, while groups has the 3 entries for frames 1,
      2 and 3: groups.at(3) is out of range. */
  lemma ShiftedSinkOutOfRange()
    ensures var counts, ts := [1], 1;
            |counts| + ts + 1 == |FramesBefore(counts, 0, |counts| + 1)| && ts + |counts| + 1 - ts < |counts| + 2
  {
  }

  /** A graph without regular vertices: s = 0 sits in frame 0 and t = 1 in
      frame 1, both labelled accordingly, for any frame of zero vertices. */
  lemma NoVerticesPlacesSourceAndSink()
    ensures ExpectedGroups([], 0) == [[0], [1]] && Labels([], 0) + [0, 1] == [0, 1]
    ensures ExpectedGroups([0], 0) == [[0], [], [1]] && Labels([0], 0) + [0, 2] == [0, 2]
  {
    assert [0][..0] == [];
  }

  /** 2^64: size_t arithmetic wraps modulo this. */
  const SizeMod: nat := 0x1_0000_0000_0000_0000

  class VertexGroups {
    var groups: seq<seq<nat>>
    var vToGroup: seq<nat>
    /** Id of the last regular vertex (s and t excluded), as a signed value:
        -1 when there are no regular vertices and no vertex shift, where the
        source's size_t wraps to SIZE_MAX (see GetMaxVertex). */
    var maxVertex: int
    var maxTime: nat        // time of the last video frame
    var timeShift: nat      // the first frame is timeShift + 1
    var vertexShift: nat    // the first vertex is vertexShift

    /** Shape every constructed object has: one group per frame from
        timeShift to maxTime + 1, one vToGroup entry per vertex up to t. */
    ghost predicate Valid()
      reads this
    {
      |groups| + timeShift == maxTime + 2 && |vToGroup| + vertexShift == maxVertex + 3
    }

    constructor ()
      ensures groups == [] && vToGroup == []
      ensures maxVertex == 0 && maxTime == 0 && timeShift == 0 && vertexShift == 0
    {
      groups, vToGroup := [], [];
      maxVertex, maxTime, timeShift, vertexShift := 0, 0, 0, 0;
    }

    /** The constructor from a frame-to-vertices map and a vertex-to-frame
        vector; neither is shifted. */
    constructor FromMap(groupsMap: map<nat, seq<nat>>, vToGroupInit: seq<nat>)
      requires |vToGroupInit| >= 1
      requires forall key | key in groupsMap :: 0 < key < vToGroupInit[|vToGroupInit| - 1] + 2
      ensures Valid()
      ensures timeShift == 0 && vertexShift == 0 && vToGroup == vToGroupInit
      ensures maxVertex == |vToGroupInit| - 3 && maxTime == vToGroupInit[|vToGroupInit| - 1]
      ensures |groups| == maxTime + 2
      ensures forall t | 0 <= t < |groups| :: groups[t] == if t in groupsMap then groupsMap[t] else []
    {
      var mt := vToGroupInit[|vToGroupInit| - 1];
      var gs: seq<seq<nat>> := seq(mt + 2, _ => []);
      var rest := groupsMap.Keys;
      while rest != {}
        invariant rest <= groupsMap.Keys
        invariant |gs| == mt + 2
        invariant forall t | 0 <= t < |gs| :: gs[t] == if t in groupsMap && t !in rest then groupsMap[t] else []
        decreases rest
      {
        var key :| key in rest;
        gs := gs[key := groupsMap[key]];
        rest := rest - {key};
      }
      vToGroup := vToGroupInit;
      timeShift, vertexShift := 0, 0;
      maxVertex := |vToGroupInit| - 3;
      maxTime := mt;
      groups := gs;
    }

    /** initFromVector(verticesInFrames, timeShift_, vertexShift_) as
        written. The result is false where the source throws
        std::out_of_range: t is stored at groups.at(frameCounter), an
        absolute frame number, past the end of groups for every
        timeShift_ > 0. */
    method InitFromVector(verticesInFrames: seq<nat>, timeShift_: nat, vertexShift_: nat) returns (ok: bool)
      modifies this
      ensures Valid()
      ensures ok <==> timeShift_ == 0
      ensures timeShift == timeShift_ && vertexShift == vertexShift_
      ensures maxTime == |verticesInFrames| + timeShift_
      ensures maxVertex == vertexShift_ + Sum(verticesInFrames) - 1
      ensures vToGroup == Labels(verticesInFrames, timeShift_) + [timeShift_, |verticesInFrames| + timeShift_ + 1]
      ensures groups == if ok then ExpectedGroups(verticesInFrames, vertexShift_)
                        else FramesBefore(verticesInFrames, vertexShift_, |verticesInFrames| + 1)[0 := [vertexShift_ + Sum(verticesInFrames)]]
      ensures ok ==> Partition(groups, vToGroup, timeShift, vertexShift)
    {
      var counts := verticesInFrames;
      var ts, vs := timeShift_, vertexShift_;
      var gs, vt, vertexCounter := FillFrames(counts, ts, vs);
      var frameCounter := |counts| + ts + 1;
      vt := vt + [ts];
      gs := gs[0 := [vertexCounter]];
      vt := vt + [frameCounter];
      ok := frameCounter < |gs|;
      assert ok <==> ts == 0;
      if ok {
        gs := gs[frameCounter := [vertexCounter + 1]];
        assert gs == ExpectedGroups(counts, vs);
        ExpectedGroupsPartition(counts, 0, vs);
      } else {
        assert gs == FramesBefore(counts, vs, |counts| + 1)[0 := [vs + Sum(counts)]];
      }
      var mv: int := vertexCounter as int - 1;
      assert |gs| + ts == |counts| + ts + 2 && |vt| + vs == mv + 3;
      timeShift, vertexShift, maxTime, maxVertex := ts, vs, |counts| + ts, mv;
      vToGroup, groups := vt, gs;
    }

    /** initFromVector with t stored in its own frame, groups.at(frameCounter
        - timeShift), as the loop stores the video frames: the groups are
        those of the unshifted case and, with the labels shifted by
        timeShift_, partition the vertices for every shift. */
    method InitShifted(verticesInFrames: seq<nat>, timeShift_: nat, vertexShift_: nat)
      modifies this
      ensures Valid()
      ensures timeShift == timeShift_ && vertexShift == vertexShift_
      ensures maxTime == |verticesInFrames| + timeShift_
      ensures maxVertex == vertexShift_ + Sum(verticesInFrames) - 1
      ensures vToGroup == Labels(verticesInFrames, timeShift_) + [timeShift_, |verticesInFrames| + timeShift_ + 1]
      ensures groups == ExpectedGroups(verticesInFrames, vertexShift_)
      ensures Partition(groups, vToGroup, timeShift, vertexShift)
    {
      var counts := verticesInFrames;
      var ts, vs := timeShift_, vertexShift_;
      var gs, vt, vertexCounter := FillFrames(counts, ts, vs);
      var frameCounter := |counts| + ts + 1;
      vt := vt + [ts];
      gs := gs[0 := [vertexCounter]];
      vt := vt + [frameCounter];
      gs := gs[frameCounter - ts := [vertexCounter + 1]];
      assert gs == ExpectedGroups(counts, vs);
      ExpectedGroupsPartition(counts, ts, vs);
      var mv: int := vertexCounter as int - 1;
      assert |gs| + ts == |counts| + ts + 2 && |vt| + vs == mv + 3;
      timeShift, vertexShift, maxTime, maxVertex := ts, vs, |counts| + ts, mv;
      vToGroup, groups := vt, gs;
    }

    /** initFromVector(verticesInFrames): no shifts. */
    method InitFromFrames(verticesInFrames: seq<nat>)
      modifies this
      ensures Valid() && timeShift == 0 && vertexShift == 0
      ensures groups == ExpectedGroups(verticesInFrames, 0)
      ensures vToGroup == Labels(verticesInFrames, 0) + [0, |verticesInFrames| + 1]
      ensures Partition(groups, vToGroup, 0, 0)
    {
      InitShifted(verticesInFrames, 0, 0);
    }

    /** The frame of vertex v: when every vertex is listed in its frame, a
        frame of the graph that lists v. */
    function GetGroupIndex(v: nat): (r: nat)
      reads this
      requires Valid() && vertexShift <= v <= maxVertex + 2
      ensures LabelsListed(groups, vToGroup, timeShift, vertexShift) ==>
                timeShift <= r <= maxTime + 1 && v in groups[r - timeShift]
    {
      vToGroup[v - vertexShift]
    }

    /** The vertices of frame `index`, an absolute frame number: when every
        listed vertex is labelled, vertices of the graph labelled `index`. */
    function GetGroupVertices(index: nat): (r: seq<nat>)
      reads this
      requires Valid() && timeShift <= index <= maxTime + 1
      ensures GroupsLabelled(groups, vToGroup, timeShift, vertexShift) ==>
                forall k | 0 <= k < |r| :: vertexShift <= r[k] <= maxVertex + 2 && vToGroup[r[k] - vertexShift] == index
    {
      groups[index - timeShift]
    }

    /** When every vertex is listed in its frame, the frame getGroupIndex
        reports for v is a frame that lists v. */
    lemma GroupIndexListsVertex(v: nat)
      requires Valid() && vertexShift <= v <= maxVertex + 2
      requires LabelsListed(groups, vToGroup, timeShift, vertexShift)
      ensures timeShift <= GetGroupIndex(v) <= maxTime + 1 && v in GetGroupVertices(GetGroupIndex(v))
    {
      var u := v - vertexShift;
      assert timeShift <= vToGroup[u] < timeShift + |groups| && u + vertexShift in groups[vToGroup[u] - timeShift];
    }

    /** When every listed vertex is labelled with its frame, every vertex
        getGroupVertices lists for a frame maps back to that frame. */
    lemma GroupVerticesMapBack(index: nat, v: nat)
      requires Valid() && timeShift <= index <= maxTime + 1
      requires GroupsLabelled(groups, vToGroup, timeShift, vertexShift)
      requires v in GetGroupVertices(index)
      ensures vertexShift <= v <= maxVertex + 2 && GetGroupIndex(v) == index
    {
      var g := groups[index - timeShift];
      var k :| 0 <= k < |g| && g[k] == v;
      assert vertexShift <= groups[index - timeShift][k] < vertexShift + |vToGroup|
             && vToGroup[groups[index - timeShift][k] - vertexShift] == (index - timeShift) + timeShift;
    }

    /** The last regular vertex as the source's size_t holds it: three below
        the shifted vertex count with s and t, wrapped modulo 2^64 when that
        count is below 3 (SIZE_MAX for an empty, unshifted graph). */
    function GetMaxVertex(): (r: nat)
      reads this
      requires Valid()
      ensures r + 3 == |vToGroup| + vertexShift + (if |vToGroup| + vertexShift < 3 then SizeMod else 0)
    {
      if maxVertex >= 0 then maxVertex else maxVertex + SizeMod
    }

    /** The last video frame: the frame before t's. */
    function GetMaxTime(): (r: nat)
      reads this
      requires Valid()
      ensures r + 2 == |groups| + timeShift
    {
      maxTime
    }

    /** testCorrectness: true exactly when every vertex of every frame maps
        back to that frame; false where one of its assertions would fail. */
    method TestCorrectness() returns (ok: bool)
      requires Valid()
      ensures ok <==> GroupsLabelled(groups, vToGroup, timeShift, vertexShift)
    {
      var i := timeShift;
      while i <= maxTime + 1
        invariant timeShift <= i <= maxTime + 2
        invariant forall r, k | 0 <= r < i - timeShift && 0 <= k < |groups[r]| ::
                    vertexShift <= groups[r][k] <= maxVertex + 2
                    && vToGroup[groups[r][k] - vertexShift] == r + timeShift
      {
        var vertices := GetGroupVertices(i);
        var k := 0;
        while k < |vertices|
          invariant 0 <= k <= |vertices|
          invariant forall k' | 0 <= k' < k ::
                      vertexShift <= vertices[k'] <= maxVertex + 2 && vToGroup[vertices[k'] - vertexShift] == i
        {
          var v := vertices[k];
          assert v == groups[i - timeShift][k];
          if !(vertexShift <= v && v <= maxVertex + 2) {
            return false;
          }
          var gi := GetGroupIndex(v);
          if gi != i {
            assert vToGroup[groups[i - timeShift][k] - vertexShift] != (i - timeShift) + timeShift;
            return false;
          }
          k := k + 1;
        }
        assert vertices == groups[i - timeShift];
        i := i + 1;
      }
      return true;
    }

    /** extractInnerPaths(paths, minT, maxT), maxT inclusive. */
    method ExtractInnerPaths(paths: seq<seq<nat>>, minT: nat, maxT: nat) returns (outputPaths: seq<seq<nat>>)
      requires Valid()
      requires forall i | 0 <= i < |paths| :: Readable(vToGroup, vertexShift, paths[i], maxT)
      ensures outputPaths == InnerPaths(vToGroup, vertexShift, paths, minT, maxT)
    {
      var vt, vs := vToGroup, vertexShift;
      outputPaths := [];
      var i := 0;
      while i < |paths|
        invariant 0 <= i <= |paths|
        invariant InnerPaths(vt, vs, paths, minT, maxT) == outputPaths + InnerPaths(vt, vs, paths[i..], minT, maxT)
      {
        var path := paths[i];
        var outputPath: seq<nat> := [];
        var j := 0;
        assert path[0..] == path;
        while j < |path|
          invariant 0 <= j <= |path|
          invariant Readable(vt, vs, path[j..], maxT)
          invariant InnerPath(vt, vs, path, minT, maxT) == outputPath + InnerPath(vt, vs, path[j..], minT, maxT)
        {
          var vertex := path[j];
          InnerPathStep(vt, vs, path, j, minT, maxT);
          var time := GetGroupIndex(vertex);
          if time <= maxT {
            ghost var before := outputPath;
            ghost var keptV: seq<nat> := if time >= minT then [vertex] else [];
            ConcatAssociative(before, keptV, InnerPath(vt, vs, path[j + 1..], minT, maxT));
            if time >= minT {
              outputPath := outputPath + [vertex];
            }
            assert outputPath == before + keptV;
          } else {
            break;
          }
          j := j + 1;
        }
        if j == |path| {
          assert path[j..] == [];
        }
        assert outputPath == InnerPath(vt, vs, path, minT, maxT);
        InnerPathsStep(vt, vs, paths, i, minT, maxT);
        ghost var kept: seq<seq<nat>> := if |outputPath| > 0 then [outputPath] else [];
        ConcatAssociative(outputPaths, kept, InnerPaths(vt, vs, paths[i + 1..], minT, maxT));
        ghost var before := outputPaths;
        if |outputPath| > 0 {
          outputPaths := outputPaths + [outputPath];
        }
        assert outputPaths == before + kept;
        i := i + 1;
      }
    }
  }
}
