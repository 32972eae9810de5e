/**
  The fixpoint of merging: the graph the optimizer ends with, and the theorems
  about it for every input graph.
 */
module Fixpoint {
  import opened Sequences
  import opened FrameGraphs
  import opened Coalescing
  import opened Provenance
  import opened Execution

  lemma FirstMergeableUnique(g: Graph, a: nat, b: nat, c: nat, d: nat)
    requires FirstMergeable(g, a, b) && FirstMergeable(g, c, d)
    ensures a == c && b == d
  {
  }

  lemma FirstMergeableExists(g: Graph, a: nat, b: nat) returns (c: nat, d: nat)
    requires Mergeable(g, a, b)
    ensures FirstMergeable(g, c, d)
    decreases a, b
  {
    if NoneBefore(g, a, b) {
      c, d := a, b;
    } else {
      var p: nat, q: nat :| (p < a || (p == a && q < b)) && Mergeable(g, p, q);
      c, d := FirstMergeableExists(g, p, q);
    }
  }

  /** Each merge removes exactly one pass. */
  lemma MergeShrinks(g: Graph, a: nat, b: nat)
    requires Mergeable(g, a, b)
    ensures |MergeGroups(g, a, b)| == |g.passes| - 1
    ensures |Merge(g, a, b).passes| == |g.passes| - 1
  {
    MoverCount(g, a, b);
    MergeGroupsValid(g, a, b);
    RebuildLength(g, MergeGroups(g, a, b));
  }

  /** Merge the first mergeable pair until there is none. */
  ghost function Coalesced(g: Graph): Graph
    decreases |g.passes|
  {
    if exists a: nat, b: nat :: FirstMergeable(g, a, b) then
      var a: nat, b: nat :| FirstMergeable(g, a, b);
      MergeShrinks(g, a, b);
      Coalesced(Merge(g, a, b))
    else g
  }

  lemma CoalescedStep(g: Graph, a: nat, b: nat)
    requires FirstMergeable(g, a, b)
    ensures Coalesced(g) == Coalesced(Merge(g, a, b))
  {
    var c: nat, d: nat :| FirstMergeable(g, c, d) && Coalesced(g) == Coalesced(Merge(g, c, d));
    FirstMergeableUnique(g, a, b, c, d);
  }

  lemma CoalescedStop(g: Graph)
    requires Stuck(g)
    ensures Coalesced(g) == g
  {
  }

  /** Nothing mergeable is left, and the lost passes are exactly the merges. */
  lemma {:induction false} CoalescedIsFixpoint(g: Graph)
    ensures Stuck(Coalesced(g)) && Coalesced(Coalesced(g)) == Coalesced(g)
    ensures |Coalesced(g).passes| <= |g.passes|
    ensures Stuck(g) <==> |Coalesced(g).passes| == |g.passes|
    decreases |g.passes|
  {
    if Stuck(g) {
      CoalescedStop(g);
    } else {
      var p: nat, q: nat :| Mergeable(g, p, q);
      var a, b := FirstMergeableExists(g, p, q);
      CoalescedStep(g, a, b);
      MergeShrinks(g, a, b);
      CoalescedIsFixpoint(Merge(g, a, b));
    }
  }

  /** Edges forward, and pass indices that fit the 32-bit fields with the marker to spare. */
  ghost predicate WellFormed(g: Graph) {
    Forward(g) && |g.passes| <= NO_PASS
  }

  lemma FirstOrStuck(g: Graph)
    ensures Stuck(g) <==> !exists a: nat, b: nat :: FirstMergeable(g, a, b)
  {
    if p: nat, q: nat :| Mergeable(g, p, q) {
      var a, b := FirstMergeableExists(g, p, q);
    }
  }

  /** The old passes behind each pass of the result. The whole run is a descent: it folds, reorders along paths, and does nothing else. */
  ghost function Origins(g: Graph): (origins: seq<seq<nat>>)
    requires WellFormed(g)
    ensures Descends(g, Coalesced(g), origins)
    decreases |g.passes|
  {
    FirstOrStuck(g);
    if exists a: nat, b: nat :: FirstMergeable(g, a, b) then
      var a: nat, b: nat :| FirstMergeable(g, a, b);
      MergeDescends(g, a, b);
      CoalescedStep(g, a, b);
      DescendsTransitive(g, Merge(g, a, b), Coalesced(g), MergeGroups(g, a, b), Origins(Merge(g, a, b)));
      Compose(MergeGroups(g, a, b), Origins(Merge(g, a, b)))
    else
      CoalescedStop(g);
      DescendsReflexive(g);
      Singles(Iota(0, |g.passes|))
  }

  /** What composing with the origins of a merged graph needs. */
  lemma MergedOrigins(g: Graph, a: nat, b: nat)
    requires WellFormed(g) && Mergeable(g, a, b)
    ensures WellFormed(Merge(g, a, b)) && |Merge(g, a, b).passes| == |MergeGroups(g, a, b)| == |g.passes| - 1
    ensures
      var o := Origins(Merge(g, a, b));
      && Permutation(Flatten(o), |MergeGroups(g, a, b)|)
      && forall j :: 0 <= j < |o| ==> Bounded(o[j], |MergeGroups(g, a, b)|)
  {
    MergeDescends(g, a, b);
    MergeShrinks(g, a, b);
    var h := Merge(g, a, b);
    hide Merge, MergeGroups, Coalesced, Folds, FencesKept, PathsKept, ResourcesFollow, LinearInside, Flatten;
    DescentBounds(h, Coalesced(h), Origins(h));
  }

  lemma OriginsStep(g: Graph, a: nat, b: nat)
    requires WellFormed(g) && FirstMergeable(g, a, b)
    ensures WellFormed(Merge(g, a, b)) && |Merge(g, a, b).passes| == |MergeGroups(g, a, b)| == |g.passes| - 1
    ensures forall j :: 0 <= j < |Origins(Merge(g, a, b))| ==> Bounded(Origins(Merge(g, a, b))[j], |MergeGroups(g, a, b)|)
    ensures Origins(g) == Compose(MergeGroups(g, a, b), Origins(Merge(g, a, b)))
  {
    MergedOrigins(g, a, b);
    hide Merge, MergeGroups, Coalesced, Mergeable, Descends, NoneBefore;
    forall c: nat, d: nat | FirstMergeable(g, c, d) ensures c == a && d == b {
      FirstMergeableUnique(g, a, b, c, d);
    }
  }

  lemma OriginsStop(g: Graph)
    requires WellFormed(g) && Stuck(g)
    ensures Origins(g) == Singles(Iota(0, |g.passes|))
  {
  }

  lemma {:induction false} CoalescedWellFormed(g: Graph)
    requires WellFormed(g)
    ensures WellFormed(Coalesced(g))
    decreases |g.passes|
  {
    if Stuck(g) {
      CoalescedStop(g);
    } else {
      FirstOrStuck(g);
      var a: nat, b: nat :| FirstMergeable(g, a, b);
      CoalescedStep(g, a, b);
      MergeDescends(g, a, b);
      CoalescedWellFormed(Merge(g, a, b));
    }
  }

  lemma CoalescedDescends(g: Graph)
    requires WellFormed(g)
    ensures Descends(g, Coalesced(g), Origins(g))
    ensures WellFormed(Coalesced(g)) && |Coalesced(g).passes| <= |g.passes|
  {
    CoalescedWellFormed(g);
    CoalescedIsFixpoint(g);
  }

  /** Meaning: whatever machine the edges are complete for, the optimized frame runs as the original. */
  lemma CoalescedRunsAlike<S(!new)>(m: Machine<S>, g: Graph, st: S)
    requires WellFormed(g) && Respects(m, g)
    ensures Run(m, Coalesced(g), st) == Run(m, g, st)
  {
    CoalescedDescends(g);
    var origins := Origins(g);
    DescendantRunsAlike(m, g, Coalesced(g), origins, st);
  }

  /** Dependencies: old passes joined by a path end up in one pass, or in two joined by a path, in order. */
  lemma CoalescedKeepsPaths(g: Graph, u: nat, v: nat) returns (j: nat, k: nat)
    requires WellFormed(g) && Reaches(g, u, v)
    ensures j <= k < |Origins(g)| && u in Origins(g)[j] && v in Origins(g)[k]
    ensures j == k || Reaches(Coalesced(g), j, k)
  {
    hide Folds, FencesKept, ResourcesFollow, LinearInside;
    CoalescedDescends(g);
    ReachesForward(g, u, v);
    j := GroupOf(Origins(g), |g.passes|, u);
    k := GroupOf(Origins(g), |g.passes|, v);
    if j != k {
      ReachesForward(Coalesced(g), j, k);
    }
  }

  /** Between two passes of the result there is an edge on a resource exactly when old passes behind them had one. */
  lemma CoalescedEdges(g: Graph, j: nat, k: nat, r: nat)
    requires WellFormed(g) && j < |Coalesced(g).passes| && k < |Coalesced(g).passes|
    ensures |Origins(g)| == |Coalesced(g).passes|
    ensures Edge(j, k, r) in Coalesced(g).edges <==>
      j != k && exists u: nat, v: nat :: u in Origins(g)[j] && v in Origins(g)[k] && Edge(u, v, r) in g.edges
  {
    hide Folds, FencesKept, ResourcesFollow, LinearInside, PathsKept, Coalesced, Origins;
    CoalescedDescends(g);
    if j == k {
      assert Edge(j, k, r) in Coalesced(g).edges ==> HasEdge(Coalesced(g), j, k);
    } else {
      assert Edge(j, k, r) in Coalesced(g).edges <==> Joined(g, Origins(g)[j], Origins(g)[k], r);
    }
  }

  /**
    What the result no longer holds, in terms of paths alone: two live render passes
    with equal targets, the second of draws only, and between them only live render
    passes none of which is both fed by the pair and feeding it.
   */
  lemma NothingLeftToMerge(g: Graph, a: nat, b: nat)
    requires
      var h := Coalesced(g);
      && a < b < |h.passes|
      && h.passes[a].kind.Render? && !h.passes[a].flags.dead && h.passes[b].kind.Render? && !h.passes[b].flags.dead
      && h.passes[a].targets == h.passes[b].targets && ValidPass(h, h.passes[a]) && ValidPass(h, h.passes[b])
      && (forall c :: c in Slice(h.commands, h.passes[b].commands) ==> c.kind.DrawRun?)
    ensures
      var h := Coalesced(g);
      exists x: nat :: a < x < b && Unmovable(h, a, b, x)
  {
    var h := Coalesced(g);
    CoalescedIsFixpoint(g);
    assert !Mergeable(h, a, b);
    assert DrawOnly(PassCommands(h)[b]);
    var x: nat :| a < x < b && !Movable(h, a, b, x);
    assert Unmovable(h, a, b, x);
  }

  /** Not a live render pass within its arrays, or wedged: fed by the pair and feeding it. */
  ghost predicate Unmovable(g: Graph, a: nat, b: nat, x: nat)
    requires x < |g.passes|
  {
    || !g.passes[x].kind.Render? || g.passes[x].flags.dead || !ValidPass(g, g.passes[x])
    || ((Reaches(g, a, x) || Reaches(g, b, x)) && (Reaches(g, x, a) || Reaches(g, x, b)))
  }

  /** Flush boundaries: nothing is folded with, or carried across, a pass that is not a render pass. */
  lemma CoalescedKeepsFences(g: Graph, f: nat, u: nat) returns (j: nat, k: nat)
    requires WellFormed(g)
    requires f < |g.passes| && u < |g.passes| && u != f && !g.passes[f].kind.Render?
    ensures j < |Origins(g)| && k < |Origins(g)| && f in Origins(g)[j] && u in Origins(g)[k]
    ensures Origins(g)[j] == [f]
    ensures u < f <==> k < j
    ensures f < u <==> j < k
  {
    hide Descends, Flatten, Origins, Coalesced, Permutation;
    CoalescedDescends(g);
    var origins := Origins(g);
    DescendsPermutes(g, Coalesced(g), origins);
    j := GroupOf(origins, |g.passes|, f);
    k := GroupOf(origins, |g.passes|, u);
    FenceAlone(g, Coalesced(g), origins, j, f);
    if k < j {
      FencedPair(g, Coalesced(g), origins, k, j, u, f);
    } else if j < k {
      FencedPair(g, Coalesced(g), origins, j, k, f, u);
    }
  }

  lemma DescendsPermutes(g0: Graph, g: Graph, origins: seq<seq<nat>>)
    requires Descends(g0, g, origins)
    ensures |origins| == |g.passes| && Permutation(Flatten(origins), |g0.passes|)
  {
    hide Folds, FencesKept, PathsKept, ResourcesFollow, LinearInside, Flatten;
  }

  lemma FenceAlone(g0: Graph, g: Graph, origins: seq<seq<nat>>, j: nat, f: nat)
    requires Descends(g0, g, origins) && j < |origins| && f in origins[j]
    requires f < |g0.passes| && !g0.passes[f].kind.Render?
    ensures origins[j] == [f]
  {
    hide PathsKept, FencesKept, ResourcesFollow, LinearInside, Flatten;
    assert Folds(g0, g, origins[j], j);
    var t: nat :| t < |origins[j]| && origins[j][t] == f;
    if |origins[j]| > 1 {
      FoldedIsRender(g0, g, origins[j], j, t);
    }
  }

  lemma FoldedIsRender(g0: Graph, g: Graph, group: seq<nat>, j: nat, t: nat)
    requires j < |g.passes| && Folds(g0, g, group, j) && t < |group| && |group| > 1
    ensures g0.passes[group[t]].kind.Render?
  {
    assert LiveRender(g0.passes[group[1]]);
  }

  lemma FencedPair(g0: Graph, g: Graph, origins: seq<seq<nat>>, j: nat, k: nat, u: nat, v: nat)
    requires Descends(g0, g, origins) && j < k < |origins| && u in origins[j] && v in origins[k]
    requires u < |g0.passes| && v < |g0.passes| && !(g0.passes[u].kind.Render? && g0.passes[v].kind.Render?)
    ensures u < v
  {
    hide PathsKept, Folds, ResourcesFollow, LinearInside, Flatten;
    assert Fenced(g0, origins, j, k, u, v);
  }

  // ----- conservation of draws and commands -----

  /** Ranges tile the arrays in pass order: each starts where the one before it ends. */
  ghost predicate Packed(g: Graph) {
    && RangesValid(g)
    && g.draws == Flatten(PassDraws(g))
    && g.commands == Flatten(PassCommands(g))
    && forall j :: 0 <= j < |g.passes| ==>
      && g.passes[j].draws.first == |Flatten(PassDraws(g)[..j])|
      && g.passes[j].commands.first == |Flatten(PassCommands(g)[..j])|
  }

  /** Every draw and every command of the arrays belongs to exactly one pass. */
  ghost predicate OwnedOnce(g: Graph) {
    && multiset(g.draws) == multiset(Flatten(PassDraws(g)))
    && multiset(g.commands) == multiset(Flatten(PassCommands(g)))
  }

  lemma {:induction false} MaterializeFirst(g: Graph, groups: seq<seq<nat>>, j: nat)
    requires GroupsOf(groups, |g.passes|) && j < |groups|
    ensures |Materialize(g, groups).passes| == |groups|
    ensures Materialize(g, groups).passes[j].draws.first == |Materialize(g, groups[..j]).draws|
    ensures Materialize(g, groups).passes[j].commands.first == |Materialize(g, groups[..j]).commands|
  {
    MaterializeLength(g, groups);
    MaterializeLength(g, groups[..|groups| - 1]);
    if j < |groups| - 1 {
      MaterializeFirst(g, groups[..|groups| - 1], j);
      assert groups[..|groups| - 1][..j] == groups[..j];
    }
  }

  /** Rows that are each a concatenation flatten to one concatenation. */
  lemma {:induction false} FlattenRows<T>(f: seq<seq<T>>, rows: seq<seq<T>>, groups: seq<seq<nat>>)
    requires |rows| == |groups|
    requires forall j :: 0 <= j < |groups| ==> Bounded(groups[j], |f|) && rows[j] == ConcatMap(f, groups[j])
    ensures Bounded(Flatten(groups), |f|)
    ensures Flatten(rows) == ConcatMap(f, Flatten(groups))
  {
    if groups != [] {
      FlattenRows(f, rows[1..], groups[1..]);
      ConcatMapAppend(f, groups[0], Flatten(groups[1..]));
    }
  }

  /** Rebuilt arrays are packed, whatever the groups are. */
  lemma RebuildPacked(g: Graph, groups: seq<seq<nat>>)
    requires GroupsOf(groups, |g.passes|)
    ensures Packed(Rebuild(g, groups))
  {
    var h := Rebuild(g, groups);
    RebuildLength(g, groups);
    forall j | 0 <= j < |groups|
      ensures ValidPass(h, h.passes[j])
      ensures PassDraws(h)[j] == ConcatMap(PassDraws(g), groups[j])
      ensures PassCommands(h)[j] == ConcatMap(PassCommands(g), groups[j])
    {
      MaterializeRow(g, groups, j);
    }
    RowsFlatten(g, groups, |groups|);
    assert groups[..|groups|] == groups && PassDraws(h)[..|groups|] == PassDraws(h);
    assert PassCommands(h)[..|groups|] == PassCommands(h);
    forall j | 0 <= j < |groups|
      ensures h.passes[j].draws.first == |Flatten(PassDraws(h)[..j])|
      ensures h.passes[j].commands.first == |Flatten(PassCommands(h)[..j])|
    {
      MaterializeFirst(g, groups, j);
      RowsFlatten(g, groups, j);
    }
  }

  lemma RowsFlatten(g: Graph, groups: seq<seq<nat>>, j: nat)
    requires GroupsOf(groups, |g.passes|) && j <= |groups|
    requires |Rebuild(g, groups).passes| == |groups|
    ensures Flatten(PassDraws(Rebuild(g, groups))[..j]) == Materialize(g, groups[..j]).draws
    ensures Flatten(PassCommands(Rebuild(g, groups))[..j]) == Materialize(g, groups[..j]).commands
  {
    var h := Rebuild(g, groups);
    forall k | 0 <= k < j
      ensures PassDraws(h)[..j][k] == ConcatMap(PassDraws(g), groups[..j][k])
      ensures PassCommands(h)[..j][k] == ConcatMap(PassCommands(g), groups[..j][k])
    {
      MaterializeRow(g, groups, k);
    }
    FlattenRows(PassDraws(g), PassDraws(h)[..j], groups[..j]);
    FlattenRows(PassCommands(g), PassCommands(h)[..j], groups[..j]);
    MaterializeArrays(g, groups[..j]);
  }

  /** A descendant's passes own the same draws and commands, however they are grouped. */
  lemma DescendantConserves(g0: Graph, g: Graph, origins: seq<seq<nat>>)
    requires Descends(g0, g, origins)
    ensures multiset(Flatten(PassDraws(g))) == multiset(Flatten(PassDraws(g0)))
    ensures multiset(Flatten(PassCommands(g))) == multiset(Flatten(PassCommands(g0)))
  {
    forall j | 0 <= j < |origins|
      ensures Bounded(origins[j], |g0.passes|)
      ensures PassDraws(g)[j] == ConcatMap(PassDraws(g0), origins[j])
      ensures PassCommands(g)[j] == ConcatMap(PassCommands(g0), origins[j])
    {
      assert Folds(g0, g, origins[j], j);
    }
    FlattenRows(PassDraws(g0), PassDraws(g), origins);
    FlattenRows(PassCommands(g0), PassCommands(g), origins);
    var all := Iota(0, |g0.passes|);
    ConcatMapPermutation(PassDraws(g0), Flatten(origins), all);
    ConcatMapPermutation(PassCommands(g0), Flatten(origins), all);
    ConcatMapIota(PassDraws(g0), 0);
    ConcatMapIota(PassCommands(g0), 0);
    assert PassDraws(g0)[0..] == PassDraws(g0) && PassCommands(g0)[0..] == PassCommands(g0);
  }

  /** A run that merges anything leaves packed arrays. */
  lemma {:induction false} CoalescedPacked(g: Graph)
    requires !Stuck(g) || Packed(g)
    ensures Packed(Coalesced(g))
    decreases |g.passes|
  {
    if Stuck(g) {
      CoalescedStop(g);
    } else {
      var p: nat, q: nat :| Mergeable(g, p, q);
      var a, b := FirstMergeableExists(g, p, q);
      CoalescedStep(g, a, b);
      MergeShrinks(g, a, b);
      MergeGroupsValid(g, a, b);
      RebuildPacked(g, MergeGroups(g, a, b));
      CoalescedPacked(Merge(g, a, b));
    }
  }

  /** Conservation: arrays whose elements each had one owner are permuted, not grown or cut. */
  lemma CoalescedConserves(g: Graph)
    requires WellFormed(g) && OwnedOnce(g)
    ensures OwnedOnce(Coalesced(g))
    ensures multiset(Coalesced(g).draws) == multiset(g.draws)
    ensures multiset(Coalesced(g).commands) == multiset(g.commands)
  {
    CoalescedDescends(g);
    var origins := Origins(g);
    DescendantConserves(g, Coalesced(g), origins);
    if Stuck(g) {
      CoalescedStop(g);
    } else {
      CoalescedPacked(g);
    }
  }

  // ----- submission order inside a merged pass -----

  /**
    Of two render passes drawing to the same attachments, an earlier one that only
    draws is joined to the later one by a path, as writes to one target are.
   */
  ghost predicate SameTargetsOrdered(g: Graph) {
    forall u: nat, v: nat ::
      && u < v < |g.passes| && LiveRender(g.passes[u]) && LiveRender(g.passes[v])
      && g.passes[u].targets == g.passes[v].targets && DrawOnly(PassCommands(g)[u])
      ==> Reaches(g, u, v)
  }

  /** Then a merged pass lists its old passes, and so its draws, in submission order. */
  lemma CoalescedKeepsSubmissionOrder(g: Graph)
    requires WellFormed(g) && SameTargetsOrdered(g)
    ensures forall j, s, t :: 0 <= j < |Origins(g)| && 0 <= s < t < |Origins(g)[j]| ==> Origins(g)[j][s] < Origins(g)[j][t]
  {
    CoalescedDescends(g);
    var origins := Origins(g);
    PermutationFacts(Flatten(origins), |g.passes|);
    forall j, s, t | 0 <= j < |origins| && 0 <= s < t < |origins[j]| ensures origins[j][s] < origins[j][t] {
      GroupDistinct(origins, j);
      FoldedPairOrdered(g, Coalesced(g), origins[j], j, s, t);
    }
  }

  lemma FoldedPairOrdered(g0: Graph, g: Graph, group: seq<nat>, j: nat, s: nat, t: nat)
    requires j < |g.passes| && Folds(g0, g, group, j) && Linear(g0, group) && NoDuplicates(group)
    requires SameTargetsOrdered(g0) && s < t < |group|
    ensures group[s] < group[t]
  {
    assert LiveRender(g0.passes[group[t]]) && DrawOnly(PassCommands(g0)[group[t]]);
    assert g0.passes[group[s]].kind == g0.passes[group[t]].kind;
    assert !Reaches(g0, group[t], group[s]);
  }
}
