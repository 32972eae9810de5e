/**
  How a graph descends from another by merging passes, and that every such
  descent keeps commands, draws, dependencies, access logs and flush boundaries.
 */
module Provenance {
  import opened Sequences
  import opened FrameGraphs
  import opened Coalescing

  /** Everything but the ranges is taken over: kind, targets, flags, state profile, load/store policy. */
  predicate Inherits(p: PassNode, q: PassNode) {
    q == p.(draws := q.draws, commands := q.commands)
  }

  /** New pass j is exactly the old passes of `group`, in that order, and nothing else. */
  ghost predicate Folds(g0: Graph, g: Graph, group: seq<nat>, j: nat)
    requires j < |g.passes|
  {
    && group != []
    && Bounded(group, |g0.passes|)
    && PassCommands(g)[j] == ConcatMap(PassCommands(g0), group)
    && PassDraws(g)[j] == ConcatMap(PassDraws(g0), group)
    && Inherits(g0.passes[group[0]], g.passes[j])
    && (forall t :: 0 <= t < |group| ==>
      && g0.passes[group[t]].kind == g.passes[j].kind
      && g0.passes[group[t]].targets == g.passes[j].targets
      && g0.passes[group[t]].flags.dead == g.passes[j].flags.dead)
    && (forall t :: 0 < t < |group| ==>
      && LiveRender(g0.passes[group[t]])
      && DrawOnly(PassCommands(g0)[group[t]]))
  }

  /** Every old path is still a path between the new passes, unless it was folded into one. */
  ghost predicate PathsKept(g0: Graph, g: Graph, origins: seq<seq<nat>>) {
    forall j: nat, k: nat, u: nat, v: nat ::
      j < |origins| && k < |origins| && u in origins[j] && v in origins[k] && Reaches(g0, u, v) ==>
        j == k || Reaches(g, j, k)
  }

  /** Some edge on this resource leads from a pass of one group to a pass of the other. */
  ghost predicate Joined(g: Graph, group: seq<nat>, other: seq<nat>, resource: nat) {
    exists u: nat, v: nat :: u in group && v in other && Edge(u, v, resource) in g.edges
  }

  /** Two new passes have an edge on a resource exactly when old passes behind them had one. */
  ghost predicate EdgesKept(g0: Graph, g: Graph, origins: seq<seq<nat>>) {
    forall j: nat, k: nat, r: nat :: j < |origins| && k < |origins| && j != k ==>
      (Edge(j, k, r) in g.edges <==> Joined(g0, origins[j], origins[k], r))
  }

  /** Inside a pass nothing runs before something it depends on. */
  ghost predicate LinearInside(g0: Graph, origins: seq<seq<nat>>) {
    forall j :: 0 <= j < |origins| ==> Linear(g0, origins[j])
  }

  /** u ends up before v across a flush boundary: one of the two is not a plain render pass. */
  ghost predicate Fenced(g0: Graph, origins: seq<seq<nat>>, j: nat, k: nat, u: nat, v: nat) {
    && j < k < |origins| && u in origins[j] && v in origins[k]
    && u < |g0.passes| && v < |g0.passes|
    && !(g0.passes[u].kind.Render? && g0.passes[v].kind.Render?)
  }

  /** No pass changes sides of a pass that is not a plain render pass. */
  ghost predicate FencesKept(g0: Graph, origins: seq<seq<nat>>) {
    forall j: nat, k: nat, u: nat, v: nat :: Fenced(g0, origins, j, k, u, v) ==> u < v
  }

  /** An access that named old pass u names the new pass that u is part of. */
  ghost predicate AccessFollows(g0: Graph, origins: seq<seq<nat>>, x: Access, y: Access) {
    && y.kind == x.kind
    && y.stage == x.stage
    && if x.pass < |g0.passes| then y.pass < |origins| && x.pass in origins[y.pass] else y.pass == x.pass
  }

  ghost predicate ResourceFollows(g0: Graph, origins: seq<seq<nat>>, r: Resource, s: Resource) {
    && s.handle == r.handle
    && s.readbackSeen == r.readbackSeen
    && |s.accesses| == |r.accesses|
    && forall i :: 0 <= i < |r.accesses| ==> AccessFollows(g0, origins, r.accesses[i], s.accesses[i])
  }

  ghost predicate ResourcesFollow(g0: Graph, g: Graph, origins: seq<seq<nat>>) {
    && |g.resources| == |g0.resources|
    && forall i :: 0 <= i < |g.resources| ==> ResourceFollows(g0, origins, g0.resources[i], g.resources[i])
  }

  /** `g` is `g0` with the passes of each group of `origins` folded into one, in that order. */
  ghost predicate Descends(g0: Graph, g: Graph, origins: seq<seq<nat>>) {
    && |origins| == |g.passes|
    && Permutation(Flatten(origins), |g0.passes|)
    && (forall j :: 0 <= j < |origins| ==> Folds(g0, g, origins[j], j))
    && PathsKept(g0, g, origins)
    && EdgesKept(g0, g, origins)
    && LinearInside(g0, origins)
    && FencesKept(g0, origins)
    && ResourcesFollow(g0, g, origins)
  }

  // ----- rebuilding keeps what each group names -----

  lemma {:induction false} MaterializeRow(g: Graph, groups: seq<seq<nat>>, j: nat)
    requires GroupsOf(groups, |g.passes|) && j < |groups|
    ensures |Materialize(g, groups).passes| == |groups|
    ensures
      var l := Materialize(g, groups);
      var p := l.passes[j];
      && p == g.passes[groups[j][0]].(draws := p.draws, commands := p.commands)
      && ValidRange(p.draws, |l.draws|)
      && ValidRange(p.commands, |l.commands|)
      && Slice(l.draws, p.draws) == ConcatMap(PassDraws(g), groups[j])
      && Slice(l.commands, p.commands) == ConcatMap(PassCommands(g), groups[j])
  {
    var l, init := Materialize(g, groups), Materialize(g, groups[..|groups| - 1]);
    MaterializeLength(g, groups);
    if j < |groups| - 1 {
      MaterializeRow(g, groups[..|groups| - 1], j);
      var p := l.passes[j];
      assert p == init.passes[j];
      SliceOfPrefix(init.draws, l.draws[|init.draws|..], p.draws);
      SliceOfPrefix(init.commands, l.commands[|init.commands|..], p.commands);
      assert l.draws == init.draws + l.draws[|init.draws|..];
      assert l.commands == init.commands + l.commands[|init.commands|..];
      hide ConcatMap, PassDraws, PassCommands, Slice;
    }
  }

  lemma {:induction false} MaterializeLength(g: Graph, groups: seq<seq<nat>>)
    requires GroupsOf(groups, |g.passes|)
    ensures |Materialize(g, groups).passes| == |groups|
  {
    if groups != [] {
      MaterializeLength(g, groups[..|groups| - 1]);
    }
  }

  lemma SliceOfPrefix<T>(s: seq<T>, t: seq<T>, r: Range)
    requires ValidRange(r, |s|)
    ensures ValidRange(r, |s + t|) && Slice(s + t, r) == Slice(s, r)
  {
    assert (s + t)[r.first..r.first + r.count] == s[r.first..r.first + r.count];
  }

  /** The rebuilt arrays are the old slices, in the new pass order, without gap or overlap. */
  lemma {:induction false} MaterializeArrays(g: Graph, groups: seq<seq<nat>>)
    requires GroupsOf(groups, |g.passes|)
    ensures Bounded(Flatten(groups), |g.passes|)
    ensures Materialize(g, groups).draws == ConcatMap(PassDraws(g), Flatten(groups))
    ensures Materialize(g, groups).commands == ConcatMap(PassCommands(g), Flatten(groups))
  {
    if groups != [] {
      var init, last := groups[..|groups| - 1], groups[|groups| - 1];
      MaterializeArrays(g, init);
      assert groups == init + [last];
      FlattenAppend(init, [last]);
      assert Flatten([last]) == last;
      ConcatMapAppend(PassDraws(g), Flatten(init), last);
      ConcatMapAppend(PassCommands(g), Flatten(init), last);
    }
  }

  lemma {:induction false} RemapOfMember(groups: seq<seq<nat>>, n: nat, j: nat, x: nat)
    requires x < n && j < |groups| && x in groups[j]
    requires forall k :: j < k < |groups| ==> x !in groups[k]
    ensures RemapOf(groups, n)[x] == j
  {
    if j < |groups| - 1 {
      RemapOfMember(groups[..|groups| - 1], n, j, x);
    }
  }

  lemma RemapOfGroup(groups: seq<seq<nat>>, n: nat, j: nat, x: nat)
    requires Permutation(Flatten(groups), n)
    requires j < |groups| && x in groups[j]
    ensures x < n && RemapOf(groups, n)[x] == j
  {
    GroupsBounded(groups, n);
    assert Bounded(groups[j], n);
    forall k | j < k < |groups| ensures x !in groups[k] {
      if x in groups[k] {
        GroupsDisjoint(groups, n, j, k, x);
      }
    }
    RemapOfMember(groups, n, j, x);
  }

  lemma {:induction false} RemapEdgesMember(es: seq<Edge>, remap: seq<nat>, e: Edge)
    requires e in es && EdgeKept(e, remap)
    ensures RemapEdge(e, remap) in RemapEdges(es, remap)
  {
    if e != es[|es| - 1] {
      RemapEdgesMember(es[..|es| - 1], remap, e);
    }
  }

  lemma {:induction false} RemapEdgesOrigin(es: seq<Edge>, remap: seq<nat>, f: Edge) returns (e: Edge)
    requires f in RemapEdges(es, remap)
    ensures e in es && EdgeKept(e, remap) && RemapEdge(e, remap) == f
  {
    if f in RemapEdges(es[..|es| - 1], remap) {
      e := RemapEdgesOrigin(es[..|es| - 1], remap, f);
    } else {
      e := es[|es| - 1];
    }
  }

  lemma {:induction false} RemapEdgesDistinct(es: seq<Edge>, remap: seq<nat>)
    ensures NoDuplicates(RemapEdges(es, remap))
  {
    if es != [] {
      RemapEdgesDistinct(es[..|es| - 1], remap);
    }
  }

  /** Edge e leads, on its resource, from an old pass that became j to one that became k. */
  predicate LeadsTo(e: Edge, remap: seq<nat>, j: nat, k: nat) {
    e.src < |remap| && e.dst < |remap| && remap[e.src] == j && remap[e.dst] == k
  }

  /** The rebuilt edges, resource by resource. */
  lemma RemapEdgesExactly(es: seq<Edge>, remap: seq<nat>, j: nat, k: nat, r: nat)
    requires j != NO_PASS && k != NO_PASS
    ensures Edge(j, k, r) in RemapEdges(es, remap) <==>
      j != k && exists e :: e in es && e.resource == r && LeadsTo(e, remap, j, k)
  {
    if Edge(j, k, r) in RemapEdges(es, remap) {
      var e := RemapEdgesOrigin(es, remap, Edge(j, k, r));
    }
    if j != k && exists e :: e in es && e.resource == r && LeadsTo(e, remap, j, k) {
      var e :| e in es && e.resource == r && LeadsTo(e, remap, j, k);
      RemapEdgesMember(es, remap, e);
    }
  }

  /** They stand in the order in which the old edges first give them. */
  lemma {:induction false} RemapEdgesInOrder(es: seq<Edge>, remap: seq<nat>, i: nat, j: nat) returns (p: nat)
    requires i < j < |RemapEdges(es, remap)|
    ensures p < |es| && EdgeKept(es[p], remap) && RemapEdge(es[p], remap) == RemapEdges(es, remap)[i]
    ensures forall q :: 0 <= q <= p && EdgeKept(es[q], remap) ==> RemapEdge(es[q], remap) != RemapEdges(es, remap)[j]
  {
    var init := es[..|es| - 1];
    var prev := RemapEdges(init, remap);
    if j < |prev| {
      p := RemapEdgesInOrder(init, remap, i, j);
    } else {
      var e := RemapEdgesOrigin(init, remap, prev[i]);
      p :| 0 <= p < |init| && init[p] == e;
      forall q | 0 <= q <= p && EdgeKept(es[q], remap) ensures RemapEdge(es[q], remap) !in [RemapEdges(es, remap)[j]] {
        RemapEdgesMember(init, remap, init[q]);
      }
    }
  }

  lemma RebuildLength(g: Graph, groups: seq<seq<nat>>)
    requires GroupsOf(groups, |g.passes|)
    ensures |Rebuild(g, groups).passes| == |groups|
  {
    MaterializeLength(g, groups);
  }

  lemma InSomeGroup(groups: seq<seq<nat>>, n: nat, x: nat)
    requires Permutation(Flatten(groups), n) && x < n
    ensures RemapOf(groups, n)[x] < |groups| && x in groups[RemapOf(groups, n)[x]]
  {
    var j := GroupOf(groups, n, x);
    RemapOfGroup(groups, n, j, x);
  }

  /** The edges between two new passes, resource by resource. */
  lemma EdgeBetween(g: Graph, groups: seq<seq<nat>>, j: nat, k: nat, r: nat)
    requires GroupsOf(groups, |g.passes|) && Permutation(Flatten(groups), |g.passes|)
    requires j < |groups| && k < |groups|
    ensures Edge(j, k, r) in Rebuild(g, groups).edges ==> j != k && Joined(g, groups[j], groups[k], r)
    ensures |groups| <= NO_PASS && j != k && Joined(g, groups[j], groups[k], r) ==> Edge(j, k, r) in Rebuild(g, groups).edges
  {
    var n := |g.passes|;
    var remap := RemapOf(groups, n);
    if Edge(j, k, r) in Rebuild(g, groups).edges {
      var e := RemapEdgesOrigin(g.edges, remap, Edge(j, k, r));
      InSomeGroup(groups, n, e.src);
      InSomeGroup(groups, n, e.dst);
      assert e == Edge(e.src, e.dst, r);
    }
    if |groups| <= NO_PASS && j != k && Joined(g, groups[j], groups[k], r) {
      var u: nat, v: nat :| u in groups[j] && v in groups[k] && Edge(u, v, r) in g.edges;
      RemapOfGroup(groups, n, j, u);
      RemapOfGroup(groups, n, k, v);
      RemapEdgesMember(g.edges, remap, Edge(u, v, r));
    }
  }

  /** No rebuilt edge leads outside the new passes. */
  lemma EdgeInside(g: Graph, groups: seq<seq<nat>>, e: Edge)
    requires GroupsOf(groups, |g.passes|) && Permutation(Flatten(groups), |g.passes|)
    requires e in Rebuild(g, groups).edges
    ensures e.src < |groups| && e.dst < |groups|
  {
    var n := |g.passes|;
    var was := RemapEdgesOrigin(g.edges, RemapOf(groups, n), e);
    InSomeGroup(groups, n, was.src);
    InSomeGroup(groups, n, was.dst);
  }

  /** An old edge between different groups becomes an edge between the new passes. */
  lemma EdgeImage(g: Graph, groups: seq<seq<nat>>, j: nat, k: nat, u: nat, v: nat)
    requires GroupsOf(groups, |g.passes|) && Permutation(Flatten(groups), |g.passes|)
    requires |groups| <= NO_PASS
    requires j < |groups| && k < |groups| && j != k
    requires u in groups[j] && v in groups[k] && HasEdge(g, u, v)
    ensures HasEdge(Rebuild(g, groups), j, k)
  {
    var r: nat :| Edge(u, v, r) in g.edges;
    hide Rebuild;
    RebuildLength(g, groups);
    EdgeBetween(g, groups, j, k, r);
  }

  /** And every new edge comes from one. */
  lemma EdgeOrigin(g: Graph, groups: seq<seq<nat>>, j: nat, k: nat) returns (u: nat, v: nat)
    requires GroupsOf(groups, |g.passes|) && Permutation(Flatten(groups), |g.passes|)
    requires HasEdge(Rebuild(g, groups), j, k)
    ensures j < |groups| && k < |groups| && j != k
    ensures u in groups[j] && v in groups[k] && HasEdge(g, u, v)
  {
    hide Rebuild;
    RebuildLength(g, groups);
    var r: nat :| Edge(j, k, r) in Rebuild(g, groups).edges;
    EdgeInside(g, groups, Edge(j, k, r));
    EdgeBetween(g, groups, j, k, r);
    u, v :| u in groups[j] && v in groups[k] && Edge(u, v, r) in g.edges;
    GroupsBounded(groups, |g.passes|);
  }

  /** A path keeps connecting the groups of its ends. */
  lemma {:induction false} PathImage(g: Graph, groups: seq<seq<nat>>, p: seq<nat>, j: nat, k: nat)
    requires GroupsOf(groups, |g.passes|) && Permutation(Flatten(groups), |g.passes|)
    requires |groups| <= NO_PASS
    requires Path(g, p) && j < |groups| && k < |groups| && p[0] in groups[j] && p[|p| - 1] in groups[k]
    ensures Reaches(Rebuild(g, groups), j, k)
    decreases |p|
  {
    var h := Rebuild(g, groups);
    RebuildLength(g, groups);
    if |p| == 1 {
      GroupsDisjoint(groups, |g.passes|, j, k, p[0]);
      ReachesSelf(h, j);
    } else {
      var q := p[..|p| - 1];
      var m := GroupOf(groups, |g.passes|, q[|q| - 1]);
      PathImage(g, groups, q, j, m);
      if m != k {
        assert HasEdge(g, p[|p| - 2], p[|p| - 1]);
        EdgeImage(g, groups, m, k, p[|p| - 2], p[|p| - 1]);
        ReachesThenEdge(h, j, m, k);
      }
    }
  }

  // ----- one merge -----

  /** What is known of the groups of a legal merge. */
  lemma MergeGroupsFacts(g: Graph, a: nat, b: nat)
    requires Mergeable(g, a, b) && Forward(g)
    ensures
      var groups := MergeGroups(g, a, b);
      && GroupsOf(groups, |g.passes|)
      && Permutation(Flatten(groups), |g.passes|)
      && Linear(g, Flatten(groups))
      && |groups| == |g.passes| - 1
  {
    InterveningNotBlocked(g, a, b);
    MergeGroupsValid(g, a, b);
    FlattenMergeGroups(g, a, b);
    MergeOrderPermutation(g, a, b);
    MergeOrderLinear(g, a, b);
    PermutationFacts(MergeOrder(g, a, b), |g.passes|);
  }

  /** After a merge every edge still runs from an earlier to a later pass. */
  lemma MergeForward(g: Graph, a: nat, b: nat)
    requires Mergeable(g, a, b) && Forward(g)
    ensures Forward(Merge(g, a, b))
  {
    var groups := MergeGroups(g, a, b);
    MergeGroupsFacts(g, a, b);
    forall j: nat, k: nat | HasEdge(Merge(g, a, b), j, k) ensures j < k {
      var u, v := EdgeOrigin(g, groups, j, k);
      ReachesEdge(g, u, v);
      if k < j {
        LinearGroups(g, groups, k, j, v, u);
      }
    }
  }

  lemma MergeFolds(g: Graph, a: nat, b: nat, j: nat)
    requires Mergeable(g, a, b) && Forward(g)
    requires j < |MergeGroups(g, a, b)|
    ensures |Merge(g, a, b).passes| == |MergeGroups(g, a, b)|
    ensures Folds(g, Merge(g, a, b), MergeGroups(g, a, b)[j], j)
  {
    MergeGroupsValid(g, a, b);
    RebuiltRow(g, MergeGroups(g, a, b), j);
    var group := MergeGroups(g, a, b)[j];
    assert group == [a, b] || |group| == 1;
    hide PassCommands, PassDraws, ConcatMap, MergeGroups, Rebuild;
  }

  /** Pass j of a rebuilt graph has the rows of its group and everything else from the first of it. */
  lemma RebuiltRow(g: Graph, groups: seq<seq<nat>>, j: nat)
    requires GroupsOf(groups, |g.passes|) && j < |groups|
    ensures
      var h := Rebuild(g, groups);
      && |h.passes| == |groups|
      && Inherits(g.passes[groups[j][0]], h.passes[j])
      && PassCommands(h)[j] == ConcatMap(PassCommands(g), groups[j])
      && PassDraws(h)[j] == ConcatMap(PassDraws(g), groups[j])
  {
    MaterializeRow(g, groups, j);
    hide Materialize, ConcatMap, RemapOf, RemapEdges, RemapResources;
  }

  lemma MoverCount(g: Graph, a: nat, b: nat)
    requires Mergeable(g, a, b)
    ensures |Movers(g, a, b, Before, b)| + |Movers(g, a, b, After, b)| == b - a - 1
  {
    InterveningNotBlocked(g, a, b);
    MoversPartition(g, a, b, b);
    var before, after := multiset(Movers(g, a, b, Before, b)), multiset(Movers(g, a, b, After, b));
    assert |before + after| == |multiset(Iota(a + 1, b))|;
  }

  /** Only passes from a to b change position, and they stay within the window. */
  lemma MergeGroupWindow(g: Graph, a: nat, b: nat, j: nat, u: nat)
    requires Mergeable(g, a, b)
    requires j < |MergeGroups(g, a, b)| && u in MergeGroups(g, a, b)[j]
    ensures j < a ==> u == j
    ensures a <= j < b ==> a <= u <= b
    ensures b <= j ==> u == j + 1
  {
    MoverCount(g, a, b);
    var before, after := Movers(g, a, b, Before, b), Movers(g, a, b, After, b);
    PieceOf(Singles(Iota(0, a)), Singles(before), [[a, b]], Singles(after), Singles(Iota(b + 1, |g.passes|)), j);
  }

  lemma MergeFence(g: Graph, a: nat, b: nat, j: nat, k: nat, u: nat, v: nat)
    requires Mergeable(g, a, b) && Fenced(g, MergeGroups(g, a, b), j, k, u, v)
    ensures u < v
  {
    MergeGroupWindow(g, a, b, j, u);
    MergeGroupWindow(g, a, b, k, v);
    if a <= j && k < b {
      WindowIsRender(g, a, b, u);
      WindowIsRender(g, a, b, v);
    }
  }

  lemma MergeFences(g: Graph, a: nat, b: nat)
    requires Mergeable(g, a, b)
    ensures FencesKept(g, MergeGroups(g, a, b))
  {
    forall j: nat, k: nat, u: nat, v: nat | Fenced(g, MergeGroups(g, a, b), j, k, u, v) ensures u < v {
      MergeFence(g, a, b, j, k, u, v);
    }
  }

  lemma WindowIsRender(g: Graph, a: nat, b: nat, x: nat)
    requires Mergeable(g, a, b) && a <= x <= b
    ensures g.passes[x].kind.Render?
  {
    if a < x < b {
      assert Movable(g, a, b, x);
    }
  }

  lemma MergePaths(g: Graph, a: nat, b: nat)
    requires Mergeable(g, a, b) && Forward(g) && |g.passes| <= NO_PASS
    ensures PathsKept(g, Merge(g, a, b), MergeGroups(g, a, b))
  {
    var groups, h := MergeGroups(g, a, b), Merge(g, a, b);
    MergeGroupsFacts(g, a, b);
    forall j: nat, k: nat, u: nat, v: nat
      | j < |groups| && k < |groups| && u in groups[j] && v in groups[k] && Reaches(g, u, v)
      ensures j == k || Reaches(h, j, k)
    {
      var p :| PathBetween(g, p, u, v);
      PathImage(g, groups, p, j, k);
    }
  }

  lemma MergeResources(g: Graph, a: nat, b: nat)
    requires Mergeable(g, a, b) && Forward(g) && |g.passes| <= NO_PASS
    ensures ResourcesFollow(g, Merge(g, a, b), MergeGroups(g, a, b))
  {
    var groups, h := MergeGroups(g, a, b), Merge(g, a, b);
    MergeGroupsFacts(g, a, b);
    forall i | 0 <= i < |g.resources| ensures ResourceFollows(g, groups, g.resources[i], h.resources[i]) {
      var r, s := g.resources[i], h.resources[i];
      forall t | 0 <= t < |r.accesses| ensures AccessFollows(g, groups, r.accesses[t], s.accesses[t]) {
        AccessImage(g, groups, r.accesses[t]);
      }
    }
  }

  lemma AccessImage(g: Graph, groups: seq<seq<nat>>, x: Access)
    requires Permutation(Flatten(groups), |g.passes|) && |groups| <= NO_PASS
    ensures AccessFollows(g, groups, x, RemapAccess(x, RemapOf(groups, |g.passes|)))
  {
    if x.pass < |g.passes| {
      var j := GroupOf(groups, |g.passes|, x.pass);
      RemapOfGroup(groups, |g.passes|, j, x.pass);
    }
  }

  /** Between two passes of a merged graph there is an edge on a resource exactly when old passes behind them had one. */
  lemma MergeEdge(g: Graph, a: nat, b: nat, j: nat, k: nat, r: nat)
    requires Mergeable(g, a, b) && |g.passes| <= NO_PASS
    requires j < |MergeGroups(g, a, b)| && k < |MergeGroups(g, a, b)|
    ensures Edge(j, k, r) in Merge(g, a, b).edges <==>
      j != k && exists u: nat, v: nat :: u in MergeGroups(g, a, b)[j] && v in MergeGroups(g, a, b)[k] && Edge(u, v, r) in g.edges
  {
    MergeGroupsSound(g, a, b);
    EdgeBetween(g, MergeGroups(g, a, b), j, k, r);
  }

  lemma MergeGroupsSound(g: Graph, a: nat, b: nat)
    requires Mergeable(g, a, b)
    ensures GroupsOf(MergeGroups(g, a, b), |g.passes|)
    ensures Permutation(Flatten(MergeGroups(g, a, b)), |g.passes|)
    ensures |MergeGroups(g, a, b)| == |g.passes| - 1
  {
    InterveningNotBlocked(g, a, b);
    FlattenMergeGroups(g, a, b);
    MergeOrderPermutation(g, a, b);
    MergeGroupsValid(g, a, b);
    MoverCount(g, a, b);
  }

  /** Every edge of a merged graph joins two different passes of it, and none is there twice. */
  lemma MergeEdgesInside(g: Graph, a: nat, b: nat)
    requires Mergeable(g, a, b)
    ensures forall e :: e in Merge(g, a, b).edges ==>
      e.src < |Merge(g, a, b).passes| && e.dst < |Merge(g, a, b).passes| && e.src != e.dst
    ensures NoDuplicates(Merge(g, a, b).edges)
  {
    var groups, h := MergeGroups(g, a, b), Merge(g, a, b);
    MergeGroupsSound(g, a, b);
    RemapEdgesDistinct(g.edges, RemapOf(groups, |g.passes|));
    assert NoDuplicates(h.edges);
    RebuildLength(g, groups);
    forall e | e in h.edges ensures e.src < |h.passes| && e.dst < |h.passes| && e.src != e.dst {
      EdgeInside(g, groups, e);
      EdgeBetween(g, groups, e.src, e.dst, e.resource);
      assert e == Edge(e.src, e.dst, e.resource);
    }
  }

  lemma MergeEdges(g: Graph, a: nat, b: nat)
    requires Mergeable(g, a, b) && |g.passes| <= NO_PASS
    ensures EdgesKept(g, Merge(g, a, b), MergeGroups(g, a, b))
  {
    hide Merge, MergeGroups, Movable;
    forall j: nat, k: nat, r: nat | j < |MergeGroups(g, a, b)| && k < |MergeGroups(g, a, b)| && j != k
      ensures Edge(j, k, r) in Merge(g, a, b).edges <==> Joined(g, MergeGroups(g, a, b)[j], MergeGroups(g, a, b)[k], r)
    {
      MergeEdge(g, a, b, j, k, r);
    }
  }

  /** One merge is a descent. */
  lemma MergeDescends(g: Graph, a: nat, b: nat)
    requires Mergeable(g, a, b) && Forward(g) && |g.passes| <= NO_PASS
    ensures Descends(g, Merge(g, a, b), MergeGroups(g, a, b))
    ensures Forward(Merge(g, a, b))
    ensures |Merge(g, a, b).passes| == |g.passes| - 1
  {
    var groups, h := MergeGroups(g, a, b), Merge(g, a, b);
    MergeGroupsFacts(g, a, b);
    RebuildLength(g, groups);
    forall j | 0 <= j < |groups| ensures Folds(g, h, groups[j], j) && Linear(g, groups[j]) {
      MergeFolds(g, a, b, j);
      MergeGroupLinear(g, a, b, j);
    }
    MergePaths(g, a, b);
    MergeEdges(g, a, b);
    MergeFences(g, a, b);
    MergeResources(g, a, b);
    MergeForward(g, a, b);
  }

  lemma MergeGroupLinear(g: Graph, a: nat, b: nat, j: nat)
    requires a < b < |g.passes| && Forward(g) && j < |MergeGroups(g, a, b)|
    ensures Linear(g, MergeGroups(g, a, b)[j])
  {
    var group := MergeGroups(g, a, b)[j];
    assert group == [a, b] || |group| == 1;
    LinearAscending(g, group);
  }

  // ----- descents compose -----

  /** The oldest passes behind each newest one. */
  ghost function Compose(o1: seq<seq<nat>>, o2: seq<seq<nat>>): (r: seq<seq<nat>>)
    requires forall j :: 0 <= j < |o2| ==> Bounded(o2[j], |o1|)
    ensures |r| == |o2|
    ensures forall j :: 0 <= j < |r| ==> r[j] == ConcatMap(o1, o2[j])
  {
    seq(|o2|, j requires 0 <= j < |o2| => ConcatMap(o1, o2[j]))
  }

  lemma {:induction false} FlattenCompose(o1: seq<seq<nat>>, o2: seq<seq<nat>>)
    requires forall j :: 0 <= j < |o2| ==> Bounded(o2[j], |o1|)
    ensures Bounded(Flatten(o2), |o1|)
    ensures Flatten(Compose(o1, o2)) == ConcatMap(o1, Flatten(o2))
  {
    if o2 != [] {
      FlattenCompose(o1, o2[1..]);
      assert Compose(o1, o2)[1..] == Compose(o1, o2[1..]);
      ConcatMapAppend(o1, o2[0], Flatten(o2[1..]));
    }
  }

  lemma ComposePermutation(o1: seq<seq<nat>>, o2: seq<seq<nat>>, n: nat)
    requires Permutation(Flatten(o1), n)
    requires Permutation(Flatten(o2), |o1|)
    requires forall j :: 0 <= j < |o2| ==> Bounded(o2[j], |o1|)
    ensures Permutation(Flatten(Compose(o1, o2)), n)
  {
    FlattenCompose(o1, o2);
    ConcatMapPermutation(o1, Flatten(o2), Iota(0, |o1|));
    ConcatMapIota(o1, 0);
    assert o1[0..] == o1;
  }

  /** Concatenating concatenations, when the inner rows are themselves concatenations. */
  lemma {:induction false} ConcatMapCompose<T>(f: seq<seq<T>>, h: seq<seq<T>>, o: seq<seq<nat>>, idx: seq<nat>)
    requires |h| == |o| && Bounded(idx, |o|)
    requires forall j :: 0 <= j < |o| ==> Bounded(o[j], |f|) && h[j] == ConcatMap(f, o[j])
    ensures Bounded(ConcatMap(o, idx), |f|)
    ensures ConcatMap(h, idx) == ConcatMap(f, ConcatMap(o, idx))
  {
    if idx != [] {
      ConcatMapCompose(f, h, o, idx[1..]);
      ConcatMapAppend(f, o[idx[0]], ConcatMap(o, idx[1..]));
    }
  }

  lemma DescentBounds(g0: Graph, g: Graph, origins: seq<seq<nat>>)
    requires Descends(g0, g, origins)
    ensures forall j :: 0 <= j < |origins| ==> origins[j] != [] && Bounded(origins[j], |g0.passes|)
    ensures |g.passes| <= |g0.passes|
  {
    forall j | 0 <= j < |origins| ensures origins[j] != [] && Bounded(origins[j], |g0.passes|) {
      assert Folds(g0, g, origins[j], j);
    }
    FlattenAtLeast(origins);
    PermutationFacts(Flatten(origins), |g0.passes|);
  }

  lemma {:induction false} FlattenAtLeast<T>(ss: seq<seq<T>>)
    requires forall j :: 0 <= j < |ss| ==> ss[j] != []
    ensures |Flatten(ss)| >= |ss|
  {
    if ss != [] {
      FlattenAtLeast(ss[1..]);
    }
  }

  lemma ComposeFolds(g0: Graph, g1: Graph, g2: Graph, o1: seq<seq<nat>>, group: seq<nat>, j: nat)
    requires |o1| == |g1.passes| && j < |g2.passes|
    requires forall p :: 0 <= p < |o1| ==> Folds(g0, g1, o1[p], p)
    requires Folds(g1, g2, group, j)
    ensures Folds(g0, g2, ConcatMap(o1, group), j)
  {
    var all := ConcatMap(o1, group);
    forall p | 0 <= p < |o1| ensures Bounded(o1[p], |g0.passes|) {
      assert Folds(g0, g1, o1[p], p);
    }
    assert forall p :: 0 <= p < |o1| ==> PassCommands(g1)[p] == ConcatMap(PassCommands(g0), o1[p]) by {
      forall p | 0 <= p < |o1| ensures PassCommands(g1)[p] == ConcatMap(PassCommands(g0), o1[p]) {
        assert Folds(g0, g1, o1[p], p);
      }
    }
    assert forall p :: 0 <= p < |o1| ==> PassDraws(g1)[p] == ConcatMap(PassDraws(g0), o1[p]) by {
      forall p | 0 <= p < |o1| ensures PassDraws(g1)[p] == ConcatMap(PassDraws(g0), o1[p]) {
        assert Folds(g0, g1, o1[p], p);
      }
    }
    ConcatMapCompose(PassCommands(g0), PassCommands(g1), o1, group);
    ConcatMapCompose(PassDraws(g0), PassDraws(g1), o1, group);
    assert Folds(g0, g1, o1[group[0]], group[0]);
    assert all != [];
    forall t | 0 <= t < |all|
      ensures g0.passes[all[t]].kind == g2.passes[j].kind
      ensures g0.passes[all[t]].targets == g2.passes[j].targets
      ensures g0.passes[all[t]].flags.dead == g2.passes[j].flags.dead
      ensures t > 0 ==> LiveRender(g0.passes[all[t]]) && DrawOnly(PassCommands(g0)[all[t]])
    {
      var k, i := PositionInConcat(o1, group, t);
      assert Folds(g0, g1, o1[group[k]], group[k]);
      if k > 0 {
        assert LiveRender(g1.passes[group[k]]) && DrawOnly(PassCommands(g1)[group[k]]);
        DrawOnlyPart(PassCommands(g0), o1[group[k]], i);
      }
    }
  }

  /** Where an element of a concatenation comes from. */
  lemma {:induction false} PositionInConcat<T>(f: seq<seq<T>>, idx: seq<nat>, t: nat) returns (k: nat, i: nat)
    requires Bounded(idx, |f|) && t < |ConcatMap(f, idx)|
    ensures k < |idx| && i < |f[idx[k]]| && ConcatMap(f, idx)[t] == f[idx[k]][i]
    ensures k == 0 ==> i == t
  {
    if t < |f[idx[0]]| {
      k, i := 0, t;
    } else {
      var m, l := PositionInConcat(f, idx[1..], t - |f[idx[0]]|);
      k, i := m + 1, l;
    }
  }

  lemma {:induction false} DrawOnlyPart(f: seq<seq<CommandRef>>, idx: seq<nat>, i: nat)
    requires Bounded(idx, |f|) && i < |idx| && DrawOnly(ConcatMap(f, idx))
    ensures DrawOnly(f[idx[i]])
  {
    var rest := ConcatMap(f, idx[1..]);
    assert ConcatMap(f, idx) == f[idx[0]] + rest;
    if i > 0 {
      assert forall t :: 0 <= t < |rest| ==> rest[t] == ConcatMap(f, idx)[|f[idx[0]]| + t];
      DrawOnlyPart(f, idx[1..], i - 1);
    } else {
      assert forall t :: 0 <= t < |f[idx[0]]| ==> f[idx[0]][t] == ConcatMap(f, idx)[t];
    }
  }

  lemma ComposePaths(g0: Graph, g1: Graph, g2: Graph, o1: seq<seq<nat>>, o2: seq<seq<nat>>)
    requires Permutation(Flatten(o2), |o1|)
    requires forall j :: 0 <= j < |o2| ==> Bounded(o2[j], |o1|)
    requires PathsKept(g0, g1, o1) && PathsKept(g1, g2, o2)
    ensures PathsKept(g0, g2, Compose(o1, o2))
  {
    var o := Compose(o1, o2);
    forall j: nat, k: nat, u: nat, v: nat
      | j < |o| && k < |o| && u in o[j] && v in o[k] && Reaches(g0, u, v)
      ensures j == k || Reaches(g2, j, k)
    {
      var s := ConcatMapOrigin(o1, o2[j], u);
      var t := ConcatMapOrigin(o1, o2[k], v);
      var p, q := o2[j][s], o2[k][t];
      assert p in o2[j] && q in o2[k];
      assert p == q || Reaches(g1, p, q);
      if p == q {
        GroupsDisjoint(o2, |o1|, j, k, p);
      }
    }
  }

  lemma ComposeEdges(g0: Graph, g1: Graph, g2: Graph, o1: seq<seq<nat>>, o2: seq<seq<nat>>)
    requires Permutation(Flatten(o2), |o1|)
    requires forall j :: 0 <= j < |o2| ==> Bounded(o2[j], |o1|)
    requires EdgesKept(g0, g1, o1) && EdgesKept(g1, g2, o2)
    ensures EdgesKept(g0, g2, Compose(o1, o2))
  {
    var o := Compose(o1, o2);
    forall j: nat, k: nat, r: nat | j < |o| && k < |o| && j != k
      ensures Edge(j, k, r) in g2.edges <==> Joined(g0, o[j], o[k], r)
    {
      JoinedComposes(g0, g1, o1, o2, j, k, r);
    }
  }

  lemma JoinedComposes(g0: Graph, g1: Graph, o1: seq<seq<nat>>, o2: seq<seq<nat>>, j: nat, k: nat, r: nat)
    requires Permutation(Flatten(o2), |o1|)
    requires forall j :: 0 <= j < |o2| ==> Bounded(o2[j], |o1|)
    requires EdgesKept(g0, g1, o1) && j < |o2| && k < |o2| && j != k
    ensures Joined(g1, o2[j], o2[k], r) <==> Joined(g0, ConcatMap(o1, o2[j]), ConcatMap(o1, o2[k]), r)
  {
    hide Permutation, Flatten, ConcatMap;
    if Joined(g1, o2[j], o2[k], r) {
      var p: nat, q: nat :| p in o2[j] && q in o2[k] && Edge(p, q, r) in g1.edges;
      ApartInGroups(o2, |o1|, j, k, p, q);
      assert Joined(g0, o1[p], o1[q], r);
      var u: nat, v: nat :| u in o1[p] && v in o1[q] && Edge(u, v, r) in g0.edges;
      var s :| 0 <= s < |o2[j]| && o2[j][s] == p;
      var t :| 0 <= t < |o2[k]| && o2[k][t] == q;
      ConcatMapMember(o1, o2[j], s, u);
      ConcatMapMember(o1, o2[k], t, v);
    }
    if Joined(g0, ConcatMap(o1, o2[j]), ConcatMap(o1, o2[k]), r) {
      var u: nat, v: nat :| u in ConcatMap(o1, o2[j]) && v in ConcatMap(o1, o2[k]) && Edge(u, v, r) in g0.edges;
      var s := ConcatMapOrigin(o1, o2[j], u);
      var t := ConcatMapOrigin(o1, o2[k], v);
      var p, q := o2[j][s], o2[k][t];
      ApartInGroups(o2, |o1|, j, k, p, q);
      assert Joined(g0, o1[p], o1[q], r);
    }
  }

  lemma ApartInGroups(groups: seq<seq<nat>>, n: nat, j: nat, k: nat, p: nat, q: nat)
    requires Permutation(Flatten(groups), n) && j < |groups| && k < |groups| && j != k
    requires p in groups[j] && q in groups[k]
    ensures p != q && p < n && q < n
  {
    GroupsBounded(groups, n);
    if p == q {
      GroupsDisjoint(groups, n, j, k, p);
    }
  }

  lemma {:induction false} LinearConcatMap(g0: Graph, g1: Graph, o1: seq<seq<nat>>, idx: seq<nat>)
    requires Bounded(idx, |o1|) && NoDuplicates(idx) && Linear(g1, idx)
    requires PathsKept(g0, g1, o1) && LinearInside(g0, o1)
    ensures Linear(g0, ConcatMap(o1, idx))
  {
    if idx != [] {
      var rest := idx[1..];
      LinearConcatMap(g0, g1, o1, rest);
      forall u, v | u in o1[idx[0]] && v in ConcatMap(o1, rest) ensures !Reaches(g0, v, u) {
        var k := ConcatMapOrigin(o1, rest, v);
        assert rest[k] == idx[k + 1] && !Reaches(g1, idx[k + 1], idx[0]);
      }
      LinearAppend(g0, o1[idx[0]], ConcatMap(o1, rest));
    }
  }

  lemma {:induction false} GroupDistinct<T>(groups: seq<seq<T>>, j: nat)
    requires NoDuplicates(Flatten(groups)) && j < |groups|
    ensures NoDuplicates(groups[j])
  {
    var all, first, rest := Flatten(groups), groups[0], Flatten(groups[1..]);
    assert forall t :: 0 <= t < |first| ==> first[t] == all[t];
    assert forall t :: 0 <= t < |rest| ==> rest[t] == all[|first| + t];
    if j > 0 {
      GroupDistinct(groups[1..], j - 1);
    }
  }

  lemma ComposeLinear(g0: Graph, g1: Graph, o1: seq<seq<nat>>, o2: seq<seq<nat>>)
    requires Permutation(Flatten(o2), |o1|)
    requires forall j :: 0 <= j < |o2| ==> Bounded(o2[j], |o1|)
    requires PathsKept(g0, g1, o1) && LinearInside(g0, o1) && LinearInside(g1, o2)
    ensures LinearInside(g0, Compose(o1, o2))
  {
    PermutationFacts(Flatten(o2), |o1|);
    forall j | 0 <= j < |o2| ensures Linear(g0, Compose(o1, o2)[j]) {
      GroupDistinct(o2, j);
      LinearConcatMap(g0, g1, o1, o2[j]);
    }
  }

  lemma ComposeFences(g0: Graph, g1: Graph, g2: Graph, o1: seq<seq<nat>>, o2: seq<seq<nat>>)
    requires Descends(g0, g1, o1) && Descends(g1, g2, o2)
    requires forall j :: 0 <= j < |o2| ==> Bounded(o2[j], |o1|)
    ensures FencesKept(g0, Compose(o1, o2))
  {
    var o := Compose(o1, o2);
    forall j: nat, k: nat, u: nat, v: nat | Fenced(g0, o, j, k, u, v) ensures u < v {
      var s := ConcatMapOrigin(o1, o2[j], u);
      var t := ConcatMapOrigin(o1, o2[k], v);
      var p, q := o2[j][s], o2[k][t];
      assert Folds(g0, g1, o1[p], p) && Folds(g0, g1, o1[q], q);
      assert Fenced(g1, o2, j, k, p, q);
      assert Fenced(g0, o1, p, q, u, v);
    }
  }

  lemma ComposeResources(g0: Graph, g1: Graph, g2: Graph, o1: seq<seq<nat>>, o2: seq<seq<nat>>)
    requires |o1| == |g1.passes| <= |g0.passes|
    requires forall j :: 0 <= j < |o2| ==> Bounded(o2[j], |o1|)
    requires ResourcesFollow(g0, g1, o1) && ResourcesFollow(g1, g2, o2)
    ensures ResourcesFollow(g0, g2, Compose(o1, o2))
  {
    var o := Compose(o1, o2);
    forall i | 0 <= i < |g0.resources| ensures ResourceFollows(g0, o, g0.resources[i], g2.resources[i]) {
      var r, s, t := g0.resources[i], g1.resources[i], g2.resources[i];
      assert ResourceFollows(g0, o1, r, s) && ResourceFollows(g1, o2, s, t);
      forall m | 0 <= m < |r.accesses| ensures AccessFollows(g0, o, r.accesses[m], t.accesses[m]) {
        var x, y, z := r.accesses[m], s.accesses[m], t.accesses[m];
        assert AccessFollows(g0, o1, x, y) && AccessFollows(g1, o2, y, z);
        if x.pass < |g0.passes| {
          var k :| 0 <= k < |o2[z.pass]| && o2[z.pass][k] == y.pass;
          ConcatMapMember(o1, o2[z.pass], k, x.pass);
        }
      }
    }
  }

  /** Merging a merged graph is a descent from the first one. */
  lemma DescendsTransitive(g0: Graph, g1: Graph, g2: Graph, o1: seq<seq<nat>>, o2: seq<seq<nat>>)
    requires Descends(g0, g1, o1) && Descends(g1, g2, o2)
    ensures forall j :: 0 <= j < |o2| ==> Bounded(o2[j], |o1|)
    ensures Descends(g0, g2, Compose(o1, o2))
  {
    DescentBounds(g0, g1, o1);
    DescentBounds(g1, g2, o2);
    ComposePermutation(o1, o2, |g0.passes|);
    forall j | 0 <= j < |o2| ensures Folds(g0, g2, Compose(o1, o2)[j], j) {
      ComposeFolds(g0, g1, g2, o1, o2[j], j);
    }
    ComposePaths(g0, g1, g2, o1, o2);
    ComposeEdges(g0, g1, g2, o1, o2);
    ComposeLinear(g0, g1, o1, o2);
    ComposeFences(g0, g1, g2, o1, o2);
    ComposeResources(g0, g1, g2, o1, o2);
  }

  /** Every graph descends from itself. */
  lemma DescendsReflexive(g: Graph)
    ensures Descends(g, g, Singles(Iota(0, |g.passes|)))
  {
    var o := Singles(Iota(0, |g.passes|));
    FlattenSingles(Iota(0, |g.passes|));
    forall j | 0 <= j < |o| ensures Folds(g, g, o[j], j) && Linear(g, o[j]) {
      assert o[j] == [j];
      hide Folds;
      FoldsItself(g, j);
    }
    FollowsItself(g);
    EdgesStay(g);
    hide EdgesKept;
    hide Folds, Linear, Flatten, ResourcesFollow;
  }

  lemma EdgesStay(g: Graph)
    ensures EdgesKept(g, g, Singles(Iota(0, |g.passes|)))
  {
    var o := Singles(Iota(0, |g.passes|));
    forall j: nat, k: nat, r: nat | j < |o| && k < |o| && j != k
      ensures Edge(j, k, r) in g.edges <==> Joined(g, o[j], o[k], r)
    {
      assert o[j] == [j] && o[k] == [k];
    }
  }

  lemma FollowsItself(g: Graph)
    ensures ResourcesFollow(g, g, Singles(Iota(0, |g.passes|)))
  {
    forall i | 0 <= i < |g.resources|
      ensures ResourceFollows(g, Singles(Iota(0, |g.passes|)), g.resources[i], g.resources[i])
    {
    }
  }

  lemma FoldsItself(g: Graph, j: nat)
    requires j < |g.passes|
    ensures Folds(g, g, [j], j) && Linear(g, [j])
  {
    assert ConcatMap(PassCommands(g), [j]) == PassCommands(g)[j] + ConcatMap(PassCommands(g), []);
    assert ConcatMap(PassDraws(g), [j]) == PassDraws(g)[j] + ConcatMap(PassDraws(g), []);
  }
}
