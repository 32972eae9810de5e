/**
  What one merge of pass coalescing is, and what it keeps.

  A merge is described by groups of old pass indices, one group per new pass, in
  the new order: every group has one index except the pair that was merged.
  `Descends` relates a graph to one obtained from it by any number of merges;
  it is reflexive, holds of one merge, and composes.
 */
module Coalescing {
  import opened Sequences
  import opened FrameGraphs

  // ----- which pair is merged -----

  datatype Move = Before | After | Blocked

  /** Where a pass between a and b may go so that no dependency path is reversed. */
  ghost function Classify(g: Graph, a: nat, b: nat, x: nat): Move {
    var pairFeeds := Reaches(g, a, x) || Reaches(g, b, x);
    var feedsPair := Reaches(g, x, a) || Reaches(g, x, b);
    if pairFeeds && feedsPair then Blocked
    else if !feedsPair then After
    else Before
  }

  predicate LiveRender(p: PassNode) {
    p.kind.Render? && !p.flags.dead
  }

  ghost predicate Movable(g: Graph, a: nat, b: nat, x: nat)
    requires x < |g.passes|
  {
    && LiveRender(g.passes[x])
    && ValidPass(g, g.passes[x])
    && Classify(g, a, b, x) != Blocked
  }

  ghost predicate Mergeable(g: Graph, a: nat, b: nat) {
    && a < b < |g.passes|
    && LiveRender(g.passes[a])
    && LiveRender(g.passes[b])
    && g.passes[a].targets == g.passes[b].targets
    && ValidPass(g, g.passes[a])
    && ValidPass(g, g.passes[b])
    && DrawOnly(PassCommands(g)[b])
    && forall x: nat :: a < x < b ==> Movable(g, a, b, x)
  }

  ghost predicate NoneBefore(g: Graph, a: nat, b: nat) {
    forall c: nat, d: nat :: c < a || (c == a && d < b) ==> !Mergeable(g, c, d)
  }

  /** The pair the ascending scan finds. */
  ghost predicate FirstMergeable(g: Graph, a: nat, b: nat) {
    Mergeable(g, a, b) && NoneBefore(g, a, b)
  }

  ghost predicate Stuck(g: Graph) {
    forall a: nat, b: nat :: !Mergeable(g, a, b)
  }

  /** The passes strictly between a and hi that are classified m, ascending. */
  ghost function Movers(g: Graph, a: nat, b: nat, m: Move, hi: nat): (s: seq<nat>)
    ensures forall i :: 0 <= i < |s| ==> a < s[i] < hi && Classify(g, a, b, s[i]) == m
    ensures forall i, j :: 0 <= i < j < |s| ==> s[i] < s[j]
  {
    if hi <= a + 1 then []
    else
      var s := Movers(g, a, b, m, hi - 1);
      if Classify(g, a, b, hi - 1) == m then s + [hi - 1] else s
  }

  /** Old pass indices in their new order; the merged pair stands together. */
  ghost function MergeOrder(g: Graph, a: nat, b: nat): seq<nat>
    requires a < b < |g.passes|
  {
    Iota(0, a) + (Movers(g, a, b, Before, b) + ([a, b] + (Movers(g, a, b, After, b) + Iota(b + 1, |g.passes|))))
  }

  ghost function MergeGroups(g: Graph, a: nat, b: nat): seq<seq<nat>>
    requires a < b < |g.passes|
  {
    Singles(Iota(0, a)) + (Singles(Movers(g, a, b, Before, b))
      + ([[a, b]] + (Singles(Movers(g, a, b, After, b)) + Singles(Iota(b + 1, |g.passes|)))))
  }

  // ----- the merged graph -----

  ghost predicate GroupsOf(groups: seq<seq<nat>>, n: nat) {
    forall j :: 0 <= j < |groups| ==> groups[j] != [] && Bounded(groups[j], n)
  }

  datatype Layout = Layout(passes: seq<PassNode>, draws: seq<DrawRef>, commands: seq<CommandRef>)

  /** Passes rebuilt group by group over freshly packed draw and command arrays. */
  function Materialize(g: Graph, groups: seq<seq<nat>>): Layout
    requires GroupsOf(groups, |g.passes|)
  {
    if groups == [] then Layout([], [], [])
    else
      var l := Materialize(g, groups[..|groups| - 1]);
      var group := groups[|groups| - 1];
      var ds := ConcatMap(PassDraws(g), group);
      var cs := ConcatMap(PassCommands(g), group);
      Layout(
        l.passes + [g.passes[group[0]].(draws := Range(|l.draws|, |ds|), commands := Range(|l.commands|, |cs|))],
        l.draws + ds,
        l.commands + cs)
  }

  /** Old pass index to new pass index. */
  function RemapOf(groups: seq<seq<nat>>, n: nat): (m: seq<nat>)
    ensures |m| == n
  {
    if groups == [] then seq(n, _ => NO_PASS)
    else
      var prev := RemapOf(groups[..|groups| - 1], n);
      seq(n, i requires 0 <= i < n => if i in groups[|groups| - 1] then |groups| - 1 else prev[i])
  }

  function RemapAccess(a: Access, remap: seq<nat>): Access {
    if a.pass < |remap| && remap[a.pass] != NO_PASS then a.(pass := remap[a.pass]) else a
  }

  function RemapResource(r: Resource, remap: seq<nat>): Resource {
    r.(accesses := seq(|r.accesses|, i requires 0 <= i < |r.accesses| => RemapAccess(r.accesses[i], remap)))
  }

  function RemapResources(rs: seq<Resource>, remap: seq<nat>): seq<Resource> {
    seq(|rs|, i requires 0 <= i < |rs| => RemapResource(rs[i], remap))
  }

  /** Whether an old edge survives a remap, between two different new passes. */
  predicate EdgeKept(e: Edge, remap: seq<nat>) {
    && e.src < |remap| && e.dst < |remap|
    && remap[e.src] != NO_PASS && remap[e.dst] != NO_PASS
    && remap[e.src] != remap[e.dst]
  }

  function RemapEdge(e: Edge, remap: seq<nat>): Edge
    requires EdgeKept(e, remap)
  {
    Edge(remap[e.src], remap[e.dst], e.resource)
  }

  /** Surviving edges in their old order, each (source, target, resource) once. */
  function RemapEdges(es: seq<Edge>, remap: seq<nat>): seq<Edge> {
    if es == [] then []
    else
      var prev := RemapEdges(es[..|es| - 1], remap);
      var e := es[|es| - 1];
      if EdgeKept(e, remap) && RemapEdge(e, remap) !in prev then prev + [RemapEdge(e, remap)] else prev
  }

  ghost function Rebuild(g: Graph, groups: seq<seq<nat>>): Graph
    requires GroupsOf(groups, |g.passes|)
  {
    var l := Materialize(g, groups);
    var remap := RemapOf(groups, |g.passes|);
    Graph(l.passes, RemapResources(g.resources, remap), RemapEdges(g.edges, remap), l.draws, l.commands)
  }

  ghost function Merge(g: Graph, a: nat, b: nat): Graph
    requires a < b < |g.passes|
  {
    MergeGroupsValid(g, a, b);
    Rebuild(g, MergeGroups(g, a, b))
  }

  lemma MergeGroupsValid(g: Graph, a: nat, b: nat)
    requires a < b < |g.passes|
    ensures GroupsOf(MergeGroups(g, a, b), |g.passes|)
  {
  }

  // ----- the new order is a permutation that reverses no path -----

  lemma FlattenMergeGroups(g: Graph, a: nat, b: nat)
    requires a < b < |g.passes|
    ensures Flatten(MergeGroups(g, a, b)) == MergeOrder(g, a, b)
  {
    var before, after := Movers(g, a, b, Before, b), Movers(g, a, b, After, b);
    var low, high := Iota(0, a), Iota(b + 1, |g.passes|);
    FlattenSingles(low);
    FlattenSingles(before);
    FlattenSingles(after);
    FlattenSingles(high);
    FlattenAppend(Singles(after), Singles(high));
    FlattenAppend([[a, b]], Singles(after) + Singles(high));
    FlattenAppend(Singles(before), [[a, b]] + (Singles(after) + Singles(high)));
    FlattenAppend(Singles(low), Singles(before) + ([[a, b]] + (Singles(after) + Singles(high))));
    assert Flatten([[a, b]]) == [a, b] + Flatten([]);
  }

  ghost predicate MoversSplit(g: Graph, a: nat, b: nat, hi: nat)
    requires a < hi
  {
    multiset(Movers(g, a, b, Before, hi)) + multiset(Movers(g, a, b, After, hi)) == multiset(Iota(a + 1, hi))
  }

  /** The movers of both kinds are exactly the passes between. */
  lemma {:induction false} MoversPartition(g: Graph, a: nat, b: nat, hi: nat)
    requires a < hi
    requires forall x: nat :: a < x < hi ==> Classify(g, a, b, x) != Blocked
    ensures MoversSplit(g, a, b, hi)
  {
    if hi > a + 1 {
      hide MoversSplit, Classify;
      MoversPartition(g, a, b, hi - 1);
      MoversSplitNext(g, a, b, hi);
    }
  }

  lemma MoversSplitNext(g: Graph, a: nat, b: nat, hi: nat)
    requires a + 1 < hi && Classify(g, a, b, hi - 1) != Blocked && MoversSplit(g, a, b, hi - 1)
    ensures MoversSplit(g, a, b, hi)
  {
    MoversStep(g, a, b, hi);
    IotaSnoc(a + 1, hi - 1);
    hide Movers, Classify, Iota;
    SplitSnoc(Movers(g, a, b, Before, hi - 1), Movers(g, a, b, After, hi - 1), Iota(a + 1, hi - 1), hi - 1,
              Movers(g, a, b, Before, hi), Movers(g, a, b, After, hi), Iota(a + 1, hi));
  }

  lemma MoversStep(g: Graph, a: nat, b: nat, hi: nat)
    requires a + 1 < hi && Classify(g, a, b, hi - 1) != Blocked
    ensures
      var before, after := Movers(g, a, b, Before, hi - 1), Movers(g, a, b, After, hi - 1);
      || (Movers(g, a, b, Before, hi) == before + [hi - 1] && Movers(g, a, b, After, hi) == after)
      || (Movers(g, a, b, Before, hi) == before && Movers(g, a, b, After, hi) == after + [hi - 1])
  {
    hide Reaches;
    assert Classify(g, a, b, hi - 1) == Before || Classify(g, a, b, hi - 1) == After;
  }

  lemma InterveningNotBlocked(g: Graph, a: nat, b: nat)
    requires Mergeable(g, a, b)
    ensures forall x: nat :: a < x < b ==> Classify(g, a, b, x) != Blocked
  {
    forall x: nat | a < x < b ensures Classify(g, a, b, x) != Blocked {
      assert Movable(g, a, b, x);
    }
  }

  lemma MergeOrderPermutation(g: Graph, a: nat, b: nat)
    requires a < b < |g.passes|
    requires forall x: nat :: a < x < b ==> Classify(g, a, b, x) != Blocked
    ensures Permutation(MergeOrder(g, a, b), |g.passes|)
  {
    var before, after := Movers(g, a, b, Before, b), Movers(g, a, b, After, b);
    MoversPartition(g, a, b, b);
    IotaAroundPair(a, b, |g.passes|);
    SplitAroundPair(Iota(0, a), a, before, after, Iota(a + 1, b), b, Iota(b + 1, |g.passes|));
  }

  /** No later element of `order` leads by a path to an earlier one. */
  ghost predicate Linear(g: Graph, order: seq<nat>) {
    forall i, j :: 0 <= i < j < |order| ==> !Reaches(g, order[j], order[i])
  }

  lemma LinearAppend(g: Graph, p: seq<nat>, q: seq<nat>)
    requires Linear(g, p) && Linear(g, q)
    requires forall u, v :: u in p && v in q ==> !Reaches(g, v, u)
    ensures Linear(g, p + q)
  {
    var r := p + q;
    forall i, j | 0 <= i < j < |r| ensures !Reaches(g, r[j], r[i]) {
      if j >= |p| {
        assert r[j] == q[j - |p|];
        if i >= |p| {
          assert r[i] == q[i - |p|];
        }
      }
    }
  }

  lemma LinearAscending(g: Graph, s: seq<nat>)
    requires Forward(g)
    requires forall i, j :: 0 <= i < j < |s| ==> s[i] < s[j]
    ensures Linear(g, s)
  {
    forall i, j | 0 <= i < j < |s| ensures !Reaches(g, s[j], s[i]) {
      NotBackward(g, s[i], s[j]);
    }
  }

  lemma NotBackward(g: Graph, u: nat, v: nat)
    requires Forward(g) && u < v
    ensures !Reaches(g, v, u)
  {
    if Reaches(g, v, u) {
      ReachesForward(g, v, u);
    }
  }

  /** A pass moved behind the pair leads to no pass moved in front of it. */
  lemma AfterNeverFeedsBefore(g: Graph, a: nat, b: nat, x: nat, y: nat)
    requires Classify(g, a, b, x) == Before && Classify(g, a, b, y) == After
    ensures !Reaches(g, y, x)
  {
    if Reaches(g, y, x) {
      if Reaches(g, x, a) {
        ReachesTransitive(g, y, x, a);
      } else {
        ReachesTransitive(g, y, x, b);
      }
    }
  }

  /** From the merged pair on, nothing runs before what it depends on. */
  lemma LinearFromPair(g: Graph, a: nat, b: nat)
    requires Forward(g) && a < b < |g.passes|
    ensures Linear(g, [a, b] + (Movers(g, a, b, After, b) + Iota(b + 1, |g.passes|)))
  {
    var after, high := Movers(g, a, b, After, b), Iota(b + 1, |g.passes|);
    LinearAscending(g, [a, b]);
    LinearAscending(g, after);
    LinearAscending(g, high);
    hide Linear, Movers, Reaches, Forward;
    forall u, v | u in after && v in high ensures !Reaches(g, v, u) {
      NotBackward(g, u, v);
    }
    LinearAppend(g, after, high);
    forall u, v | u in [a, b] && v in after + high ensures !Reaches(g, v, u) {
      if v in high {
        NotBackward(g, u, v);
      } else {
        AfterNeverFeedsPair(g, a, b, v);
      }
    }
    LinearAppend(g, [a, b], after + high);
  }

  lemma AfterNeverFeedsPair(g: Graph, a: nat, b: nat, x: nat)
    requires Classify(g, a, b, x) == After
    ensures !Reaches(g, x, a) && !Reaches(g, x, b)
  {
  }

  lemma LinearFromBefore(g: Graph, a: nat, b: nat)
    requires Forward(g) && a < b < |g.passes|
    ensures Linear(g, Movers(g, a, b, Before, b) + ([a, b] + (Movers(g, a, b, After, b) + Iota(b + 1, |g.passes|))))
  {
    var before, after, high := Movers(g, a, b, Before, b), Movers(g, a, b, After, b), Iota(b + 1, |g.passes|);
    LinearFromPair(g, a, b);
    LinearAscending(g, before);
    hide Linear, Movers, Reaches, Forward;
    forall u, v | u in before && v in [a, b] + (after + high) ensures !Reaches(g, v, u) {
      if v in after {
        AfterNeverFeedsBefore(g, a, b, u, v);
      } else if v in high {
        NotBackward(g, u, v);
      } else {
        BeforeNeverFed(g, a, b, u);
      }
    }
    LinearAppend(g, before, [a, b] + (after + high));
  }

  lemma BeforeNeverFed(g: Graph, a: nat, b: nat, x: nat)
    requires Classify(g, a, b, x) == Before
    ensures !Reaches(g, a, x) && !Reaches(g, b, x)
  {
  }

  lemma MergeOrderLinear(g: Graph, a: nat, b: nat)
    requires Forward(g) && a < b < |g.passes|
    ensures Linear(g, MergeOrder(g, a, b))
  {
    var before, after := Movers(g, a, b, Before, b), Movers(g, a, b, After, b);
    var low, high := Iota(0, a), Iota(b + 1, |g.passes|);
    LinearFromBefore(g, a, b);
    LinearAscending(g, low);
    hide Linear, Movers, Reaches, Forward;
    var rest := before + ([a, b] + (after + high));
    forall u, v | u in low && v in rest ensures !Reaches(g, v, u) {
      NotBackward(g, u, v);
    }
    LinearAppend(g, low, rest);
  }

  /** Across groups, a linear flattening leaves no path from a later group to an earlier one. */
  lemma LinearGroups(g: Graph, groups: seq<seq<nat>>, j: nat, k: nat, u: nat, v: nat)
    requires Linear(g, Flatten(groups))
    requires j < k < |groups| && u in groups[j] && v in groups[k]
    ensures !Reaches(g, v, u)
  {
    var p, q := groups[..k], groups[k..];
    assert groups == p + q;
    FlattenAppend(p, q);
    FlattenMember(p, j, u);
    FlattenMember(q, 0, v);
    var s, t := Flatten(p), Flatten(q);
    var x :| 0 <= x < |s| && s[x] == u;
    var y :| 0 <= y < |t| && t[y] == v;
    assert (s + t)[x] == u && (s + t)[|s| + y] == v;
  }
}
