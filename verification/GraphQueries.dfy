/**
  The reachability cache of the production optimizer: compressed adjacency built
  by a counting sort, and one lazily filled bit row per source pass.
 */
module GraphQueries {
  import opened Bits
  import opened FrameGraphs

  const MAX_CACHED_PASSES: nat := 4096
  const MAX_CACHED_EDGES: nat := 65536

  predicate Internal(e: Edge, n: nat) {
    e.src < n && e.dst < n
  }

  /** Targets of the edges that leave u, in edge order. */
  function Targets(es: seq<Edge>, n: nat, u: nat): seq<nat> {
    if es == [] then []
    else
      var prev := Targets(es[..|es| - 1], n, u);
      var e := es[|es| - 1];
      if Internal(e, n) && e.src == u then prev + [e.dst] else prev
  }

  /** How many internal edges leave passes below i. */
  function OffsetOf(es: seq<Edge>, n: nat, i: nat): nat {
    if i == 0 then 0 else OffsetOf(es, n, i - 1) + |Targets(es, n, i - 1)|
  }

  lemma OffsetNone(es: seq<Edge>, n: nat)
    ensures OffsetOf(es, n, 0) == 0
  {
  }

  lemma OffsetNext(es: seq<Edge>, n: nat, i: nat)
    requires i > 0
    ensures OffsetOf(es, n, i) == OffsetOf(es, n, i - 1) + |Targets(es, n, i - 1)|
  {
  }

  lemma {:induction false} OffsetMonotone(es: seq<Edge>, n: nat, i: nat, j: nat)
    requires i <= j
    ensures OffsetOf(es, n, i) <= OffsetOf(es, n, j)
    decreases j
  {
    if i < j {
      OffsetMonotone(es, n, i, j - 1);
    }
  }

  lemma {:induction false} TargetsGrow(es: seq<Edge>, n: nat, u: nat, k: nat)
    requires k <= |es|
    ensures |Targets(es[..k], n, u)| <= |Targets(es, n, u)|
    ensures k < |es| && Internal(es[k], n) && es[k].src == u ==> |Targets(es[..k], n, u)| < |Targets(es, n, u)|
  {
    if k < |es| {
      TargetsGrow(es[..|es| - 1], n, u, k);
      assert es[..|es| - 1][..k] == es[..k];
    } else {
      assert es[..k] == es;
    }
  }

  lemma {:induction false} TargetsAreSuccessors(g: Graph, es: seq<Edge>, u: nat, v: nat)
    requires u < |g.passes|
    requires forall e :: e in es ==> e in g.edges
    ensures v in Targets(es, |g.passes|, u) ==> HasEdge(g, u, v)
    ensures v < |g.passes| && (exists r: nat :: Edge(u, v, r) in es) ==> v in Targets(es, |g.passes|, u)
  {
    if es != [] {
      var e := es[|es| - 1];
      TargetsAreSuccessors(g, es[..|es| - 1], u, v);
      assert e == Edge(e.src, e.dst, e.resource) && e in g.edges;
    }
  }

  /** Slot `at` belongs to the segment of u and to no other. */
  lemma SegmentsDisjoint(es: seq<Edge>, n: nat, u: nat, w: nat, at: nat)
    requires u != w
    requires OffsetOf(es, n, u) <= at < OffsetOf(es, n, u + 1)
    ensures at < OffsetOf(es, n, w) || OffsetOf(es, n, w + 1) <= at
  {
    if u < w {
      OffsetMonotone(es, n, u + 1, w);
    } else {
      OffsetMonotone(es, n, w + 1, u);
    }
  }

  /** The segment of u in the adjacency array lists the targets of u. */
  ghost predicate SegmentRight(os: seq<nat>, adj: seq<nat>, es: seq<Edge>, n: nat, u: nat)
    requires u + 1 < |os|
  {
    os[u] <= os[u + 1] <= |adj| && adj[os[u]..os[u + 1]] == Targets(es, n, u)
  }

  /** After k edges the segment of u is filled up to its cursor. */
  ghost predicate Filled(os: seq<nat>, adj: seq<nat>, cursor: seq<nat>, es: seq<Edge>, n: nat, u: nat, k: nat)
    requires u < |os| && u < |cursor| && k <= |es|
  {
    && cursor[u] == os[u] + |Targets(es[..k], n, u)|
    && cursor[u] <= |adj|
    && adj[os[u]..cursor[u]] == Targets(es[..k], n, u)
  }

  lemma FilledNext(os: seq<nat>, adj: seq<nat>, cursor: seq<nat>, es: seq<Edge>, n: nat, u: nat, k: nat)
    requires |os| == |cursor| == n + 1 && u < n && k < |es| && Internal(es[k], n)
    requires forall i: nat :: i <= n ==> os[i] == OffsetOf(es, n, i)
    requires Filled(os, adj, cursor, es, n, u, k) && Filled(os, adj, cursor, es, n, es[k].src, k)
    requires cursor[es[k].src] < |adj|
    ensures
      var s := es[k].src;
      Filled(os, adj[cursor[s] := es[k].dst], cursor[s := cursor[s] + 1], es, n, u, k + 1)
  {
    var s, at := es[k].src, cursor[es[k].src];
    var next := adj[at := es[k].dst];
    assert es[..k + 1][..k] == es[..k];
    if u == s {
      assert next[os[u]..at + 1] == adj[os[u]..at] + [es[k].dst];
    } else {
      TargetsGrow(es, n, s, k);
      TargetsGrow(es, n, u, k);
      assert OffsetOf(es, n, s + 1) == os[s] + |Targets(es, n, s)|;
      assert OffsetOf(es, n, u + 1) == os[u] + |Targets(es, n, u)|;
      SegmentsDisjoint(es, n, s, u, at);
      assert next[os[u]..cursor[u]] == adj[os[u]..cursor[u]];
    }
  }

  ghost predicate AllFilled(os: seq<nat>, adj: seq<nat>, cursor: seq<nat>, es: seq<Edge>, n: nat, k: nat)
    requires |os| == |cursor| == n + 1 && k <= |es|
  {
    forall u: nat :: u < n ==> Filled(os, adj, cursor, es, n, u, k)
  }

  lemma AllFilledStart(os: seq<nat>, adj: seq<nat>, es: seq<Edge>, n: nat)
    requires |os| == n + 1 && forall i: nat :: i <= n ==> os[i] == OffsetOf(es, n, i)
    requires |adj| == os[n]
    ensures AllFilled(os, adj, os, es, n, 0)
  {
    forall u: nat | u < n ensures Filled(os, adj, os, es, n, u, 0) {
      OffsetMonotone(es, n, u, n);
    }
  }

  lemma CursorInside(os: seq<nat>, adj: seq<nat>, cursor: seq<nat>, es: seq<Edge>, n: nat, k: nat)
    requires |os| == |cursor| == n + 1 && k < |es| && Internal(es[k], n)
    requires forall i: nat :: i <= n ==> os[i] == OffsetOf(es, n, i)
    requires |adj| == os[n] && AllFilled(os, adj, cursor, es, n, k)
    ensures cursor[es[k].src] < |adj|
  {
    var s := es[k].src;
    assert Filled(os, adj, cursor, es, n, s, k);
    TargetsGrow(es, n, s, k);
    OffsetMonotone(es, n, s + 1, n);
    assert OffsetOf(es, n, s + 1) == os[s] + |Targets(es, n, s)|;
  }

  lemma AllFilledNext(os: seq<nat>, adj: seq<nat>, cursor: seq<nat>, es: seq<Edge>, n: nat, k: nat)
    requires |os| == |cursor| == n + 1 && k < |es| && Internal(es[k], n)
    requires forall i: nat :: i <= n ==> os[i] == OffsetOf(es, n, i)
    requires AllFilled(os, adj, cursor, es, n, k) && cursor[es[k].src] < |adj|
    ensures
      var s := es[k].src;
      AllFilled(os, adj[cursor[s] := es[k].dst], cursor[s := cursor[s] + 1], es, n, k + 1)
  {
    var s, k1 := es[k].src, k + 1;
    var adj1, cursor1 := adj[cursor[s] := es[k].dst], cursor[s := cursor[s] + 1];
    assert Filled(os, adj, cursor, es, n, s, k);
    forall u: nat | u < n ensures Filled(os, adj1, cursor1, es, n, u, k1) {
      assert Filled(os, adj, cursor, es, n, u, k);
      FilledNext(os, adj, cursor, es, n, u, k);
    }
  }

  lemma AllFilledDone(os: seq<nat>, adj: seq<nat>, cursor: seq<nat>, es: seq<Edge>, n: nat)
    requires |os| == |cursor| == n + 1 && forall i: nat :: i <= n ==> os[i] == OffsetOf(es, n, i)
    requires |adj| == os[n] && AllFilled(os, adj, cursor, es, n, |es|)
    ensures forall u :: 0 <= u < n ==> SegmentRight(os, adj, es, n, u)
  {
    hide Targets, OffsetOf;
    assert es[..|es|] == es;
    forall u: nat | u < n ensures SegmentRight(os, adj, es, n, u) {
      assert Filled(os, adj, cursor, es, n, u, |es|);
      OffsetMonotone(es, n, u + 1, n);
      OffsetNext(es, n, u + 1);
    }
  }

  lemma AllFilledSkip(os: seq<nat>, adj: seq<nat>, cursor: seq<nat>, es: seq<Edge>, n: nat, k: nat)
    requires |os| == |cursor| == n + 1 && k < |es| && !Internal(es[k], n)
    requires AllFilled(os, adj, cursor, es, n, k)
    ensures AllFilled(os, adj, cursor, es, n, k + 1)
  {
    var k1 := k + 1;
    assert es[..k1][..k] == es[..k];
    forall u: nat | u < n ensures Filled(os, adj, cursor, es, n, u, k1) {
      assert Filled(os, adj, cursor, es, n, u, k);
    }
  }

  class Queries {
    const graph: Graph
    const enabled: bool
    const offsets: seq<nat>
    const adjacent: seq<nat>
    var rows: seq<seq<Word>>
    var ready: seq<bool>

    /** The successors of u lie in adjacent[offsets[u]..offsets[u + 1]]. */
    ghost predicate Indexed() {
      && |offsets| == |graph.passes| + 1
      && forall u :: 0 <= u < |graph.passes| ==>
        SegmentRight(offsets, adjacent, graph.edges, |graph.passes|, u)
    }

    /** A row marked ready holds exactly the passes its source reaches; the others are clear. */
    ghost predicate RowRight(u: nat)
      requires u < |rows| && u < |ready|
      reads this
    {
      && |rows[u]| == WordsFor(|graph.passes|)
      && forall v :: 0 <= v < |graph.passes| ==>
        (InRow(rows[u], v) <==> ready[u] && Reaches(graph, u, v))
    }

    ghost predicate Valid()
      reads this
    {
      enabled ==>
        && Indexed()
        && |rows| == |ready| == |graph.passes|
        && forall u :: 0 <= u < |rows| ==> RowRight(u)
    }

    constructor (g: Graph)
      ensures Valid() && graph == g
      ensures enabled <==> |g.passes| <= MAX_CACHED_PASSES && |g.edges| <= MAX_CACHED_EDGES
    {
      var n := |g.passes|;
      var os, adj, on := [], [], false;
      if n <= MAX_CACHED_PASSES && |g.edges| <= MAX_CACHED_EDGES {
        os, adj := BuildAdjacency(g);
        on := true;
      }
      graph, enabled, offsets, adjacent := g, on, os, adj;
      rows := seq(n, _ => seq(WordsFor(n), _ => NO_BITS));
      ready := seq(n, _ => false);
      new;
      forall u, v | 0 <= u < n && 0 <= v < n ensures !InRow(rows[u], v) {
        EmptyRow(WordsFor(n), v);
      }
    }

    /** Count the edges of each source, sum the counts, then place every target. */
    static method BuildAdjacency(g: Graph) returns (os: seq<nat>, adj: seq<nat>)
      ensures |os| == |g.passes| + 1
      ensures forall u :: 0 <= u < |g.passes| ==> SegmentRight(os, adj, g.edges, |g.passes|, u)
    {
      var counts := CountTargets(g.edges, |g.passes|);
      os := SumCounts(g.edges, |g.passes|, counts);
      adj := PlaceTargets(g.edges, |g.passes|, os);
    }

    static method SumCounts(es: seq<Edge>, n: nat, counts: seq<nat>) returns (os: seq<nat>)
      requires |counts| == n + 1 && counts[0] == 0
      requires forall u :: 0 <= u < n ==> counts[u + 1] == |Targets(es, n, u)|
      ensures |os| == n + 1 && forall i :: 0 <= i <= n ==> os[i] == OffsetOf(es, n, i)
    {
      os := counts;
      OffsetNone(es, n);
      hide Targets, OffsetOf;
      for i := 1 to n + 1
        invariant |os| == n + 1
        invariant forall j :: 0 <= j < i ==> os[j] == OffsetOf(es, n, j)
        invariant forall j :: i <= j <= n ==> os[j] == counts[j]
      {
        assert counts[i - 1 + 1] == |Targets(es, n, i - 1)|;
        OffsetNext(es, n, i);
        os := os[i := os[i] + os[i - 1]];
      }
    }

    /** Entry u + 1 is the number of edges that leave u inside the graph. */
    static method CountTargets(es: seq<Edge>, n: nat) returns (counts: seq<nat>)
      ensures |counts| == n + 1 && counts[0] == 0
      ensures forall u :: 0 <= u < n ==> counts[u + 1] == |Targets(es, n, u)|
    {
      counts := seq(n + 1, _ => 0);
      for k := 0 to |es|
        invariant |counts| == n + 1 && counts[0] == 0
        invariant forall u :: 0 <= u < n ==> counts[u + 1] == |Targets(es[..k], n, u)|
      {
        assert es[..k + 1][..k] == es[..k];
        if es[k].src < n && es[k].dst < n {
          counts := counts[es[k].src + 1 := counts[es[k].src + 1] + 1];
        }
      }
      assert es[..|es|] == es;
    }

    static method PlaceTargets(es: seq<Edge>, n: nat, os: seq<nat>) returns (adj: seq<nat>)
      requires |os| == n + 1 && forall i :: 0 <= i <= n ==> os[i] == OffsetOf(es, n, i)
      ensures forall u :: 0 <= u < n ==> SegmentRight(os, adj, es, n, u)
    {
      hide Targets, OffsetOf, AllFilled, SegmentRight;
      adj := seq(os[n], _ => 0);
      var cursor := os;
      AllFilledStart(os, adj, es, n);
      for k := 0 to |es|
        invariant |adj| == os[n] && |cursor| == n + 1
        invariant AllFilled(os, adj, cursor, es, n, k)
      {
        if es[k].src < n && es[k].dst < n {
          var at := cursor[es[k].src];
          CursorInside(os, adj, cursor, es, n, k);
          AllFilledNext(os, adj, cursor, es, n, k);
          adj := adj[at := es[k].dst];
          cursor := cursor[es[k].src := at + 1];
        } else {
          AllFilledSkip(os, adj, cursor, es, n, k);
        }
      }
      AllFilledDone(os, adj, cursor, es, n);
    }

    /** The same answer as the plain search, from the cache. */
    method AnswerReaches(from: nat, to: nat) returns (r: bool)
      requires Valid() && from < |graph.passes| && to < |graph.passes|
      modifies this`rows, this`ready
      ensures Valid()
      ensures r == Reaches(graph, from, to)
    {
      if !enabled {
        r := SearchReaches(graph, from, to);
        return;
      }
      if !ready[from] {
        hide InRow;
        var row := FillRow(from);
        assert forall u :: 0 <= u < |rows| ==> RowRight(u);
        rows := rows[from := row];
        ready := ready[from := true];
        forall u | 0 <= u < |rows| ensures RowRight(u) {
          if u != from {
            assert rows[u] == old(rows[u]) && ready[u] == old(ready[u]);
            assert old(RowRight(u));
          }
        }
      }
      assert RowRight(from);
      return InRow(rows[from], to);
    }

    /** Depth-first fill of one row over the compressed adjacency. */
    method FillRow(from: nat) returns (row: seq<Word>)
      requires Valid() && enabled && from < |graph.passes| && !ready[from]
      ensures |row| == WordsFor(|graph.passes|)
      ensures forall v :: 0 <= v < |graph.passes| ==> (InRow(row, v) <==> Reaches(graph, from, v))
    {
      hide InRow;
      var n := |graph.passes|;
      assert RowRight(from);
      row := rows[from];
      row := RowWith(row, from);
      forall v | 0 <= v < n ensures InRow(row, v) <==> v == from {
        RowWithBits(rows[from], from, v);
      }
      ReachesSelf(graph, from);
      var stack: seq<nat> := [from];
      ghost var unseen := set v: nat | v < n && !InRow(row, v);
      while stack != []
        invariant |row| == WordsFor(n) && InRow(row, from)
        invariant forall i :: 0 <= i < |stack| ==> stack[i] < n && InRow(row, stack[i])
        invariant forall v :: 0 <= v < n && InRow(row, v) ==> Reaches(graph, from, v)
        invariant forall u: nat, v: nat :: u < n && InRow(row, u) && u !in stack && HasEdge(graph, u, v) ==> InRow(row, v)
        invariant unseen == set v: nat | v < n && !InRow(row, v)
        decreases unseen, |stack|
      {
        var cur := stack[|stack| - 1];
        stack := stack[..|stack| - 1];
        row, stack, unseen := PushSuccessors(from, cur, row, stack, unseen);
      }
      forall v | 0 <= v < n && Reaches(graph, from, v) ensures InRow(row, v) {
        var p :| PathBetween(graph, p, from, v);
        ClosedUnderReaches(graph, (set u: nat | u < n && InRow(row, u)), p);
      }
    }

    /** Marks and stacks every successor of `cur` not yet in the row. */
    method PushSuccessors(from: nat, cur: nat, row0: seq<Word>, rest: seq<nat>, ghost unseen0: set<nat>)
      returns (row: seq<Word>, stack: seq<nat>, ghost unseen: set<nat>)
      requires Indexed() && from < |graph.passes| && cur < |graph.passes|
      requires |row0| == WordsFor(|graph.passes|) && InRow(row0, cur)
      requires forall i :: 0 <= i < |rest| ==> rest[i] < |graph.passes| && InRow(row0, rest[i])
      requires forall v :: 0 <= v < |graph.passes| && InRow(row0, v) ==> Reaches(graph, from, v)
      requires unseen0 == set v: nat | v < |graph.passes| && !InRow(row0, v)
      ensures |row| == |row0|
      ensures forall v :: 0 <= v < |graph.passes| && InRow(row0, v) ==> InRow(row, v)
      ensures forall v :: 0 <= v < |graph.passes| && InRow(row, v) ==> Reaches(graph, from, v)
      ensures forall v :: 0 <= v < |graph.passes| && InRow(row, v) && !InRow(row0, v) ==> v in stack
      ensures forall v :: v in rest ==> v in stack
      ensures forall i :: 0 <= i < |stack| ==> stack[i] < |graph.passes| && InRow(row, stack[i])
      ensures forall v: nat :: HasEdge(graph, cur, v) ==> InRow(row, v)
      ensures unseen == set v: nat | v < |graph.passes| && !InRow(row, v)
      ensures unseen < unseen0 || (unseen == unseen0 && stack == rest)
    {
      hide InRow;
      var n := |graph.passes|;
      assert SegmentRight(offsets, adjacent, graph.edges, n, cur);
      row, stack, unseen := row0, rest, unseen0;
      ghost var targets := Targets(graph.edges, n, cur);
      for i := offsets[cur] to offsets[cur + 1]
        invariant |row| == |row0|
        invariant forall v :: 0 <= v < n && InRow(row0, v) ==> InRow(row, v)
        invariant forall v :: 0 <= v < n && InRow(row, v) ==> Reaches(graph, from, v)
        invariant forall v :: 0 <= v < n && InRow(row, v) && !InRow(row0, v) ==> v in stack
        invariant forall v :: v in rest ==> v in stack
        invariant forall j :: 0 <= j < |stack| ==> stack[j] < n && InRow(row, stack[j])
        invariant forall j :: 0 <= j < i - offsets[cur] ==> InRow(row, targets[j])
        invariant unseen == set v: nat | v < n && !InRow(row, v)
        invariant unseen < unseen0 || (unseen == unseen0 && stack == rest)
      {
        var dst := adjacent[i];
        assert dst == targets[i - offsets[cur]];
        TargetsAreSuccessors(graph, graph.edges, cur, dst);
        if !InRow(row, dst) {
          ghost var before := row;
          row := RowWith(row, dst);
          forall v: nat ensures InRow(row, v) <==> v == dst || InRow(before, v) {
            RowWithBits(before, dst, v);
          }
          ReachesThenEdge(graph, from, cur, dst);
          stack := stack + [dst];
          unseen := unseen - {dst};
        }
      }
      forall v: nat | HasEdge(graph, cur, v) ensures InRow(row, v) {
        TargetsAreSuccessors(graph, graph.edges, cur, v);
      }
    }
  }
}
