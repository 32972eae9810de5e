/**
  Submission order under merging, exactly: which pairs of passes one merge inverts,
  which pairs end up inverted in the optimized frame, and what joins them in order.
 */
module SubmissionOrder {
  import opened Sequences
  import opened FrameGraphs
  import opened Coalescing
  import opened Provenance
  import opened Fixpoint

  // ----- positions in an order -----

  /** x stands before y. */
  ghost predicate Ahead(s: seq<nat>, x: nat, y: nat) {
    exists i: nat, j: nat :: i < j < |s| && s[i] == x && s[j] == y
  }

  lemma AheadAppend(p: seq<nat>, q: seq<nat>, x: nat, y: nat)
    requires Ahead(p, x, y) || Ahead(q, x, y) || (x in p && y in q)
    ensures Ahead(p + q, x, y)
  {
    var s := p + q;
    if Ahead(p, x, y) {
      var i: nat, j: nat :| i < j < |p| && p[i] == x && p[j] == y;
      assert s[i] == x && s[j] == y;
    } else if Ahead(q, x, y) {
      var i: nat, j: nat :| i < j < |q| && q[i] == x && q[j] == y;
      assert s[|p| + i] == x && s[|p| + j] == y;
    } else {
      var i: nat :| i < |p| && p[i] == x;
      var j: nat :| j < |q| && q[j] == y;
      assert s[i] == x && s[|p| + j] == y;
    }
  }

  /** In a list without repeats, of two of its members exactly one is ahead. */
  lemma AheadOneWay(s: seq<nat>, x: nat, y: nat)
    requires NoDuplicates(s) && x in s && y in s && x != y
    ensures Ahead(s, x, y) <==> !Ahead(s, y, x)
  {
    var i: nat :| i < |s| && s[i] == x;
    var j: nat :| j < |s| && s[j] == y;
    assert forall k: nat :: k < |s| && s[k] == x ==> k == i;
    assert forall k: nat :: k < |s| && s[k] == y ==> k == j;
  }

  lemma AheadInRising(s: seq<nat>, x: nat, y: nat)
    requires x in s && y in s && x < y && forall i, j :: 0 <= i < j < |s| ==> s[i] < s[j]
    ensures Ahead(s, x, y)
  {
    var i: nat :| i < |s| && s[i] == x;
    var j: nat :| j < |s| && s[j] == y;
    assert i < j;
  }

  /** Lists laid end to end: by list first, and inside a list as it stands. */
  lemma {:induction false} AheadInFlatten(ss: seq<seq<nat>>, i: nat, j: nat, x: nat, y: nat)
    requires i <= j < |ss| && x in ss[i] && y in ss[j] && (i == j ==> Ahead(ss[i], x, y))
    ensures Ahead(Flatten(ss), x, y)
  {
    if i > 0 {
      AheadInFlatten(ss[1..], i - 1, j - 1, x, y);
    } else if j > 0 {
      FlattenMember(ss[1..], j - 1, y);
    }
    AheadAppend(ss[0], Flatten(ss[1..]), x, y);
  }

  lemma {:induction false} AheadInConcat(f: seq<seq<nat>>, idx: seq<nat>, j: nat, k: nat, x: nat, y: nat)
    requires Bounded(idx, |f|) && j < |f| && k < |f| && x in f[j] && y in f[k]
    requires if j == k then j in idx && Ahead(f[j], x, y) else Ahead(idx, j, k)
    ensures Ahead(ConcatMap(f, idx), x, y)
  {
    var rest := idx[1..];
    if idx[0] != j {
      AheadInTail(idx, j, k);
      AheadInConcat(f, rest, j, k, x, y);
    } else if j != k {
      assert k in rest;
      var t: nat :| t < |rest| && rest[t] == k;
      ConcatMapMember(f, rest, t, y);
    }
    AheadAppend(f[idx[0]], ConcatMap(f, rest), x, y);
  }

  lemma AheadInTail(s: seq<nat>, x: nat, y: nat)
    requires s != [] && s[0] != x && (if x == y then x in s else Ahead(s, x, y))
    ensures if x == y then x in s[1..] else Ahead(s[1..], x, y)
  {
    if x != y {
      var i: nat, j: nat :| i < j < |s| && s[i] == x && s[j] == y;
      assert s[1..][i - 1] == x && s[1..][j - 1] == y;
    }
  }

  // ----- one merge -----

  /** Merging a and b moves v before u, where u < v. */
  ghost predicate Crosses(g: Graph, a: nat, b: nat, u: nat, v: nat) {
    || (u == a && a < v < b && Classify(g, a, b, v) == Before)
    || (v == b && a < u < b && Classify(g, a, b, u) == After)
    || (a < u < v < b && Classify(g, a, b, u) == After && Classify(g, a, b, v) == Before)
  }

  /** The pieces of the new order: below the pair, moved before, the pair, moved after, above. */
  ghost function Pieces(g: Graph, a: nat, b: nat): (ss: seq<seq<nat>>)
    requires a < b < |g.passes|
    ensures |ss| == 5
  {
    [Iota(0, a), Movers(g, a, b, Before, b), [a, b], Movers(g, a, b, After, b), Iota(b + 1, |g.passes|)]
  }

  lemma PiecesAreOrder(g: Graph, a: nat, b: nat)
    requires a < b < |g.passes|
    ensures Flatten(Pieces(g, a, b)) == MergeOrder(g, a, b)
  {
    var ss := Pieces(g, a, b);
    var none: seq<seq<nat>> := [];
    assert ss[4..][1..] == none;
    assert Flatten(ss[4..]) == ss[4];
    assert ss[3..][1..] == ss[4..] && ss[2..][1..] == ss[3..] && ss[1..][1..] == ss[2..];
    assert Flatten(ss[3..]) == ss[3] + ss[4];
    assert Flatten(ss[2..]) == ss[2] + (ss[3] + ss[4]);
    assert Flatten(ss[1..]) == ss[1] + (ss[2] + (ss[3] + ss[4]));
  }

  ghost function RankOf(g: Graph, a: nat, b: nat, x: nat): (k: nat)
    ensures k < 5
  {
    if x < a then 0
    else if b < x then 4
    else if x == a || x == b then 2
    else if Classify(g, a, b, x) == Before then 1
    else 3
  }

  lemma {:induction false} MoversHave(g: Graph, a: nat, b: nat, m: Move, hi: nat, x: nat)
    requires a < x < hi && Classify(g, a, b, x) == m
    ensures x in Movers(g, a, b, m, hi)
  {
    if x < hi - 1 {
      MoversHave(g, a, b, m, hi - 1, x);
    }
  }

  lemma InItsPiece(g: Graph, a: nat, b: nat, x: nat)
    requires Mergeable(g, a, b) && x < |g.passes|
    ensures x in Pieces(g, a, b)[RankOf(g, a, b, x)]
  {
    if a < x < b {
      InterveningNotBlocked(g, a, b);
      MoversHave(g, a, b, Classify(g, a, b, x), b, x);
    } else if x < a {
      assert Iota(0, a)[x] == x;
    } else if b < x {
      assert Iota(b + 1, |g.passes|)[x - b - 1] == x;
    }
  }

  /** The new order puts v before u exactly when the merge makes them cross. */
  lemma MergeInverts(g: Graph, a: nat, b: nat, u: nat, v: nat)
    requires Mergeable(g, a, b) && u < v < |g.passes|
    ensures Ahead(MergeOrder(g, a, b), v, u) <==> Crosses(g, a, b, u, v)
    ensures Ahead(MergeOrder(g, a, b), u, v) <==> !Crosses(g, a, b, u, v)
  {
    var ss, i, j := Pieces(g, a, b), RankOf(g, a, b, u), RankOf(g, a, b, v);
    InItsPiece(g, a, b, u);
    InItsPiece(g, a, b, v);
    InterveningNotBlocked(g, a, b);
    MergeOrderPermutation(g, a, b);
    PermutationFacts(MergeOrder(g, a, b), |g.passes|);
    PiecesAreOrder(g, a, b);
    AheadOneWay(MergeOrder(g, a, b), u, v);
    CrossedPieces(g, a, b, u, v);
    hide Pieces, RankOf, Crosses, Ahead, Flatten, MergeOrder, Mergeable;
    if j < i {
      AheadInFlatten(ss, j, i, v, u);
    } else {
      if i == j {
        PieceRises(g, a, b, i, u, v);
      }
      AheadInFlatten(ss, i, j, u, v);
    }
  }
  ghost predicate FeedsPair(g: Graph, a: nat, b: nat, x: nat) {
    Reaches(g, x, a) || Reaches(g, x, b)
  }

  /**
    The same in terms of paths alone: only passes of the window move, and one between
    the pair goes before it exactly when it feeds the pair, else after it.
   */
  lemma MergeInvertsByPaths(g: Graph, a: nat, b: nat, u: nat, v: nat)
    requires Mergeable(g, a, b) && u < v < |g.passes|
    ensures Ahead(MergeOrder(g, a, b), v, u) <==>
      || (u == a && v < b && FeedsPair(g, a, b, v))
      || (v == b && a < u && !FeedsPair(g, a, b, u))
      || (a < u && v < b && !FeedsPair(g, a, b, u) && FeedsPair(g, a, b, v))
  {
    InterveningNotBlocked(g, a, b);
    MergeInverts(g, a, b, u, v);
    hide Ahead, MergeOrder, Reaches;
  }


  lemma CrossedPieces(g: Graph, a: nat, b: nat, u: nat, v: nat)
    requires Mergeable(g, a, b) && u < v < |g.passes|
    ensures Crosses(g, a, b, u, v) <==> RankOf(g, a, b, v) < RankOf(g, a, b, u)
  {
    InterveningNotBlocked(g, a, b);
    hide Classify;
  }

  lemma PieceRises(g: Graph, a: nat, b: nat, i: nat, u: nat, v: nat)
    requires a < b < |g.passes| && i < 5 && u < v && u in Pieces(g, a, b)[i] && v in Pieces(g, a, b)[i]
    ensures Ahead(Pieces(g, a, b)[i], u, v)
  {
    AheadInRising(Pieces(g, a, b)[i], u, v);
  }

  // ----- the whole run -----

  /** Where pass x of g stands after a merge. */
  ghost function NewIndex(g: Graph, a: nat, b: nat, x: nat): nat
    requires a < b < |g.passes| && x < |g.passes|
  {
    RemapOf(MergeGroups(g, a, b), |g.passes|)[x]
  }

  lemma NewIndexRight(g: Graph, a: nat, b: nat, x: nat)
    requires Mergeable(g, a, b) && Forward(g) && x < |g.passes|
    ensures NewIndex(g, a, b, x) < |MergeGroups(g, a, b)| && x in MergeGroups(g, a, b)[NewIndex(g, a, b, x)]
  {
    MergeGroupsFacts(g, a, b);
    var j := GroupOf(MergeGroups(g, a, b), |g.passes|, x);
    RemapOfGroup(MergeGroups(g, a, b), |g.passes|, j, x);
  }

  lemma NewIndexOf(g: Graph, a: nat, b: nat, j: nat, x: nat)
    requires Mergeable(g, a, b) && Forward(g) && j < |MergeGroups(g, a, b)| && x in MergeGroups(g, a, b)[j]
    ensures x < |g.passes| && NewIndex(g, a, b, x) == j
  {
    MergeGroupsFacts(g, a, b);
    RemapOfGroup(MergeGroups(g, a, b), |g.passes|, j, x);
  }

  lemma PairTogether(g: Graph, a: nat, b: nat)
    requires Mergeable(g, a, b) && Forward(g)
    ensures NewIndex(g, a, b, a) == NewIndex(g, a, b, b)
    ensures
      var j := NewIndex(g, a, b, a);
      j < |MergeGroups(g, a, b)| && MergeGroups(g, a, b)[j] == [a, b]
  {
    var groups, j := MergeGroups(g, a, b), a + |Movers(g, a, b, Before, b)|;
    assert groups[j] == [a, b];
    assert [a, b][0] == a && [a, b][1] == b;
    NewIndexOf(g, a, b, j, a);
    NewIndexOf(g, a, b, j, b);
  }

  function Lesser(x: nat, y: nat): nat {
    if x < y then x else y
  }

  function Greater(x: nat, y: nat): nat {
    if x < y then y else x
  }

  lemma StepIndices(g: Graph, a: nat, b: nat, u: nat, v: nat)
    requires WellFormed(g) && FirstMergeable(g, a, b) && u < v < |g.passes|
    ensures a < b < |g.passes| && WellFormed(Merge(g, a, b)) && |Merge(g, a, b).passes| < |g.passes|
    ensures NewIndex(g, a, b, u) < |Merge(g, a, b).passes| && NewIndex(g, a, b, v) < |Merge(g, a, b).passes|
  {
    MergedOrigins(g, a, b);
    NewIndexRight(g, a, b, u);
    NewIndexRight(g, a, b, v);
    hide Merge, MergeGroups, NewIndex, NoneBefore;
  }

  /** How many merges of the whole run make the passes that hold u and v cross. */
  ghost function Crossings(g: Graph, u: nat, v: nat): nat
    requires WellFormed(g) && u < v < |g.passes|
    decreases |g.passes|
  {
    if exists a: nat, b: nat :: FirstMergeable(g, a, b) then
      var a: nat, b: nat :| FirstMergeable(g, a, b);
      StepIndices(g, a, b, u, v);
      var j, k := NewIndex(g, a, b, u), NewIndex(g, a, b, v);
      if j == k then 0
      else (if Crosses(g, a, b, u, v) then 1 else 0) + Crossings(Merge(g, a, b), Lesser(j, k), Greater(j, k))
    else 0
  }

  lemma CrossingsStep(g: Graph, a: nat, b: nat, u: nat, v: nat)
    requires WellFormed(g) && FirstMergeable(g, a, b) && u < v < |g.passes|
    ensures a < b && WellFormed(Merge(g, a, b))
    ensures NewIndex(g, a, b, u) < |Merge(g, a, b).passes| && NewIndex(g, a, b, v) < |Merge(g, a, b).passes|
    ensures
      var j, k := NewIndex(g, a, b, u), NewIndex(g, a, b, v);
      Crossings(g, u, v) ==
        if j == k then 0
        else (if Crosses(g, a, b, u, v) then 1 else 0) + Crossings(Merge(g, a, b), Lesser(j, k), Greater(j, k))
  {
    StepIndices(g, a, b, u, v);
    hide Merge, MergeGroups, FirstMergeable, NewIndex, Crosses, Forward;
    forall c: nat, d: nat | FirstMergeable(g, c, d) ensures c == a && d == b {
      FirstMergeableUnique(g, a, b, c, d);
    }
  }

  /** The order of the old passes in the optimized frame. */
  ghost function FinalOrder(g: Graph): seq<nat>
    requires WellFormed(g)
  {
    Flatten(Origins(g))
  }

  lemma FinalOrderDistinct(g: Graph)
    requires WellFormed(g)
    ensures NoDuplicates(FinalOrder(g)) && |FinalOrder(g)| == |g.passes|
    ensures forall x: nat :: x < |g.passes| ==> x in FinalOrder(g)
  {
    DescendsPermutes(g, Coalesced(g), Origins(g));
    PermutationFacts(FinalOrder(g), |g.passes|);
  }

  lemma FinalOrderStep(g: Graph, a: nat, b: nat)
    requires WellFormed(g) && FirstMergeable(g, a, b)
    ensures WellFormed(Merge(g, a, b)) && Bounded(FinalOrder(Merge(g, a, b)), |MergeGroups(g, a, b)|)
    ensures FinalOrder(g) == ConcatMap(MergeGroups(g, a, b), FinalOrder(Merge(g, a, b)))
  {
    OriginsStep(g, a, b);
    FlattenCompose(MergeGroups(g, a, b), Origins(Merge(g, a, b)));
  }

  /** Across a merge, the order of two passes that stay apart is that of the passes they end in. */
  lemma OrderFollowsGroups(g: Graph, a: nat, b: nat, u: nat, v: nat)
    requires WellFormed(g) && FirstMergeable(g, a, b) && u < |g.passes| && v < |g.passes|
    requires NewIndex(g, a, b, u) != NewIndex(g, a, b, v)
    ensures WellFormed(Merge(g, a, b))
    ensures Ahead(FinalOrder(Merge(g, a, b)), NewIndex(g, a, b, u), NewIndex(g, a, b, v)) ==> Ahead(FinalOrder(g), u, v)
    ensures NewIndex(g, a, b, u) < NewIndex(g, a, b, v) ==> Ahead(MergeOrder(g, a, b), u, v)
  {
    NewIndexRight(g, a, b, u);
    NewIndexRight(g, a, b, v);
    FinalOrderStep(g, a, b);
    FlattenMergeGroups(g, a, b);
    var groups, j, k := MergeGroups(g, a, b), NewIndex(g, a, b, u), NewIndex(g, a, b, v);
    hide Ahead, MergeGroups, MergeOrder, FinalOrder, NewIndex, Merge, Mergeable;
    if Ahead(FinalOrder(Merge(g, a, b)), j, k) {
      AheadInConcat(groups, FinalOrder(Merge(g, a, b)), j, k, u, v);
    }
    if j < k {
      AheadInFlatten(groups, j, k, u, v);
    }
  }

  /** Two passes that end in one group are the merged pair, and keep their order for good. */
  lemma PairKeepsOrder(g: Graph, a: nat, b: nat, u: nat, v: nat)
    requires WellFormed(g) && FirstMergeable(g, a, b) && u < v < |g.passes|
    requires NewIndex(g, a, b, u) == NewIndex(g, a, b, v)
    ensures Ahead(FinalOrder(g), u, v)
  {
    var j := NewIndex(g, a, b, u);
    PairIsMerged(g, a, b, u, v);
    FinalOrderStep(g, a, b);
    OriginsStep(g, a, b);
    FinalOrderDistinct(Merge(g, a, b));
    hide Ahead, MergeGroups, FinalOrder, NewIndex, Merge, Mergeable;
    AheadInConcat(MergeGroups(g, a, b), FinalOrder(Merge(g, a, b)), j, j, u, v);
  }

  lemma PairIsMerged(g: Graph, a: nat, b: nat, u: nat, v: nat)
    requires Mergeable(g, a, b) && Forward(g) && u < v < |g.passes|
    requires NewIndex(g, a, b, u) == NewIndex(g, a, b, v)
    ensures
      var j := NewIndex(g, a, b, u);
      && j < |MergeGroups(g, a, b)| && u in MergeGroups(g, a, b)[j] && v in MergeGroups(g, a, b)[j]
      && Ahead(MergeGroups(g, a, b)[j], u, v)
  {
    NewIndexRight(g, a, b, u);
    NewIndexRight(g, a, b, v);
    MergeGroupShape(g, a, b, NewIndex(g, a, b, u));
    hide MergeGroups, NewIndex;
    assert [a, b][0] == a && [a, b][1] == b;
  }

  lemma MergeGroupShape(g: Graph, a: nat, b: nat, j: nat)
    requires a < b < |g.passes| && j < |MergeGroups(g, a, b)|
    ensures MergeGroups(g, a, b)[j] == [a, b] || |MergeGroups(g, a, b)[j]| == 1
  {
  }

  /** The optimized frame runs v before u exactly when the merges made them cross an odd number of times. */
  lemma {:induction false} InvertedIffCrossedOddly(g: Graph, u: nat, v: nat)
    requires WellFormed(g) && u < v < |g.passes|
    ensures Ahead(FinalOrder(g), v, u) <==> Crossings(g, u, v) % 2 == 1
    ensures Ahead(FinalOrder(g), u, v) <==> Crossings(g, u, v) % 2 == 0
    decreases |g.passes|
  {
    FinalOrderDistinct(g);
    AheadOneWay(FinalOrder(g), u, v);
    FirstOrStuck(g);
    if Stuck(g) {
      NothingCrosses(g, u, v);
    } else {
      var a: nat, b: nat :| FirstMergeable(g, a, b);
      CrossingsStep(g, a, b, u, v);
      if NewIndex(g, a, b, u) == NewIndex(g, a, b, v) {
        PairKeepsOrder(g, a, b, u, v);
      } else {
        CrossedStep(g, a, b, u, v);
      }
    }
  }

  lemma NothingCrosses(g: Graph, u: nat, v: nat)
    requires WellFormed(g) && Stuck(g) && u < v < |g.passes|
    ensures Crossings(g, u, v) == 0 && Ahead(FinalOrder(g), u, v)
  {
    FirstOrStuck(g);
    OriginsStop(g);
    var all := Iota(0, |g.passes|);
    FlattenSingles(all);
    assert all[u] == u && all[v] == v;
  }

  lemma {:induction false} CrossedStep(g: Graph, a: nat, b: nat, u: nat, v: nat)
    requires WellFormed(g) && FirstMergeable(g, a, b) && u < v < |g.passes|
    requires NewIndex(g, a, b, u) != NewIndex(g, a, b, v)
    ensures Ahead(FinalOrder(g), v, u) <==> Crossings(g, u, v) % 2 == 1
    decreases |g.passes|, 0
  {
    hide Ahead, Crosses, Crossings, FinalOrder, NewIndex, Merge, MergeOrder, Stuck, NoDuplicates, Coalesced, MergeGroups;
    CrossingsStep(g, a, b, u, v);
    MergeShrinks(g, a, b);
    var h, j, k := Merge(g, a, b), NewIndex(g, a, b, u), NewIndex(g, a, b, v);
    hide Mergeable;
    InvertedIffCrossedOddly(h, Lesser(j, k), Greater(j, k));
    CrossedStepOrders(g, a, b, u, v);
  }

  lemma CrossedStepOrders(g: Graph, a: nat, b: nat, u: nat, v: nat)
    requires WellFormed(g) && FirstMergeable(g, a, b) && u < v < |g.passes|
    requires NewIndex(g, a, b, u) != NewIndex(g, a, b, v)
    ensures WellFormed(Merge(g, a, b))
    ensures
      var order, j, k := FinalOrder(Merge(g, a, b)), NewIndex(g, a, b, u), NewIndex(g, a, b, v);
      && (Crosses(g, a, b, u, v) <==> k < j)
      && (Ahead(order, j, k) <==> !Ahead(order, k, j))
      && (Ahead(FinalOrder(g), v, u) <==> Ahead(order, k, j))
  {
    MergeInverts(g, a, b, u, v);
    OrderFollowsGroups(g, a, b, u, v);
    OrderFollowsGroups(g, a, b, v, u);
    FinalOrderDistinct(g);
    AheadOneWay(FinalOrder(g), u, v);
    OriginsStep(g, a, b);
    NewIndexRight(g, a, b, u);
    NewIndexRight(g, a, b, v);
    FinalOrderDistinct(Merge(g, a, b));
    hide Ahead, Crosses, FinalOrder, NewIndex, Merge, MergeOrder, MergeGroups, Mergeable, NoDuplicates, Coalesced;
    AheadOneWay(FinalOrder(Merge(g, a, b)), NewIndex(g, a, b, u), NewIndex(g, a, b, v));
  }

  /** u and v end in one pass. */
  ghost predicate Together(g: Graph, u: nat, v: nat)
    requires WellFormed(g)
  {
    exists j: nat :: j < |Origins(g)| && u in Origins(g)[j] && v in Origins(g)[j]
  }

  /** They do once the passes they are in do. */
  lemma TogetherStep(g: Graph, a: nat, b: nat, u: nat, v: nat)
    requires WellFormed(g) && FirstMergeable(g, a, b) && u < |g.passes| && v < |g.passes|
    requires WellFormed(Merge(g, a, b))
    requires NewIndex(g, a, b, u) == NewIndex(g, a, b, v) || Together(Merge(g, a, b), NewIndex(g, a, b, u), NewIndex(g, a, b, v))
    ensures Together(g, u, v)
  {
    OriginsStep(g, a, b);
    MergedOrigins(g, a, b);
    NewIndexRight(g, a, b, u);
    NewIndexRight(g, a, b, v);
    var groups, rest, k, l := MergeGroups(g, a, b), Origins(Merge(g, a, b)), NewIndex(g, a, b, u), NewIndex(g, a, b, v);
    hide MergeGroups, Merge, Mergeable, NewIndex, Flatten, Permutation;
    var j: nat;
    if k == l {
      j := GroupOf(rest, |groups|, k);
    } else {
      j :| j < |rest| && k in rest[j] && l in rest[j];
    }
    InConcat(groups, rest[j], k, u);
    InConcat(groups, rest[j], l, v);
    assert Origins(g)[j] == ConcatMap(groups, rest[j]);
  }

  lemma InConcat(f: seq<seq<nat>>, idx: seq<nat>, k: nat, x: nat)
    requires Bounded(idx, |f|) && k in idx && k < |f| && x in f[k]
    ensures x in ConcatMap(f, idx)
  {
    var t: nat :| t < |idx| && idx[t] == k;
    ConcatMapMember(f, idx, t, x);
  }

  // ----- draws -----

  /** The draws of every pass of the optimized frame run in submission order. */
  ghost predicate DrawsInOrder(g: Graph)
    requires WellFormed(g)
  {
    forall j: nat, u: nat, v: nat :: DrawnTogether(g, j, u, v) ==> Ahead(Origins(g)[j], u, v)
  }

  /** u was submitted before v, both draw, and pass j of the optimized frame holds both. */
  ghost predicate DrawnTogether(g: Graph, j: nat, u: nat, v: nat)
    requires WellFormed(g)
  {
    && u < v < |g.passes| && PassDraws(g)[u] != [] && PassDraws(g)[v] != []
    && j < |Origins(g)| && u in Origins(g)[j] && v in Origins(g)[j]
  }

  lemma TogetherAsInFrame(g: Graph, j: nat, u: nat, v: nat)
    requires WellFormed(g) && j < |Origins(g)| && u in Origins(g)[j] && v in Origins(g)[j] && u < v < |g.passes|
    ensures Ahead(Origins(g)[j], u, v) <==> Ahead(FinalOrder(g), u, v)
  {
    FinalOrderDistinct(g);
    AheadOneWay(FinalOrder(g), u, v);
    GroupDistinct(Origins(g), j);
    AheadOneWay(Origins(g)[j], u, v);
    hide Ahead;
    if Ahead(Origins(g)[j], u, v) {
      AheadInFlatten(Origins(g), j, j, u, v);
    } else {
      AheadInFlatten(Origins(g), j, j, v, u);
    }
  }

  /** They do exactly when every two passes that draw and end in one pass crossed an even number of times. */
  lemma DrawsInOrderIffCrossedEvenly(g: Graph)
    requires WellFormed(g)
    ensures DrawsInOrder(g) <==>
      forall j: nat, u: nat, v: nat :: DrawnTogether(g, j, u, v) ==> Crossings(g, u, v) % 2 == 0
  {
    forall j: nat, u: nat, v: nat | DrawnTogether(g, j, u, v)
      ensures Ahead(Origins(g)[j], u, v) <==> Crossings(g, u, v) % 2 == 0
    {
      TogetherAsInFrame(g, j, u, v);
      InvertedIffCrossedOddly(g, u, v);
    }
    hide Crossings, Ahead, Origins;
  }

  /** Joining every draw-only pass to the later ones on its targets is enough. */
  lemma JoinedDrawsInOrder(g: Graph)
    requires WellFormed(g) && SameTargetsOrdered(g)
    ensures DrawsInOrder(g)
  {
    CoalescedKeepsSubmissionOrder(g);
    forall j: nat, u: nat, v: nat | DrawnTogether(g, j, u, v) ensures Ahead(Origins(g)[j], u, v) {
      AheadInRising(Origins(g)[j], u, v);
    }
  }
}
