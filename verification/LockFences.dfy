/**
  Which passes merging leaves as boundaries: a pass stays alone, with every other
  pass on its own side, exactly when no merge of the run covers it. Passes that are
  not render passes are never covered; passes that hold a lock may be.
 */
module LockFences {
  import opened Sequences
  import opened FrameGraphs
  import opened Coalescing
  import opened Provenance
  import opened Fixpoint
  import opened Hazards
  import opened SubmissionOrder

  // ----- one merge -----

  /** The merged pair is f itself and another pass, or has f between its two passes. */
  predicate Covers(a: nat, b: nat, f: nat) {
    a <= f <= b
  }

  /** Every other pass stands on the side of f it stood on. */
  ghost predicate SidesKept(order: seq<nat>, n: nat, f: nat) {
    forall u: nat :: u < n && u != f ==> (u < f <==> Ahead(order, u, f))
  }

  /** One merge leaves f alone with every pass on its side exactly when it does not cover f. */
  lemma MergeKeepsFence(g: Graph, a: nat, b: nat, f: nat)
    requires Mergeable(g, a, b) && f < |g.passes|
    ensures (f != a && f != b && SidesKept(MergeOrder(g, a, b), |g.passes|, f)) <==> !Covers(a, b, f)
  {
    InterveningNotBlocked(g, a, b);
    hide Ahead, MergeOrder, Classify;
    forall u: nat | u < |g.passes| && u != f && !Covers(a, b, f) ensures u < f <==> Ahead(MergeOrder(g, a, b), u, f) {
      if u < f {
        MergeInverts(g, a, b, u, f);
      } else {
        MergeInverts(g, a, b, f, u);
      }
    }
    if a < f < b {
      MergeInverts(g, a, b, a, f);
      MergeInverts(g, a, b, f, b);
    }
  }

  // ----- the whole run -----

  /** Some merge of the run covers the pass that holds f. */
  ghost predicate Covered(g: Graph, f: nat)
    requires WellFormed(g) && f < |g.passes|
    decreases |g.passes|
  {
    exists a: nat, b: nat ::
      FirstMergeable(g, a, b) && (Covers(a, b, f) || CoveredLater(g, a, b, f))
  }

  ghost predicate CoveredLater(g: Graph, a: nat, b: nat, f: nat)
    requires WellFormed(g) && FirstMergeable(g, a, b) && f < |g.passes|
    decreases |g.passes|, 0
  {
    MergedOrigins(g, a, b);
    NewIndexRight(g, a, b, f);
    Covered(Merge(g, a, b), NewIndex(g, a, b, f))
  }

  /** f ends alone in a pass of the result. */
  ghost predicate Alone(g: Graph, f: nat)
    requires WellFormed(g)
  {
    exists j: nat :: j < |Origins(g)| && Origins(g)[j] == [f]
  }

  /** f is a boundary of the optimized frame: alone, with every other pass on its side. */
  ghost predicate Fence(g: Graph, f: nat)
    requires WellFormed(g)
  {
    Alone(g, f) && SidesKept(FinalOrder(g), |g.passes|, f)
  }

  lemma SingleConcat(groups: seq<seq<nat>>, idx: seq<nat>, f: nat)
    requires Bounded(idx, |groups|) && forall j :: 0 <= j < |groups| ==> groups[j] != []
    requires ConcatMap(groups, idx) == [f]
    ensures |idx| == 1 && groups[idx[0]] == [f]
  {
  }

  /** f is alone in the end exactly when the merge leaves it alone and so does the rest of the run. */
  lemma AloneStep(g: Graph, a: nat, b: nat, f: nat)
    requires WellFormed(g) && FirstMergeable(g, a, b) && f < |g.passes|
    ensures WellFormed(Merge(g, a, b)) && NewIndex(g, a, b, f) < |MergeGroups(g, a, b)|
    ensures Alone(g, f) <==>
      MergeGroups(g, a, b)[NewIndex(g, a, b, f)] == [f] && Alone(Merge(g, a, b), NewIndex(g, a, b, f))
  {
    OriginsStep(g, a, b);
    NewIndexRight(g, a, b, f);
    MergeGroupsFacts(g, a, b);
    var groups, k, rest := MergeGroups(g, a, b), NewIndex(g, a, b, f), Origins(Merge(g, a, b));
    forall x: nat | x < |groups| && f in groups[x] ensures x == k {
      NewIndexOf(g, a, b, x, f);
    }
    hide MergeGroups, Merge, FirstMergeable, NewIndex, Flatten, Linear, Permutation, Forward;
    AloneInConcat(groups, rest, Origins(g), k, f);
    hide Origins, ConcatMap;
  }

  lemma AloneInConcat(groups: seq<seq<nat>>, rest: seq<seq<nat>>, all: seq<seq<nat>>, k: nat, f: nat)
    requires forall j :: 0 <= j < |rest| ==> Bounded(rest[j], |groups|)
    requires forall j :: 0 <= j < |groups| ==> groups[j] != []
    requires all == Compose(groups, rest) && k < |groups| && f in groups[k]
    requires forall x: nat :: x < |groups| && f in groups[x] ==> x == k
    ensures (exists j: nat :: j < |all| && all[j] == [f])
       <==> groups[k] == [f] && exists j: nat :: j < |rest| && rest[j] == [k]
  {
    if j: nat :| j < |all| && all[j] == [f] {
      SingleConcat(groups, rest[j], f);
      assert f in groups[rest[j][0]];
      assert rest[j] == [k];
    }
    if groups[k] == [f] {
      assert ConcatMap(groups, [k]) == groups[k] + ConcatMap(groups, []);
      if j: nat :| j < |rest| && rest[j] == [k] {
        assert all[j] == [f];
      }
    }
  }

  /** A merge that leaves f alone passes on, for every other pass, its side of f in the end. */
  lemma SideStep(g: Graph, a: nat, b: nat, f: nat, u: nat)
    requires WellFormed(g) && FirstMergeable(g, a, b) && f < |g.passes| && u < |g.passes| && u != f
    requires NewIndex(g, a, b, u) != NewIndex(g, a, b, f)
    ensures WellFormed(Merge(g, a, b))
    ensures Ahead(FinalOrder(g), u, f) <==> Ahead(FinalOrder(Merge(g, a, b)), NewIndex(g, a, b, u), NewIndex(g, a, b, f))
    ensures Ahead(MergeOrder(g, a, b), u, f) <==> NewIndex(g, a, b, u) < NewIndex(g, a, b, f)
  {
    OrderFollowsGroups(g, a, b, u, f);
    OrderFollowsGroups(g, a, b, f, u);
    FinalOrderDistinct(g);
    AheadOneWay(FinalOrder(g), u, f);
    MergedOrderOneWay(g, a, b, u, f);
    MergedOrigins(g, a, b);
    NewIndexRight(g, a, b, u);
    NewIndexRight(g, a, b, f);
    FinalOrderDistinct(Merge(g, a, b));
    hide Ahead, FinalOrder, NewIndex, Merge, MergeOrder, MergeGroups, Mergeable, NoDuplicates;
    AheadOneWay(FinalOrder(Merge(g, a, b)), NewIndex(g, a, b, u), NewIndex(g, a, b, f));
  }

  lemma MergedOrderOneWay(g: Graph, a: nat, b: nat, u: nat, v: nat)
    requires Mergeable(g, a, b) && u < |g.passes| && v < |g.passes| && u != v
    ensures Ahead(MergeOrder(g, a, b), u, v) <==> !Ahead(MergeOrder(g, a, b), v, u)
  {
    hide Ahead, MergeOrder;
    if u < v {
      MergeInverts(g, a, b, u, v);
    } else {
      MergeInverts(g, a, b, v, u);
    }
  }

  lemma GroupOfFence(g: Graph, a: nat, b: nat, f: nat)
    requires Mergeable(g, a, b) && Forward(g) && f < |g.passes|
    ensures NewIndex(g, a, b, f) < |MergeGroups(g, a, b)|
    ensures MergeGroups(g, a, b)[NewIndex(g, a, b, f)] == [f] <==> f != a && f != b
    ensures NewIndex(g, a, b, a) == NewIndex(g, a, b, b)
  {
    NewIndexRight(g, a, b, f);
    NewIndexRight(g, a, b, a);
    MergeGroupShape(g, a, b, NewIndex(g, a, b, f));
    PairTogether(g, a, b);
    if f == a || f == b {
      var j := NewIndex(g, a, b, a);
      assert a in MergeGroups(g, a, b)[j] && b in MergeGroups(g, a, b)[j];
    }
  }

  /** A merge that covers f undoes the boundary for good. */
  lemma CoveredIsNoFence(g: Graph, a: nat, b: nat, f: nat)
    requires WellFormed(g) && FirstMergeable(g, a, b) && f < |g.passes| && Covers(a, b, f)
    ensures !Fence(g, f)
  {
    AloneStep(g, a, b, f);
    GroupOfFence(g, a, b, f);
    if f != a && f != b {
      OnOneSide(g, a, b, f);
      TwoSided(FinalOrder(g), |g.passes|, a, b, f);
      hide Ahead, FinalOrder, Alone, SidesKept;
    }
  }

  lemma TwoSided(order: seq<nat>, n: nat, a: nat, b: nat, f: nat)
    requires a < f < b < n && (Ahead(order, a, f) <==> Ahead(order, b, f))
    ensures !SidesKept(order, n, f)
  {
    hide Ahead;
  }

  /** The merged pair lands on one side of whatever was between. */
  lemma OnOneSide(g: Graph, a: nat, b: nat, f: nat)
    requires WellFormed(g) && FirstMergeable(g, a, b) && a < f < b
    ensures Ahead(FinalOrder(g), a, f) <==> Ahead(FinalOrder(g), b, f)
  {
    GroupOfFence(g, a, b, f);
    PairTogether(g, a, b);
    hide Ahead, FinalOrder, MergeOrder, Merge;
    SideStep(g, a, b, f, a);
    SideStep(g, a, b, f, b);
  }

  /** A merge that does not cover f leaves the question to the rest of the run. */
  lemma FenceStep(g: Graph, a: nat, b: nat, f: nat)
    requires WellFormed(g) && FirstMergeable(g, a, b) && f < |g.passes| && !Covers(a, b, f)
    ensures WellFormed(Merge(g, a, b))
    ensures Fence(g, f) <==> Fence(Merge(g, a, b), NewIndex(g, a, b, f))
  {
    hide Ahead, FinalOrder, MergeOrder, Merge, MergeGroups, NewIndex, NoneBefore, Alone, SidesKept;
    AloneStep(g, a, b, f);
    GroupOfFence(g, a, b, f);
    SidesForward(g, a, b, f);
    SidesBack(g, a, b, f);
  }

  /** Where a pass and f stand after a merge that does not cover f, and in the end. */
  lemma SideOf(g: Graph, a: nat, b: nat, f: nat, u: nat)
    requires WellFormed(g) && FirstMergeable(g, a, b) && f < |g.passes| && !Covers(a, b, f) && u < |g.passes| && u != f
    ensures WellFormed(Merge(g, a, b)) && NewIndex(g, a, b, u) < |Merge(g, a, b).passes|
    ensures NewIndex(g, a, b, u) != NewIndex(g, a, b, f)
    ensures u < f <==> NewIndex(g, a, b, u) < NewIndex(g, a, b, f)
    ensures Ahead(FinalOrder(g), u, f) <==> Ahead(FinalOrder(Merge(g, a, b)), NewIndex(g, a, b, u), NewIndex(g, a, b, f))
  {
    GroupOfFence(g, a, b, f);
    NewIndexRight(g, a, b, u);
    MergedOrigins(g, a, b);
    MergeKeepsFence(g, a, b, f);
    assert u < f <==> Ahead(MergeOrder(g, a, b), u, f);
    hide Ahead, FinalOrder, MergeOrder, Merge, MergeGroups, NewIndex, Mergeable, SidesKept;
    SideStep(g, a, b, f, u);
  }

  lemma MergedWellFormed(g: Graph, a: nat, b: nat)
    requires WellFormed(g) && Mergeable(g, a, b)
    ensures WellFormed(Merge(g, a, b))
  {
    MergedOrigins(g, a, b);
  }

  lemma SidesForward(g: Graph, a: nat, b: nat, f: nat)
    requires WellFormed(g) && FirstMergeable(g, a, b) && f < |g.passes| && !Covers(a, b, f)
    ensures WellFormed(Merge(g, a, b))
    ensures SidesKept(FinalOrder(g), |g.passes|, f) ==>
      SidesKept(FinalOrder(Merge(g, a, b)), |Merge(g, a, b).passes|, NewIndex(g, a, b, f))
  {
    MergedWellFormed(g, a, b);
    var h, k := Merge(g, a, b), NewIndex(g, a, b, f);
    hide Ahead, FinalOrder, Merge, MergeGroups, NewIndex, NoneBefore;
    if SidesKept(FinalOrder(g), |g.passes|, f) {
      forall i: nat | i < |h.passes| && i != k ensures i < k <==> Ahead(FinalOrder(h), i, k) {
        SideAfter(g, a, b, f, i);
      }
    }
  }

  lemma SideAfter(g: Graph, a: nat, b: nat, f: nat, i: nat)
    requires WellFormed(g) && FirstMergeable(g, a, b) && f < |g.passes| && !Covers(a, b, f)
    requires SidesKept(FinalOrder(g), |g.passes|, f) && i < |Merge(g, a, b).passes| && i != NewIndex(g, a, b, f)
    ensures WellFormed(Merge(g, a, b))
    ensures i < NewIndex(g, a, b, f) <==> Ahead(FinalOrder(Merge(g, a, b)), i, NewIndex(g, a, b, f))
  {
    hide Ahead, FinalOrder, Merge, MergeGroups, NewIndex, NoneBefore;
    var u := SomeoneThere(g, a, b, i);
    SideOf(g, a, b, f, u);
  }

  lemma SidesBack(g: Graph, a: nat, b: nat, f: nat)
    requires WellFormed(g) && FirstMergeable(g, a, b) && f < |g.passes| && !Covers(a, b, f)
    ensures WellFormed(Merge(g, a, b))
    ensures SidesKept(FinalOrder(Merge(g, a, b)), |Merge(g, a, b).passes|, NewIndex(g, a, b, f)) ==>
      SidesKept(FinalOrder(g), |g.passes|, f)
  {
    MergedWellFormed(g, a, b);
    var h, k := Merge(g, a, b), NewIndex(g, a, b, f);
    hide Ahead, FinalOrder, Merge, MergeGroups, NewIndex, NoneBefore;
    if SidesKept(FinalOrder(h), |h.passes|, k) {
      forall u: nat | u < |g.passes| && u != f ensures u < f <==> Ahead(FinalOrder(g), u, f) {
        SideOf(g, a, b, f, u);
      }
    }
  }

  lemma SomeoneThere(g: Graph, a: nat, b: nat, i: nat) returns (u: nat)
    requires WellFormed(g) && Mergeable(g, a, b) && i < |Merge(g, a, b).passes|
    ensures u < |g.passes| && NewIndex(g, a, b, u) == i
  {
    MergedOrigins(g, a, b);
    MergeGroupsFacts(g, a, b);
    hide Merge, MergeGroups, NewIndex, Mergeable, Flatten, Linear, Permutation;
    u := MergeGroups(g, a, b)[i][0];
    assert u in MergeGroups(g, a, b)[i];
    NewIndexOf(g, a, b, i, u);
  }

  /** A pass is a boundary of the optimized frame exactly when no merge of the run covers it. */
  lemma {:induction false} FenceIffNeverCovered(g: Graph, f: nat)
    requires WellFormed(g) && f < |g.passes|
    ensures Fence(g, f) <==> !Covered(g, f)
    decreases |g.passes|
  {
    FirstOrStuck(g);
    if Stuck(g) {
      UntouchedFence(g, f);
    } else {
      var a: nat, b: nat :| FirstMergeable(g, a, b);
      CoveredStep(g, a, b, f);
      if Covers(a, b, f) {
        CoveredIsNoFence(g, a, b, f);
      } else {
        MergedOrigins(g, a, b);
        NewIndexRight(g, a, b, f);
        FenceIffNeverCovered(Merge(g, a, b), NewIndex(g, a, b, f));
        FenceStep(g, a, b, f);
      }
    }
  }

  lemma CoveredStep(g: Graph, a: nat, b: nat, f: nat)
    requires WellFormed(g) && FirstMergeable(g, a, b) && f < |g.passes|
    ensures WellFormed(Merge(g, a, b)) && NewIndex(g, a, b, f) < |Merge(g, a, b).passes|
    ensures Covered(g, f) <==> Covers(a, b, f) || Covered(Merge(g, a, b), NewIndex(g, a, b, f))
  {
    MergedOrigins(g, a, b);
    NewIndexRight(g, a, b, f);
    hide Merge, MergeGroups, NewIndex, Mergeable, NoneBefore;
    forall c: nat, d: nat | FirstMergeable(g, c, d) ensures c == a && d == b {
      FirstMergeableUnique(g, a, b, c, d);
    }
  }

  lemma UntouchedFence(g: Graph, f: nat)
    requires WellFormed(g) && Stuck(g) && f < |g.passes|
    ensures Fence(g, f) && !Covered(g, f)
  {
    FirstOrStuck(g);
    OriginsStop(g);
    assert Origins(g)[f] == [f];
    forall u: nat | u < |g.passes| && u != f ensures u < f <==> Ahead(FinalOrder(g), u, f) {
      FinalOrderDistinct(g);
      AheadOneWay(FinalOrder(g), u, f);
      if u < f {
        NothingCrosses(g, u, f);
      } else {
        NothingCrosses(g, f, u);
      }
    }
  }

  // ----- passes that hold a lock -----

  predicate HoldsLock(g: Graph, f: nat) {
    f < |g.passes| && g.passes[f].flags.containsLock
  }

  /** Every pass that holds a lock is a boundary exactly when no merge of the run covers one. */
  lemma LocksFencedIffNeverCovered(g: Graph)
    requires WellFormed(g)
    ensures (forall f: nat :: HoldsLock(g, f) ==> Fence(g, f)) <==> forall f: nat :: HoldsLock(g, f) ==> !Covered(g, f)
  {
    forall f: nat | HoldsLock(g, f) ensures Fence(g, f) <==> !Covered(g, f) {
      FenceIffNeverCovered(g, f);
    }
  }

  /** Passes that are not render passes always are boundaries. */
  lemma NonRenderIsFence(g: Graph, f: nat)
    requires WellFormed(g) && f < |g.passes| && !g.passes[f].kind.Render?
    ensures Fence(g, f) && !Covered(g, f)
  {
    forall u: nat | u < |g.passes| && u != f ensures u < f <==> Ahead(FinalOrder(g), u, f) {
      NonRenderSides(g, f, u);
    }
    NonRenderAlone(g, f);
    FenceIffNeverCovered(g, f);
    hide Ahead, FinalOrder, Alone, Covered;
  }

  lemma NonRenderAlone(g: Graph, f: nat)
    requires WellFormed(g) && f < |g.passes| && !g.passes[f].kind.Render?
    ensures Alone(g, f)
  {
    hide Origins, Descends, Flatten, Coalesced;
    CoalescedDescends(g);
    DescendsPermutes(g, Coalesced(g), Origins(g));
    var j := GroupOf(Origins(g), |g.passes|, f);
    FenceAlone(g, Coalesced(g), Origins(g), j, f);
  }

  lemma NonRenderSides(g: Graph, f: nat, u: nat)
    requires WellFormed(g) && f < |g.passes| && !g.passes[f].kind.Render? && u < |g.passes| && u != f
    ensures u < f <==> Ahead(FinalOrder(g), u, f)
  {
    hide Origins, Flatten, Ahead, Coalesced;
    FinalOrderDistinct(g);
    AheadOneWay(FinalOrder(g), u, f);
    var j, k := CoalescedKeepsFences(g, f, u);
    if u < f {
      AheadInFlatten(Origins(g), k, j, u, f);
    } else {
      AheadInFlatten(Origins(g), j, k, f, u);
    }
  }

  // ----- an instance that crosses a lock -----

  function PassOn(target: nat, lock: bool): PassNode {
    PassNode(Render, AttachmentSet([target], 0, 1, 1), Range(0, 0), Range(0, 0), 0, 0,
             PassFlags(lock, false, false, false, false, false))
  }

  /** Two passes on one target with a pass between them that holds a lock; the two writes are joined. */
  const LOCKED :=
    Graph(
      [PassOn(9, false), PassOn(8, true), PassOn(9, false)],
      [Resource(9, [Access(0, Write, 1), Access(2, Write, 1)], false), Resource(8, [Access(1, Write, 1)], false)],
      [Edge(0, 2, 9)], [], [])

  lemma LockedPaths()
    ensures WellFormed(LOCKED) && HazardComplete(LOCKED)
    ensures !Reaches(LOCKED, 0, 1) && !Reaches(LOCKED, 2, 1)
  {
    var g := LOCKED;
    assert Edge(0, 2, 9) in g.edges;
    assert forall u: nat, v: nat :: HasEdge(g, u, v) <==> u == 0 && v == 2;
    ReachesEdge(g, 0, 2);
    if Reaches(g, 0, 1) {
      var p :| PathBetween(g, p, 0, 1);
      ClosedUnderReaches(g, {0, 2}, p);
    }
    if Reaches(g, 2, 1) {
      ReachesForward(g, 2, 1);
    }
    hide Reaches;
    assert LogOrdered(g, g.resources[0].accesses);
    assert LogOrdered(g, g.resources[1].accesses);
  }

  /** The optimizer carries both passes to one side of the lock. */
  lemma LockCrossed()
    ensures WellFormed(LOCKED) && HazardComplete(LOCKED) && HoldsLock(LOCKED, 1)
    ensures FirstMergeable(LOCKED, 0, 2) && Covers(0, 2, 1)
    ensures Covered(LOCKED, 1) && !Fence(LOCKED, 1)
  {
    LockedPaths();
    assert Movable(LOCKED, 0, 2, 1);
    assert FirstMergeable(LOCKED, 0, 2);
    hide Fence, FirstMergeable;
    FenceIffNeverCovered(LOCKED, 1);
  }
}
