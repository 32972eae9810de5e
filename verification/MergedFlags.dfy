/** Which flags of the passes it was made from a merged pass still carries. */
module MergedFlags {
  import opened Sequences
  import opened FrameGraphs
  import opened Coalescing
  import opened Provenance
  import opened Fixpoint

  datatype Flag = LockFlag | OcclusionQueryFlag | EventQueryFlag | DeadFlag | DebugMarkerFlag | ActiveSeedFlag

  function FlagsOf(p: PassNode): set<Flag> {
    (if p.flags.containsLock then {LockFlag} else {})
    + (if p.flags.containsOcclusionQuery then {OcclusionQueryFlag} else {})
    + (if p.flags.containsEventQuery then {EventQueryFlag} else {})
    + (if p.flags.dead then {DeadFlag} else {})
    + (if p.flags.debugMarker then {DebugMarkerFlag} else {})
    + (if p.flags.activeRenderSeed then {ActiveSeedFlag} else {})
  }

  /** Every flag of some pass of the group. */
  function AllFlags(g: Graph, group: seq<nat>): set<Flag>
    requires Bounded(group, |g.passes|)
  {
    if group == [] then {} else FlagsOf(g.passes[group[0]]) + AllFlags(g, group[1..])
  }

  ghost predicate LaterWithinFirst(g: Graph, group: seq<nat>)
    requires group != [] && Bounded(group, |g.passes|)
  {
    forall t :: 0 < t < |group| ==> FlagsOf(g.passes[group[t]]) <= FlagsOf(g.passes[group[0]])
  }

  lemma {:induction false} AllWithin(g: Graph, group: seq<nat>, s: set<Flag>)
    requires Bounded(group, |g.passes|)
    ensures AllFlags(g, group) <= s <==> forall t :: 0 <= t < |group| ==> FlagsOf(g.passes[group[t]]) <= s
  {
    hide FlagsOf;
    if group != [] {
      AllWithin(g, group[1..], s);
      var rest := group[1..];
      assert forall t :: 0 <= t < |rest| ==> rest[t] == group[t + 1];
      assert forall t :: 0 < t < |group| ==> group[t] == rest[t - 1];
    }
  }

  /** A folded pass has its first pass's flags: all of them survive exactly when the later passes add none. */
  lemma FoldedFlags(g0: Graph, g: Graph, group: seq<nat>, j: nat)
    requires j < |g.passes| && Folds(g0, g, group, j)
    ensures FlagsOf(g.passes[j]) == FlagsOf(g0.passes[group[0]])
    ensures FlagsOf(g.passes[j]) == AllFlags(g0, group) <==> LaterWithinFirst(g0, group)
  {
    AllWithin(g0, group, FlagsOf(g0.passes[group[0]]));
    hide FlagsOf;
    assert FlagsOf(g0.passes[group[0]]) <= AllFlags(g0, group);
  }

  /** One merge loses a flag exactly when the second pass has one that the first has not. */
  lemma MergeLosesFlags(g: Graph, a: nat, b: nat, j: nat)
    requires Mergeable(g, a, b) && WellFormed(g)
    requires j < |MergeGroups(g, a, b)| && MergeGroups(g, a, b)[j] == [a, b]
    ensures |Merge(g, a, b).passes| == |MergeGroups(g, a, b)|
    ensures FlagsOf(Merge(g, a, b).passes[j]) == FlagsOf(g.passes[a]) + FlagsOf(g.passes[b])
       <==> FlagsOf(g.passes[b]) <= FlagsOf(g.passes[a])
  {
    MergeDescends(g, a, b);
    FoldedFlags(g, Merge(g, a, b), [a, b], j);
    hide FlagsOf;
  }

  /**
    A pass of the optimized frame has the flags, the state profile and the
    load/store policy of its first old pass; no flag of the others is lost exactly
    when they have none it has not.
   */
  lemma CoalescedFlags(g: Graph, j: nat)
    requires WellFormed(g) && j < |Coalesced(g).passes|
    ensures j < |Origins(g)| && Origins(g)[j] != [] && Bounded(Origins(g)[j], |g.passes|)
    ensures Inherits(g.passes[Origins(g)[j][0]], Coalesced(g).passes[j])
    ensures FlagsOf(Coalesced(g).passes[j]) == AllFlags(g, Origins(g)[j]) <==> LaterWithinFirst(g, Origins(g)[j])
  {
    CoalescedDescends(g);
    assert Folds(g, Coalesced(g), Origins(g)[j], j);
    FoldedFlags(g, Coalesced(g), Origins(g)[j], j);
  }

  // ----- an instance that loses a flag -----

  const TARGETS := AttachmentSet([9], 0, 1, 1)

  function QueryPass(query: bool): PassNode {
    PassNode(Render, TARGETS, Range(0, 0), Range(0, 0), 0, 0, PassFlags(false, query, false, false, false, false))
  }

  /** Two passes on one target; an occlusion query runs in the second. */
  const QUERIED := Graph([QueryPass(false), QueryPass(true)], [], [], [], [])

  /** The optimized frame is one pass that no longer says so. */
  lemma OcclusionQueryLost()
    ensures WellFormed(QUERIED)
    ensures |Coalesced(QUERIED).passes| == 1
    ensures QUERIED.passes[1].flags.containsOcclusionQuery && !Coalesced(QUERIED).passes[0].flags.containsOcclusionQuery
  {
    assert FirstMergeable(QUERIED, 0, 1);
    CoalescedStep(QUERIED, 0, 1);
    MergeShrinks(QUERIED, 0, 1);
    CoalescedStop(Merge(QUERIED, 0, 1));
    CoalescedFlags(QUERIED, 0);
    OriginsStep(QUERIED, 0, 1);
    OriginsStop(Merge(QUERIED, 0, 1));
    QueriedGroups();
  }

  lemma QueriedGroups()
    ensures MergeGroups(QUERIED, 0, 1) == [[0, 1]]
  {
    assert Movers(QUERIED, 0, 1, Before, 1) == [] && Movers(QUERIED, 0, 1, After, 1) == [];
    assert Iota(0, 0) == [] && Iota(2, 2) == [];
  }
}
