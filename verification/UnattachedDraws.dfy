/**
  A command stream whose optimized frame draws out of order: two draws without
  attachments are merged after the first has been moved past by the second.
 */
module UnattachedDraws {
  import opened Sequences
  import opened FrameGraphs
  import opened Coalescing
  import opened Provenance
  import opened Fixpoint
  import opened Hazards
  import opened FrameBuilder
  import opened SubmissionOrder

  const A: nat := 1
  const S: nat := 2
  const X: nat := 3

  function On(handle: nat): AttachmentSet {
    AttachmentSet([handle, 0, 0, 0, 0, 0, 0, 0], 0, 1, 1)
  }

  function DrawOn(targets: AttachmentSet, textures: seq<nat>, index: nat): SourceCommand {
    DrawSource(true, targets, 0, textures, index, 1)
  }

  /** Draws on A, on nothing, on S, on nothing reading X, on X, and on A reading X. */
  const STREAM: seq<SourceCommand> := [
    DrawOn(On(A), [], 0), DrawOn(NO_TARGETS, [], 1), DrawOn(On(S), [], 2),
    DrawOn(NO_TARGETS, [X], 3), DrawOn(On(X), [], 4), DrawOn(On(A), [X], 5)]

  // ----- the built graph -----

  function TargetsAt(i: nat): AttachmentSet {
    if i < |STREAM| then STREAM[i].targets else NO_TARGETS
  }

  function PassAt(i: nat): PassNode {
    PassNode(Render, TargetsAt(i), Range(i, 1), Range(i, 1), 0, 0, NO_FLAGS)
  }

  /** k passes of one draw each, with these resources and edges. */
  function Frame(k: nat, resources: seq<Resource>, edges: seq<Edge>): Graph {
    Graph(
      seq(k, i requires 0 <= i < k => PassAt(i)), resources, edges,
      seq(k, i requires 0 <= i < k => DrawRef(i, i, 1)), seq(k, i requires 0 <= i < k => CommandRef(i, DrawRun)))
  }

  /** The newest pass opened, not yet drawn in. */
  function Opened(k: nat, resources: seq<Resource>, edges: seq<Edge>): Graph {
    OpenPass(Frame(k, resources, edges), Render, TargetsAt(k), 0)
  }

  lemma OpenedAttached(g: Graph, handle: nat)
    requires g.passes != [] && handle != 0
    ensures Attached(g, On(handle), Identity(), Write, Write) == Noted(g, handle, Write, FRAGMENT)
    ensures Attached(g, NO_TARGETS, Identity(), Write, Write) == g
  {
    assert On(handle).color[..1] == [handle];
    NotedOne(g, handle, Write);
  }

  lemma NotedOne(g: Graph, handle: nat, kind: AccessKind)
    requires g.passes != [] && handle != 0
    ensures NotedAll(g, [handle], Identity(), kind, FRAGMENT) == Noted(g, handle, kind, FRAGMENT)
    ensures NotedAll(g, [], Identity(), kind, FRAGMENT) == g
  {
    assert [handle][..0] == [];
  }

  lemma NotedFresh(g: Graph, handle: nat, kind: AccessKind)
    requires g.passes != [] && handle != 0 && forall k :: 0 <= k < |g.resources| ==> g.resources[k].handle != handle
    ensures Noted(g, handle, kind, FRAGMENT)
         == g.(resources := g.resources + [Resource(handle, [Access(|g.passes| - 1, kind, FRAGMENT)], false)])
  {
    assert FindResource(g.resources, handle) == |g.resources|;
    var none: seq<Access> := [];
    assert LogOf(g, handle) == none;
    assert HazardEdges(g.edges, none, |g.passes| - 1, kind, handle) == g.edges;
    assert none + [Access(|g.passes| - 1, kind, FRAGMENT)] == [Access(|g.passes| - 1, kind, FRAGMENT)];
  }

  lemma NotedKnown(g: Graph, i: nat, handle: nat, kind: AccessKind)
    requires g.passes != [] && handle != 0 && i < |g.resources|
    requires g.resources[i].handle == handle && !g.resources[i].readbackSeen
    requires forall k :: 0 <= k < i ==> g.resources[k].handle != handle
    ensures
      var log := g.resources[i].accesses;
      Noted(g, handle, kind, FRAGMENT) == g.(
        edges := HazardEdges(g.edges, log, |g.passes| - 1, kind, handle),
        resources := g.resources[i := Resource(handle, log + [Access(|g.passes| - 1, kind, FRAGMENT)], false)])
  {
    FindIsFirst(g.resources, handle, i);
  }

  /** One draw of the stream, once its accesses are recorded. */
  lemma FrameGrows(s: BuilderState, k: nat, resources: seq<Resource>, edges: seq<Edge>, recorded: Graph)
    requires k < |STREAM| && s.graph == Frame(k, resources, edges) && s.open == (k > 0) && s.current == (if k > 0 then k - 1 else 0)
    requires k > 0 ==> TargetsAt(k - 1) != TargetsAt(k)
    requires Opened(k, resources, edges).passes != []
    requires recorded == NotedAll(
      Attached(Opened(k, resources, edges), STREAM[k].targets, Identity(), Write, Write),
      STREAM[k].textures, Identity(), Read, FRAGMENT)
    requires recorded == Opened(k, resources, edges).(resources := recorded.resources, edges := recorded.edges)
    ensures CommandFits(STREAM[k]) && StateFits(s)
    ensures BuildStep(s, Identity(), k, STREAM[k]) == BuilderState(Frame(k + 1, recorded.resources, recorded.edges), k, true)
  {
    FrameShape(k, recorded);
    OpensHere(s, k);
    hide Attached, NotedAll, Frame, Opened, EmitDraw, EmitCommand, DrawPass;
    assert BuildDraw(s, Identity(), k, STREAM[k])
        == BuilderState(EmitCommand(EmitDraw(recorded, DrawRef(k, k, 1)), CommandRef(k, DrawRun)), k, true);
  }

  /** A draw whose targets differ from those of the open pass opens one. */
  lemma OpensHere(s: BuilderState, k: nat)
    requires k < |STREAM| && s.open == (k > 0) && s.current == (if k > 0 then k - 1 else 0)
    requires k > 0 ==> TargetsAt(k - 1) != TargetsAt(k)
    requires s.graph == Frame(k, s.graph.resources, s.graph.edges)
    ensures CommandFits(STREAM[k]) && StateFits(s)
    ensures DrawPass(s, Identity(), STREAM[k])
         == Attached(Opened(k, s.graph.resources, s.graph.edges), STREAM[k].targets, Identity(), Write, Write)
  {
    hide Attached;
  }

  lemma FrameShape(k: nat, recorded: Graph)
    requires k < |STREAM|
    requires recorded == Opened(k, recorded.resources, recorded.edges)
    ensures recorded.passes != []
    ensures EmitCommand(EmitDraw(recorded, DrawRef(k, k, 1)), CommandRef(k, DrawRun))
         == Frame(k + 1, recorded.resources, recorded.edges)
  {
    var done := EmitCommand(EmitDraw(recorded, DrawRef(k, k, 1)), CommandRef(k, DrawRun));
    var next := Frame(k + 1, recorded.resources, recorded.edges);
    hide STREAM;
    assert done.passes == next.passes;
    assert done.draws == next.draws;
    assert done.commands == next.commands;
  }

  // ----- the resources and edges, draw by draw -----

  function ResourceOf(handle: nat, accesses: seq<Access>): Resource {
    Resource(handle, accesses, false)
  }

  function Wrote(pass: nat): Access {
    Access(pass, Write, FRAGMENT)
  }

  function Looked(pass: nat): Access {
    Access(pass, Read, FRAGMENT)
  }

  const A_ONCE := ResourceOf(A, [Wrote(0)])
  const S_ONCE := ResourceOf(S, [Wrote(2)])
  const X_READ := ResourceOf(X, [Looked(3)])
  const X_WRITTEN := ResourceOf(X, [Looked(3), Wrote(4)])
  const A_TWICE := ResourceOf(A, [Wrote(0), Wrote(5)])
  const X_LAST := ResourceOf(X, [Looked(3), Wrote(4), Looked(5)])

  const EDGES := [Edge(3, 4, X), Edge(0, 5, A), Edge(4, 5, X)]

  /** The frame the builder makes of the stream. */
  const FRAME := Frame(6, [A_TWICE, S_ONCE, X_LAST], EDGES)

  function StateAt(k: nat, resources: seq<Resource>, edges: seq<Edge>): BuilderState {
    BuilderState(Frame(k, resources, edges), if k > 0 then k - 1 else 0, k > 0)
  }

  lemma BuiltNext(k: nat)
    requires k < |STREAM| && StreamFits(STREAM[..k + 1])
    ensures StreamFits(STREAM[..k])
    ensures Built(STREAM[..k + 1], Identity()) == BuildStep(Built(STREAM[..k], Identity()), Identity(), k, STREAM[k])
  {
    assert STREAM[..k + 1][..k] == STREAM[..k];
  }

  lemma Fits(k: nat)
    requires k <= |STREAM|
    ensures StreamFits(STREAM[..k])
  {
  }

  /** A draw on a fresh target without textures. */
  lemma StepFresh(k: nat, resources: seq<Resource>, edges: seq<Edge>, handle: nat)
    requires k < |STREAM| && STREAM[k] == DrawOn(On(handle), [], k) && handle != 0
    requires k > 0 ==> TargetsAt(k - 1) != TargetsAt(k)
    requires forall i :: 0 <= i < |resources| ==> resources[i].handle != handle
    ensures CommandFits(STREAM[k]) && StateFits(StateAt(k, resources, edges))
    ensures BuildStep(StateAt(k, resources, edges), Identity(), k, STREAM[k])
         == StateAt(k + 1, resources + [ResourceOf(handle, [Wrote(k)])], edges)
  {
    var g := Opened(k, resources, edges);
    hide NotedAll, Attached, Noted, BuildStep;
    OpenedAttached(g, handle);
    NotedFresh(g, handle, Write);
    var recorded := g.(resources := resources + [ResourceOf(handle, [Wrote(k)])]);
    NotedOne(recorded, 1, Read);
    FrameGrows(StateAt(k, resources, edges), k, resources, edges, recorded);
  }

  /** A draw on nothing that reads nothing. */
  lemma StepNothing(resources: seq<Resource>, edges: seq<Edge>)
    ensures CommandFits(STREAM[1]) && StateFits(StateAt(1, resources, edges))
    ensures BuildStep(StateAt(1, resources, edges), Identity(), 1, STREAM[1]) == StateAt(2, resources, edges)
  {
    var g := Opened(1, resources, edges);
    hide NotedAll, Attached, Noted, BuildStep;
    OpenedAttached(g, 1);
    NotedOne(g, 1, Read);
    FrameGrows(StateAt(1, resources, edges), 1, resources, edges, g);
  }

  /** The draw on nothing that reads X. */
  lemma StepReads(resources: seq<Resource>, edges: seq<Edge>)
    requires forall i :: 0 <= i < |resources| ==> resources[i].handle != X
    ensures CommandFits(STREAM[3]) && StateFits(StateAt(3, resources, edges))
    ensures BuildStep(StateAt(3, resources, edges), Identity(), 3, STREAM[3]) == StateAt(4, resources + [X_READ], edges)
  {
    var g := Opened(3, resources, edges);
    hide NotedAll, Attached, Noted, BuildStep;
    OpenedAttached(g, 1);
    NotedOne(g, X, Read);
    NotedFresh(g, X, Read);
    FrameGrows(StateAt(3, resources, edges), 3, resources, edges, g.(resources := resources + [X_READ]));
  }

  lemma EdgesOf()
    ensures HazardEdges([], [Looked(3)], 4, Write, X) == [Edge(3, 4, X)]
    ensures HazardEdges([Edge(3, 4, X)], [Wrote(0)], 5, Write, A) == [Edge(3, 4, X), Edge(0, 5, A)]
    ensures HazardEdges([Edge(3, 4, X), Edge(0, 5, A)], [Looked(3), Wrote(4)], 5, Read, X) == EDGES
  {
    assert LastWrite([Looked(3)], 1) == -1;
    assert LastWrite([Wrote(0)], 1) == 0;
    assert LastWrite([Looked(3), Wrote(4)], 2) == 1;
  }

  /** The draw that writes X. */
  lemma StepWrites()
    ensures CommandFits(STREAM[4]) && StateFits(StateAt(4, [A_ONCE, S_ONCE, X_READ], []))
    ensures BuildStep(StateAt(4, [A_ONCE, S_ONCE, X_READ], []), Identity(), 4, STREAM[4])
         == StateAt(5, [A_ONCE, S_ONCE, X_WRITTEN], [Edge(3, 4, X)])
  {
    var g := Opened(4, [A_ONCE, S_ONCE, X_READ], []);
    hide NotedAll, Attached, Noted, BuildStep;
    EdgesOf();
    hide HazardEdges;
    OpenedAttached(g, X);
    NotedKnown(g, 2, X, Write);
    assert [Looked(3)] + [Wrote(4)] == [Looked(3), Wrote(4)];
    var recorded := g.(resources := [A_ONCE, S_ONCE, X_WRITTEN], edges := [Edge(3, 4, X)]);
    assert g.resources[2 := X_WRITTEN] == recorded.resources;
    NotedOne(recorded, 1, Read);
    FrameGrows(StateAt(4, [A_ONCE, S_ONCE, X_READ], []), 4, [A_ONCE, S_ONCE, X_READ], [], recorded);
  }

  /** The last draw: on A again, reading X. */
  lemma StepLast()
    ensures CommandFits(STREAM[5]) && StateFits(StateAt(5, [A_ONCE, S_ONCE, X_WRITTEN], [Edge(3, 4, X)]))
    ensures BuildStep(StateAt(5, [A_ONCE, S_ONCE, X_WRITTEN], [Edge(3, 4, X)]), Identity(), 5, STREAM[5])
         == BuilderState(FRAME, 5, true)
  {
    var g := Opened(5, [A_ONCE, S_ONCE, X_WRITTEN], [Edge(3, 4, X)]);
    var written := g.(resources := [A_TWICE, S_ONCE, X_WRITTEN], edges := [Edge(3, 4, X), Edge(0, 5, A)]);
    var recorded := g.(resources := [A_TWICE, S_ONCE, X_LAST], edges := EDGES);
    hide NotedAll, Attached, Noted, BuildStep;
    OpenedAttached(g, A);
    LastWrites(g);
    NotedOne(written, X, Read);
    LastReads(written);
    FrameGrows(StateAt(5, [A_ONCE, S_ONCE, X_WRITTEN], [Edge(3, 4, X)]), 5, [A_ONCE, S_ONCE, X_WRITTEN], [Edge(3, 4, X)], recorded);
  }

  lemma LastWrites(g: Graph)
    requires |g.passes| == 6 && g.resources == [A_ONCE, S_ONCE, X_WRITTEN] && g.edges == [Edge(3, 4, X)]
    ensures Noted(g, A, Write, FRAGMENT)
         == g.(resources := [A_TWICE, S_ONCE, X_WRITTEN], edges := [Edge(3, 4, X), Edge(0, 5, A)])
  {
    EdgesOf();
    hide HazardEdges, Noted;
    NotedKnown(g, 0, A, Write);
    assert [Wrote(0)] + [Wrote(5)] == [Wrote(0), Wrote(5)];
    assert g.resources[0 := A_TWICE] == [A_TWICE, S_ONCE, X_WRITTEN];
  }

  lemma LastReads(g: Graph)
    requires |g.passes| == 6 && g.resources == [A_TWICE, S_ONCE, X_WRITTEN] && g.edges == [Edge(3, 4, X), Edge(0, 5, A)]
    ensures Noted(g, X, Read, FRAGMENT) == g.(resources := [A_TWICE, S_ONCE, X_LAST], edges := EDGES)
  {
    EdgesOf();
    hide HazardEdges, Noted;
    NotedKnown(g, 2, X, Read);
    assert [Looked(3), Wrote(4)] + [Looked(5)] == [Looked(3), Wrote(4), Looked(5)];
    assert g.resources[2 := X_LAST] == [A_TWICE, S_ONCE, X_LAST];
  }

  /** The builder after k draws. */
  ghost predicate BuiltIs(k: nat, state: BuilderState) {
    k <= |STREAM| && StreamFits(STREAM[..k]) && Built(STREAM[..k], Identity()) == state
  }

  lemma BuiltThen(k: nat, state: BuilderState, next: BuilderState)
    requires k < |STREAM| && BuiltIs(k, state) && CommandFits(STREAM[k]) && StateFits(state)
    requires BuildStep(state, Identity(), k, STREAM[k]) == next
    ensures BuiltIs(k + 1, next)
  {
    Fits(k + 1);
    BuiltNext(k);
    hide Built, BuildStep, STREAM;
  }

  lemma BuiltNone()
    ensures BuiltIs(0, StateAt(0, [], []))
  {
    var none: seq<SourceCommand> := [];
    assert STREAM[..0] == none;
    var state := StateAt(0, [], []);
    assert state.graph == EMPTY_GRAPH;
  }

  lemma BuiltThree()
    ensures BuiltIs(3, StateAt(3, [A_ONCE, S_ONCE], []))
  {
    hide BuiltIs, BuildStep, StateAt, Built;
    BuiltNone();
    StepFresh(0, [], [], A);
    var none: seq<Resource> := [];
    assert none + [A_ONCE] == [A_ONCE] && [A_ONCE] + [S_ONCE] == [A_ONCE, S_ONCE];
    BuiltThen(0, StateAt(0, [], []), StateAt(1, [A_ONCE], []));
    StepNothing([A_ONCE], []);
    BuiltThen(1, StateAt(1, [A_ONCE], []), StateAt(2, [A_ONCE], []));
    StepFresh(2, [A_ONCE], [], S);
    BuiltThen(2, StateAt(2, [A_ONCE], []), StateAt(3, [A_ONCE, S_ONCE], []));
  }

  lemma BuiltSix()
    ensures BuiltIs(6, BuilderState(FRAME, 5, true))
  {
    hide BuiltIs, BuildStep, StateAt, Built, FRAME;
    BuiltThree();
    StepReads([A_ONCE, S_ONCE], []);
    assert [A_ONCE, S_ONCE] + [X_READ] == [A_ONCE, S_ONCE, X_READ];
    BuiltThen(3, StateAt(3, [A_ONCE, S_ONCE], []), StateAt(4, [A_ONCE, S_ONCE, X_READ], []));
    StepWrites();
    BuiltThen(4, StateAt(4, [A_ONCE, S_ONCE, X_READ], []), StateAt(5, [A_ONCE, S_ONCE, X_WRITTEN], [Edge(3, 4, X)]));
    StepLast();
    BuiltThen(5, StateAt(5, [A_ONCE, S_ONCE, X_WRITTEN], [Edge(3, 4, X)]), BuilderState(FRAME, 5, true));
  }

  /** The builder makes that frame of the stream. */
  lemma BuiltFrame()
    ensures StreamFits(STREAM) && Built(STREAM, Identity()).graph == FRAME
  {
    BuiltSix();
    assert STREAM[..6] == STREAM;
  }

  // ----- what merging does to it -----

  lemma FramePaths()
    ensures |FRAME.passes| == 6 && WellFormed(FRAME)
    ensures forall u: nat, v: nat :: HasEdge(FRAME, u, v) <==> (u == 3 && v == 4) || (u == 0 && v == 5) || (u == 4 && v == 5)
  {
    assert EDGES[0] == Edge(3, 4, X) && EDGES[1] == Edge(0, 5, A) && EDGES[2] == Edge(4, 5, X);
    assert Edge(3, 4, X) in FRAME.edges && Edge(0, 5, A) in FRAME.edges && Edge(4, 5, X) in FRAME.edges;
  }

  /** Between the two draws on A, what feeds the second goes before and the rest after. */
  lemma FrameClasses()
    ensures Classify(FRAME, 0, 5, 1) == After && Classify(FRAME, 0, 5, 2) == After
    ensures Classify(FRAME, 0, 5, 3) == Before && Classify(FRAME, 0, 5, 4) == Before
  {
    var g := FRAME;
    FramePaths();
    hide FRAME;
    ReachesEdge(g, 4, 5);
    ReachesEdge(g, 3, 4);
    ReachesThenEdge(g, 3, 4, 5);
    forall x: nat, y: nat | (x == 0 || x == 5) && 1 <= y <= 4 ensures !Reaches(g, x, y) {
      StaysIn(g, {0, 5}, x, y);
    }
    forall x: nat, y: nat | (x == 1 || x == 2) && (y == 0 || y == 5) ensures !Reaches(g, x, y) {
      StaysIn(g, {x}, x, y);
    }
    hide Reaches, HasEdge;
  }

  lemma StaysIn(g: Graph, s: set<nat>, x: nat, y: nat)
    requires x in s && y !in s && forall u: nat, v: nat :: u in s && HasEdge(g, u, v) ==> v in s
    ensures !Reaches(g, x, y)
  {
    if Reaches(g, x, y) {
      var p :| PathBetween(g, p, x, y);
      ClosedUnderReaches(g, s, p);
    }
  }

  lemma FrameRows()
    ensures RangesValid(FRAME)
    ensures forall i :: 0 <= i < 6 ==> PassCommands(FRAME)[i] == [CommandRef(i, DrawRun)] && PassDraws(FRAME)[i] == [DrawRef(i, i, 1)]
    ensures forall i: nat :: i < 6 ==> LiveRender(FRAME.passes[i]) && FRAME.passes[i].targets == TargetsAt(i)
  {
    forall i: nat | i < 6
      ensures PassCommands(FRAME)[i] == [CommandRef(i, DrawRun)] && PassDraws(FRAME)[i] == [DrawRef(i, i, 1)]
    {
      assert FRAME.commands[i..i + 1] == [CommandRef(i, DrawRun)];
      assert FRAME.draws[i..i + 1] == [DrawRef(i, i, 1)];
    }
  }

  lemma FrameMoves()
    ensures Movers(FRAME, 0, 5, Before, 5) == [3, 4] && Movers(FRAME, 0, 5, After, 5) == [1, 2]
  {
    FrameClasses();
    hide Classify;
    assert Movers(FRAME, 0, 5, Before, 1) == [] && Movers(FRAME, 0, 5, After, 1) == [];
    assert Movers(FRAME, 0, 5, Before, 2) == [] && Movers(FRAME, 0, 5, After, 2) == [1];
    assert Movers(FRAME, 0, 5, Before, 3) == [] && Movers(FRAME, 0, 5, After, 3) == [1, 2];
    assert Movers(FRAME, 0, 5, Before, 4) == [3] && Movers(FRAME, 0, 5, After, 4) == [1, 2];
  }

  lemma FirstMerge()
    ensures FirstMergeable(FRAME, 0, 5)
    ensures MergeGroups(FRAME, 0, 5) == [[3], [4], [0, 5], [1], [2]]
  {
    FramePaths();
    FrameClasses();
    FrameMoves();
    FrameRows();
    hide FRAME, Classify, Movers;
    assert Singles([3, 4]) == [[3], [4]] && Singles([1, 2]) == [[1], [2]];
    assert Iota(0, 0) == [] && Iota(6, 6) == [];
    var none: seq<seq<nat>> := [];
    assert Singles(Iota(0, 0)) == none && Singles(Iota(6, 6)) == none;
    assert forall b: nat :: 0 < b < 5 ==> FRAME.passes[b].targets != FRAME.passes[0].targets;
    assert forall x: nat :: 0 < x < 5 ==> Movable(FRAME, 0, 5, x);
    hide Movable, MergeGroups;
    assert Mergeable(FRAME, 0, 5);
  }

  /** The two draws on nothing, 3 and 1, are now passes 0 and 3, with nothing to hold them apart. */
  lemma SecondMerge()
    ensures WellFormed(FRAME) && FirstMergeable(FRAME, 0, 5)
    ensures FirstMergeable(Merge(FRAME, 0, 5), 0, 3)
  {
    var h := Merge(FRAME, 0, 5);
    FramePaths();
    FirstMerge();
    MergedPasses();
    NothingFeedsThird();
    MergeForward(FRAME, 0, 5);
    hide Merge, MergeGroups, FRAME, DrawOnly;
    forall x: nat | 0 < x < 3 ensures Movable(h, 0, 3, x) {
      if Reaches(h, x, 0) {
        ReachesForward(h, x, 0);
      }
    }
    assert Mergeable(h, 0, 3);
  }

  lemma MergedPasses()
    ensures FirstMergeable(FRAME, 0, 5)
    ensures
      var h := Merge(FRAME, 0, 5);
      && |h.passes| == 5 && RangesValid(h)
      && (forall i: nat :: i < 5 ==> LiveRender(h.passes[i]) && DrawOnly(PassCommands(h)[i]))
      && h.passes[0].targets == h.passes[3].targets == NO_TARGETS
      && h.passes[1].targets == On(X) && h.passes[2].targets == On(A)
  {
    var g, groups := FRAME, MergeGroups(FRAME, 0, 5);
    FirstMerge();
    FrameRows();
    MergeGroupsValid(g, 0, 5);
    RebuildPacked(g, groups);
    hide FRAME, MergeGroups, FirstMergeable;
    forall i: nat | i < 5
      ensures |Rebuild(g, groups).passes| == 5
      ensures Inherits(g.passes[groups[i][0]], Rebuild(g, groups).passes[i])
      ensures DrawOnly(PassCommands(Rebuild(g, groups))[i])
    {
      RebuiltRow(g, groups, i);
      hide Rebuild;
      DrawOnlyRows(PassCommands(g), groups[i]);
    }
    RebuiltRow(g, groups, 0);
  }

  lemma {:induction false} DrawOnlyRows(rows: seq<seq<CommandRef>>, idx: seq<nat>)
    requires Bounded(idx, |rows|) && forall t :: 0 <= t < |idx| ==> DrawOnly(rows[idx[t]])
    ensures DrawOnly(ConcatMap(rows, idx))
  {
    if idx != [] {
      DrawOnlyRows(rows, idx[1..]);
    }
  }

  /** Old pass 1, now pass 3, has no edge into it. */
  lemma NothingFeedsThird()
    ensures FirstMergeable(FRAME, 0, 5)
    ensures
      var h := Merge(FRAME, 0, 5);
      |h.passes| == 5 && !Reaches(h, 1, 3) && !Reaches(h, 2, 3)
  {
    var g, h := FRAME, Merge(FRAME, 0, 5);
    FramePaths();
    FirstMerge();
    MergeShrinks(g, 0, 5);
    MergeGroupsFacts(g, 0, 5);
    forall u: nat, v: nat | HasEdge(h, u, v) ensures v in {0, 1, 2, 4} {
      NoEdgeToThird(u, v);
    }
    hide FRAME, Merge, MergeGroups, HasEdge, Reaches;
    StaysIn(h, {0, 1, 2, 4}, 1, 3);
    StaysIn(h, {0, 1, 2, 4}, 2, 3);
  }

  lemma NoEdgeToThird(u: nat, v: nat)
    requires HasEdge(Merge(FRAME, 0, 5), u, v)
    ensures v < 5 && v != 3
  {
    FramePaths();
    FirstMerge();
    MergeGroupsFacts(FRAME, 0, 5);
    var p, q := EdgeOrigin(FRAME, MergeGroups(FRAME, 0, 5), u, v);
  }

  // ----- the result -----

  /** Passes 1 and 3 both draw on nothing, cross once and end in one pass, 3 before 1. */
  lemma UnattachedCrossOnce()
    ensures WellFormed(FRAME) && Crossings(FRAME, 1, 3) == 1
    ensures Ahead(FinalOrder(FRAME), 3, 1)
  {
    var g, h := FRAME, Merge(FRAME, 0, 5);
    SecondMerge();
    FirstMerge();
    FrameClasses();
    FramePaths();
    MergedPasses();
    hide FRAME, Merge, MergeGroups, FirstMergeable, Crossings, NewIndex, Ahead, FinalOrder, Classify;
    IndexAfterFirst();
    CrossingsStep(g, 0, 5, 1, 3);
    SecondTogether();
    CrossingsStep(h, 0, 3, 0, 3);
    InvertedIffCrossedOddly(g, 1, 3);
  }

  lemma IndexAfterFirst()
    ensures FirstMergeable(FRAME, 0, 5) && WellFormed(FRAME)
    ensures NewIndex(FRAME, 0, 5, 1) == 3 && NewIndex(FRAME, 0, 5, 3) == 0
  {
    FirstMerge();
    FramePaths();
    hide FRAME, NewIndex, MergeGroups;
    NewIndexRight(FRAME, 0, 5, 1);
    NewIndexRight(FRAME, 0, 5, 3);
  }

  lemma SecondTogether()
    ensures WellFormed(FRAME) && FirstMergeable(FRAME, 0, 5) && WellFormed(Merge(FRAME, 0, 5))
    ensures FirstMergeable(Merge(FRAME, 0, 5), 0, 3)
    ensures NewIndex(Merge(FRAME, 0, 5), 0, 3, 0) == NewIndex(Merge(FRAME, 0, 5), 0, 3, 3)
  {
    SecondMerge();
    MergedOrigins(FRAME, 0, 5);
    hide FRAME, Merge, MergeGroups, NewIndex;
    PairTogether(Merge(FRAME, 0, 5), 0, 3);
  }

  lemma EndTogether()
    ensures WellFormed(FRAME) && Together(FRAME, 1, 3)
  {
    var h := Merge(FRAME, 0, 5);
    SecondTogether();
    IndexAfterFirst();
    MergedPasses();
    FramePaths();
    MergedOrigins(h, 0, 3);
    hide FRAME, Merge, MergeGroups, NewIndex, FirstMergeable, Together;
    TogetherStep(h, 0, 3, 3, 0);
    TogetherStep(FRAME, 0, 5, 1, 3);
  }

  /**
    A stream the builder accepts, whose hazards are complete, and whose optimized
    frame draws record 3 before record 1 in one pass: two passes without an
    attachment the resolver knows are joined by no hazard.
   */
  lemma UnattachedDrawsOutOfOrder()
    ensures StreamFits(STREAM) && Built(STREAM, Identity()).graph == FRAME
    ensures WellFormed(FRAME) && HazardComplete(FRAME) && !AllAttached(FRAME, Identity())
    ensures exists j: nat :: j < |Origins(FRAME)| && Ahead(Origins(FRAME)[j], 3, 1)
    ensures !DrawsInOrder(FRAME)
  {
    BuiltLegally();
    NoneAttached();
    FramePaths();
    hide FRAME, Built, HazardComplete, AllAttached, DrawsInOrder, Origins, Ahead;
    DrawnOutOfOrder();
  }

  lemma BuiltLegally()
    ensures StreamFits(STREAM) && Built(STREAM, Identity()).graph == FRAME && HazardComplete(FRAME)
  {
    BuiltFrame();
    BuiltConsistent(STREAM, Identity());
    hide FRAME, Built, HazardComplete, Tidy, TargetsWritten, HandlesDistinct, LogInside;
  }

  lemma DrawnOutOfOrder()
    ensures WellFormed(FRAME) && !DrawsInOrder(FRAME)
    ensures exists j: nat :: j < |Origins(FRAME)| && Ahead(Origins(FRAME)[j], 3, 1)
  {
    FrameRows();
    FramePaths();
    hide FRAME, Crossings, Ahead, FinalOrder, Origins;
    EndTogether();
    UnattachedCrossOnce();
    var j: nat :| j < |Origins(FRAME)| && 1 in Origins(FRAME)[j] && 3 in Origins(FRAME)[j];
    assert DrawnTogether(FRAME, j, 1, 3);
    OrderInPass(FRAME, j, 1, 3);
    DrawsInOrderIffCrossedEvenly(FRAME);
  }

  lemma OrderInPass(g: Graph, j: nat, u: nat, v: nat)
    requires WellFormed(g) && j < |Origins(g)| && u in Origins(g)[j] && v in Origins(g)[j] && u < v < |g.passes|
    ensures Ahead(FinalOrder(g), v, u) ==> Ahead(Origins(g)[j], v, u)
  {
    hide Ahead;
    TogetherAsInFrame(g, j, u, v);
    FinalOrderDistinct(g);
    AheadOneWay(FinalOrder(g), u, v);
    DescendsPermutes(g, Coalesced(g), Origins(g));
    PermutationFacts(Flatten(Origins(g)), |g.passes|);
    GroupDistinct(Origins(g), j);
    AheadOneWay(Origins(g)[j], u, v);
  }

  lemma NoneAttached()
    ensures !AllAttached(FRAME, Identity())
  {
    assert FRAME.passes[1].kind.Render? && FRAME.passes[1].targets == NO_TARGETS;
    assert forall handle: nat :: !IsTarget(NO_TARGETS, handle);
  }
}
