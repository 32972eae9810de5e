/**
  What the access logs of a built frame mean: a pass is logged as reading or writing
  a resource exactly when a command it holds does. So commands that depend on each
  other land in one pass or in passes joined by a path, and the optimized frame
  replays them in stream order.
 */
module RecordedAccesses {
  import opened Sequences
  import opened FrameGraphs
  import opened Coalescing
  import opened Provenance
  import opened Execution
  import opened Fixpoint
  import opened Hazards
  import opened FrameBuilder
  import opened ReplayPlans
  import opened BuiltPasses
  import opened SubmissionOrder

  // ----- what a command reads and writes -----

  /** The node that a nonzero handle stands for. */
  predicate Names(alias: AliasResolver, handle: nat, node: nat) {
    handle != 0 && node != 0 && alias(handle) == node
  }

  predicate NamesColor(alias: AliasResolver, t: AttachmentSet, node: nat) {
    exists i :: 0 <= i < t.colorCount && i < |t.color| && Names(alias, t.color[i], node)
  }

  /** Draws read their textures, partial clears what they keep, and copies their source. */
  predicate CommandReads(c: SourceCommand, alias: AliasResolver, node: nat) {
    match c
    case DrawSource(present, _, _, textures, _, _) => present && node != 0 && node in textures
    case ClearSource(present, t, partial, coversDepth) =>
      present && ((partial && NamesColor(alias, t, node)) || ((partial || !coversDepth) && Names(alias, t.depth, node)))
    case PresentSource(source) => Names(alias, source, node)
    case CopySource(present, source, _) => present && Names(alias, source, node)
    case StretchSource(present, source, _) => present && Names(alias, source, node)
    case FillSource(_, _) => false
    case ResolveSource(present, multisampled, _) => present && Names(alias, multisampled, node)
    case MipmapSource(present, texture) => present && node != 0 && texture == node
    case ReadbackSource(present, source) => present && Names(alias, source, node)
  }

  /** Draws and clears write their attachments, copies, fills and resolves their destination. */
  predicate CommandWrites(c: SourceCommand, alias: AliasResolver, node: nat) {
    match c
    case DrawSource(present, t, _, _, _, _) => present && (NamesColor(alias, t, node) || Names(alias, t.depth, node))
    case ClearSource(present, t, _, _) => present && (NamesColor(alias, t, node) || Names(alias, t.depth, node))
    case PresentSource(_) => false
    case CopySource(present, _, dest) => present && Names(alias, dest, node)
    case StretchSource(present, _, dest) => present && Names(alias, dest, node)
    case FillSource(present, dest) => present && Names(alias, dest, node)
    case ResolveSource(present, _, dest) => present && Names(alias, dest, node)
    case MipmapSource(present, texture) => present && node != 0 && texture == node
    case ReadbackSource(_, _) => false
  }

  /** Only a whole clear overwrites everything without reading. */
  predicate CommandClears(c: SourceCommand, alias: AliasResolver, node: nat) {
    c.ClearSource? && c.present && !c.partial && (NamesColor(alias, c.targets, node) || (c.coversDepth && Names(alias, c.targets.depth, node)))
  }

  /** Draws and clears access in the fragment stage, all else by copying. */
  function StageOf(c: SourceCommand): nat {
    if c.DrawSource? || c.ClearSource? then FRAGMENT else COPY
  }

  datatype Mode = Reading | Writing | Clearing

  /** The command reads, writes or clears the node, in this stage. */
  predicate Does(c: SourceCommand, alias: AliasResolver, node: nat, mode: Mode, on: nat) {
    && StageOf(c) == on
    && match mode
       case Reading => CommandReads(c, alias, node)
       case Writing => CommandWrites(c, alias, node)
       case Clearing => CommandClears(c, alias, node)
  }

  // ----- what a pass is logged as doing -----

  predicate KindDoes(k: AccessKind, mode: Mode) {
    match mode
    case Reading => Reads(k)
    case Writing => Writes(k)
    case Clearing => k.ClearAccess?
  }

  ghost predicate LogsAt(g: Graph, u: nat, node: nat, mode: Mode, on: nat, r: nat, i: nat) {
    && r < |g.resources| && i < |g.resources[r].accesses|
    && g.resources[r].handle == node
    && g.resources[r].accesses[i].pass == u
    && g.resources[r].accesses[i].stage == on
    && KindDoes(g.resources[r].accesses[i].kind, mode)
  }

  /** Some entry of the node's log is pass u doing this to it, in this stage. */
  ghost predicate Logs(g: Graph, u: nat, node: nat, mode: Mode, on: nat) {
    exists r: nat, i: nat :: LogsAt(g, u, node, mode, on, r, i)
  }

  lemma SameLogs(g: Graph, h: Graph, u: nat, node: nat, mode: Mode, on: nat)
    requires h.resources == g.resources
    ensures Logs(h, u, node, mode, on) <==> Logs(g, u, node, mode, on)
  {
    if Logs(g, u, node, mode, on) {
      var r: nat, i: nat :| LogsAt(g, u, node, mode, on, r, i);
      assert LogsAt(h, u, node, mode, on, r, i);
    }
    if Logs(h, u, node, mode, on) {
      var r: nat, i: nat :| LogsAt(h, u, node, mode, on, r, i);
      assert LogsAt(g, u, node, mode, on, r, i);
    }
  }

  lemma NotedLogs(g: Graph, handle: nat, kind: AccessKind, stage: nat, u: nat, node: nat, mode: Mode, on: nat)
    requires g.passes != []
    ensures Logs(Noted(g, handle, kind, stage), u, node, mode, on) <==>
      Logs(g, u, node, mode, on) || (handle != 0 && node == handle && u == |g.passes| - 1 && KindDoes(kind, mode) && stage == on)
  {
    if handle != 0 {
      var h, at, log := Noted(g, handle, kind, stage), FindResource(g.resources, handle), LogOf(g, handle);
      hide HazardEdges, KindDoes;
      assert h.resources[at].accesses == log + [Access(|g.passes| - 1, kind, stage)] && h.resources[at].handle == handle;
      if Logs(g, u, node, mode, on) {
        var r: nat, i: nat :| LogsAt(g, u, node, mode, on, r, i);
        assert LogsAt(h, u, node, mode, on, r, i);
      }
      if node == handle && u == |g.passes| - 1 && KindDoes(kind, mode) && stage == on {
        assert LogsAt(h, u, node, mode, on, at, |log|);
      }
      if Logs(h, u, node, mode, on) {
        var r: nat, i: nat :| LogsAt(h, u, node, mode, on, r, i);
        if r != at || i < |log| {
          assert LogsAt(g, u, node, mode, on, r, i);
        }
      }
    }
  }

  lemma {:induction false} NotedAllLogs(g: Graph, handles: seq<nat>, alias: AliasResolver, kind: AccessKind, stage: nat,
                                        u: nat, node: nat, mode: Mode, on: nat)
    requires g.passes != []
    ensures Logs(NotedAll(g, handles, alias, kind, stage), u, node, mode, on) <==>
      || Logs(g, u, node, mode, on)
      || (node != 0 && u == |g.passes| - 1 && KindDoes(kind, mode) && stage == on
          && exists k :: 0 <= k < |handles| && Resolve(alias, handles[k]) == node)
  {
    hide Noted, Logs, KindDoes, Resolve;
    if handles != [] {
      var init, last := handles[..|handles| - 1], handles[|handles| - 1];
      NotedAllLogs(g, init, alias, kind, stage, u, node, mode, on);
      NotedLogs(NotedAll(g, init, alias, kind, stage), Resolve(alias, last), kind, stage, u, node, mode, on);
      assert forall k :: 0 <= k < |init| ==> init[k] == handles[k];
    }
  }

  lemma MarkReadbackLogs(g: Graph, handle: nat, u: nat, node: nat, mode: Mode, on: nat)
    ensures Logs(MarkReadback(g, handle), u, node, mode, on) <==> Logs(g, u, node, mode, on)
    ensures MarkReadback(g, handle).passes == g.passes
  {
    var h := MarkReadback(g, handle);
    if Logs(g, u, node, mode, on) {
      var r: nat, i: nat :| LogsAt(g, u, node, mode, on, r, i);
      assert LogsAt(h, u, node, mode, on, r, i);
    }
    if Logs(h, u, node, mode, on) {
      var r: nat, i: nat :| LogsAt(h, u, node, mode, on, r, i);
      assert LogsAt(g, u, node, mode, on, r, i);
    }
  }

  lemma AttachedLogs(g: Graph, t: AttachmentSet, alias: AliasResolver, colorKind: AccessKind, depthKind: AccessKind,
                     u: nat, node: nat, mode: Mode, on: nat)
    requires g.passes != [] && TargetsFit(t)
    ensures Logs(Attached(g, t, alias, colorKind, depthKind), u, node, mode, on) <==>
      || Logs(g, u, node, mode, on)
      || (u == |g.passes| - 1 && NamesColor(alias, t, node) && KindDoes(colorKind, mode) && on == FRAGMENT)
      || (u == |g.passes| - 1 && Names(alias, t.depth, node) && KindDoes(depthKind, mode) && on == FRAGMENT)
  {
    hide Noted, NotedAll, Logs, KindDoes;
    var colors := t.color[..t.colorCount];
    NotedAllLogs(g, colors, alias, colorKind, FRAGMENT, u, node, mode, on);
    NotedLogs(NotedAll(g, colors, alias, colorKind, FRAGMENT), Resolve(alias, t.depth), depthKind, FRAGMENT, u, node, mode, on);
    ColorsNamed(alias, t, node);
  }

  lemma ColorsNamed(alias: AliasResolver, t: AttachmentSet, node: nat)
    requires TargetsFit(t)
    ensures
      var colors := t.color[..t.colorCount];
      NamesColor(alias, t, node) <==> node != 0 && exists k :: 0 <= k < |colors| && Resolve(alias, colors[k]) == node
  {
    var colors := t.color[..t.colorCount];
    assert forall k :: 0 <= k < |colors| ==> colors[k] == t.color[k];
    if NamesColor(alias, t, node) {
      var i :| 0 <= i < t.colorCount && i < |t.color| && Names(alias, t.color[i], node);
      assert Resolve(alias, colors[i]) == node;
    }
    if node != 0 && exists k :: 0 <= k < |colors| && Resolve(alias, colors[k]) == node {
      var k :| 0 <= k < |colors| && Resolve(alias, colors[k]) == node;
      assert Names(alias, t.color[k], node);
    }
  }

  // ----- what one source command logs -----

  lemma DrawLogs(s: BuilderState, alias: AliasResolver, index: nat, c: SourceCommand, u: nat, node: nat, mode: Mode, on: nat)
    requires c.DrawSource? && c.present && TargetsFit(c.targets) && StateFits(s)
    ensures
      var h := BuildDraw(s, alias, index, c).graph;
      && h.passes != []
      && (Logs(h, u, node, mode, on) <==>
          || Logs(s.graph, u, node, mode, on)
          || (u == |h.passes| - 1 && on == FRAGMENT && mode.Reading? && CommandReads(c, alias, node))
          || (u == |h.passes| - 1 && on == FRAGMENT && mode.Writing? && Opens(s, c) && CommandWrites(c, alias, node)))
  {
    hide Noted, Logs, NamesColor, Names;
    var p := DrawPass(s, alias, c);
    DrawPassLogs(s, alias, c, u, node, mode, on);
    hide DrawPass, Attached;
    var read := NotedAll(p, c.textures, Identity(), Read, FRAGMENT);
    NotedAllLogs(p, c.textures, Identity(), Read, FRAGMENT, u, node, mode, on);
    TexturesNamed(c.textures, node);
    var drawn := EmitDraw(read, DrawRef(index, c.paramFirst, c.paramCount));
    SameLogs(read, EmitCommand(drawn, CommandRef(index, DrawRun)), u, node, mode, on);
  }

  lemma TexturesNamed(textures: seq<nat>, node: nat)
    ensures node != 0 ==>
      (node in textures <==> exists k :: 0 <= k < |textures| && Resolve(Identity(), textures[k]) == node)
  {
  }

  lemma DrawPassLogs(s: BuilderState, alias: AliasResolver, c: SourceCommand, u: nat, node: nat, mode: Mode, on: nat)
    requires c.DrawSource? && c.present && TargetsFit(c.targets) && StateFits(s)
    ensures
      var p := DrawPass(s, alias, c);
      && p.passes != [] && |p.passes| == |s.graph.passes| + (if Opens(s, c) then 1 else 0)
      && (Logs(p, u, node, mode, on) <==>
          || Logs(s.graph, u, node, mode, on)
          || (u == |p.passes| - 1 && on == FRAGMENT && mode.Writing? && Opens(s, c) && CommandWrites(c, alias, node)))
  {
    hide Noted, NotedAll, Logs, NamesColor, Names;
    if Opens(s, c) {
      var started := OpenPass(s.graph, Render, c.targets, c.profile);
      AttachedPasses(started, c.targets, alias, Write, Write);
      AttachedLogs(started, c.targets, alias, Write, Write, u, node, mode, on);
      SameLogs(s.graph, started, u, node, mode, on);
    } else {
      SameLogs(s.graph, DrawPass(s, alias, c), u, node, mode, on);
    }
  }

  lemma ClearLogs(s: BuilderState, alias: AliasResolver, index: nat, c: SourceCommand, u: nat, node: nat, mode: Mode, on: nat)
    requires c.ClearSource? && c.present && TargetsFit(c.targets)
    ensures
      var h := BuildClear(s, alias, index, c).graph;
      && |h.passes| == |s.graph.passes| + 1
      && (Logs(h, u, node, mode, on) <==>
            Logs(s.graph, u, node, mode, on) || (u == |h.passes| - 1 && Does(c, alias, node, mode, on)))
  {
    hide Noted, NotedAll, Logs, NamesColor, Names;
    var started := EmitCommand(OpenPass(s.graph, Render, c.targets, 0), CommandRef(index, Clear));
    AttachedPasses(started, c.targets, alias, ClearKind(c.partial, true), ClearKind(c.partial, c.coversDepth));
    AttachedLogs(started, c.targets, alias, ClearKind(c.partial, true), ClearKind(c.partial, c.coversDepth), u, node, mode, on);
    SameLogs(s.graph, started, u, node, mode, on);
  }

  lemma BlittedLogs(s: BuilderState, alias: AliasResolver, index: nat, kind: CommandKind, source: nat, dest: nat,
                    u: nat, node: nat, mode: Mode, on: nat)
    ensures
      var h := Blitted(s, alias, index, kind, source, dest).graph;
      && |h.passes| == |s.graph.passes| + 1
      && (Logs(h, u, node, mode, on) <==>
          || Logs(s.graph, u, node, mode, on)
          || (u == |h.passes| - 1 && on == COPY && mode.Writing? && Names(alias, dest, node))
          || (u == |h.passes| - 1 && on == COPY && mode.Reading? && Names(alias, source, node)))
  {
    var g := Standalone(s.graph, Blit, index, kind);
    var read := Noted(g, Resolve(alias, source), Read, COPY);
    SameLogs(s.graph, g, u, node, mode, on);
    NotedLogs(g, Resolve(alias, source), Read, COPY, u, node, mode, on);
    NotedLogs(read, Resolve(alias, dest), Write, COPY, u, node, mode, on);
    hide Logs;
  }

  lemma NothingNamed(alias: AliasResolver, node: nat)
    ensures !Names(alias, 0, node)
  {
  }

  /** A source command logs, in the newest pass, exactly what it does; a draw that joins a pass logs its reads only. */
  lemma StepLogs(s: BuilderState, alias: AliasResolver, index: nat, c: SourceCommand, u: nat, node: nat, mode: Mode, on: nat)
    requires CommandFits(c) && StateFits(s) && !Skipped(c)
    ensures
      var h := BuildStep(s, alias, index, c).graph;
      && h.passes != []
      && (Logs(h, u, node, mode, on) <==>
          || Logs(s.graph, u, node, mode, on)
          || (u == |h.passes| - 1 && Does(c, alias, node, mode, on) && (mode.Writing? && c.DrawSource? ==> Opens(s, c))))
  {
    hide Noted, Logs, NamesColor, Names, Opens;
    match c
    case DrawSource(_, _, _, _, _, _) => DrawLogs(s, alias, index, c, u, node, mode, on);
    case ClearSource(_, _, _, _) => ClearLogs(s, alias, index, c, u, node, mode, on);
    case PresentSource(source) => PresentLogs(s, alias, index, source, u, node, mode, on);
    case CopySource(_, source, dest) => BlittedLogs(s, alias, index, SurfaceCopy, source, dest, u, node, mode, on);
    case StretchSource(_, source, dest) => BlittedLogs(s, alias, index, StretchRect, source, dest, u, node, mode, on);
    case FillSource(_, dest) =>
      BlittedLogs(s, alias, index, ColorFill, 0, dest, u, node, mode, on);
      NothingNamed(alias, node);
    case ResolveSource(_, multisampled, dest) =>
      BlittedLogs(s, alias, index, DepthResolve, multisampled, dest, u, node, mode, on);
    case MipmapSource(_, texture) => MipmapLogs(s, alias, index, texture, u, node, mode, on);
    case ReadbackSource(_, source) => ReadbackLogs(s, alias, index, source, u, node, mode, on);
  }

  lemma PresentLogs(s: BuilderState, alias: AliasResolver, index: nat, source: nat, u: nat, node: nat, mode: Mode, on: nat)
    requires StateFits(s)
    ensures
      var h := BuildStep(s, alias, index, PresentSource(source)).graph;
      && |h.passes| == |s.graph.passes| + 1
      && (Logs(h, u, node, mode, on) <==>
            Logs(s.graph, u, node, mode, on) || (u == |h.passes| - 1 && on == COPY && mode.Reading? && Names(alias, source, node)))
  {
    var g := Standalone(s.graph, PassKind.Present, index, PresentCommand);
    SameLogs(s.graph, g, u, node, mode, on);
    NotedLogs(g, alias(source), Read, COPY, u, node, mode, on);
    hide Logs;
  }

  lemma MipmapLogs(s: BuilderState, alias: AliasResolver, index: nat, texture: nat, u: nat, node: nat, mode: Mode, on: nat)
    requires StateFits(s)
    ensures
      var h := BuildStep(s, alias, index, MipmapSource(true, texture)).graph;
      && |h.passes| == |s.graph.passes| + 1
      && (Logs(h, u, node, mode, on) <==>
            Logs(s.graph, u, node, mode, on) || (u == |h.passes| - 1 && on == COPY && !mode.Clearing? && node != 0 && texture == node))
  {
    var g := Standalone(s.graph, Blit, index, GenerateMipmaps);
    SameLogs(s.graph, g, u, node, mode, on);
    NotedLogs(g, texture, ReadWrite, COPY, u, node, mode, on);
    hide Logs;
  }

  lemma ReadbackLogs(s: BuilderState, alias: AliasResolver, index: nat, source: nat, u: nat, node: nat, mode: Mode, on: nat)
    requires StateFits(s)
    ensures
      var h := BuildStep(s, alias, index, ReadbackSource(true, source)).graph;
      && |h.passes| == |s.graph.passes| + 1
      && (Logs(h, u, node, mode, on) <==>
            Logs(s.graph, u, node, mode, on) || (u == |h.passes| - 1 && on == COPY && mode.Reading? && Names(alias, source, node)))
  {
    hide Noted, Logs, MarkReadback;
    var g := Standalone(s.graph, Blit, index, Readback);
    var read := Noted(g, Resolve(alias, source), Read, COPY);
    NotedPasses(g, Resolve(alias, source), Read, COPY);
    SameLogs(s.graph, g, u, node, mode, on);
    NotedLogs(g, Resolve(alias, source), Read, COPY, u, node, mode, on);
    MarkReadbackLogs(read, source, u, node, mode, on);
  }

  // ----- a pass is logged as doing exactly what its commands do -----

  ghost predicate HeldDoes(cs: seq<SourceCommand>, alias: AliasResolver, g: Graph, u: nat, node: nat, mode: Mode, on: nat) {
    exists i: nat :: i < |cs| && Holds(g, u, i) && Does(cs[i], alias, node, mode, on)
  }

  lemma HeldDoesNext(cs: seq<SourceCommand>, alias: AliasResolver, k: nat, s: BuilderState, t: BuilderState,
                     u: nat, node: nat, mode: Mode, on: nat)
    requires k < |cs| && StateFits(s) && !Skipped(cs[k]) && RowsGrow(s, t.graph, k, cs[k])
    ensures t.graph.passes != []
    ensures HeldDoes(cs, alias, t.graph, u, node, mode, on) <==>
      HeldDoes(cs, alias, s.graph, u, node, mode, on) || (u == |t.graph.passes| - 1 && Does(cs[k], alias, node, mode, on))
  {
    hide Does, InRow, Tidy, Skipped, KindOf, Indices;
    var rows, ref, joins := PassCommands(s.graph), CommandRef(k, KindOf(cs[k])), JoinsPass(s, cs[k]);
    MoreInRow(rows, ref, joins, u, k);
    forall i: nat ensures Holds(t.graph, u, i) <==> Holds(s.graph, u, i) || (u == |t.graph.passes| - 1 && i == k) {
      MoreInRow(rows, ref, joins, u, i);
    }
  }

  /** A draw that joins a pass writes what that pass is already held to write. */
  lemma JoinedWrites(cs: seq<SourceCommand>, alias: AliasResolver, k: nat, s: BuilderState, node: nat)
    requires k < |cs| && StateFits(s) && !Skipped(cs[k]) && OpenRight(cs, k, s) && JoinsPass(s, cs[k])
    requires CommandWrites(cs[k], alias, node)
    ensures HeldDoes(cs, alias, s.graph, |s.graph.passes| - 1, node, Writing, FRAGMENT)
  {
    hide NamesColor, Names, Holds;
    var i: nat :| LastKept(cs, k, i);
    assert Does(cs[i], alias, node, Writing, FRAGMENT);
  }

  ghost predicate LogsMean(cs: seq<SourceCommand>, alias: AliasResolver, g: Graph) {
    forall u: nat, node: nat, mode: Mode, on: nat :: Logs(g, u, node, mode, on) <==> HeldDoes(cs, alias, g, u, node, mode, on)
  }

  lemma LogsMeanNext(cs: seq<SourceCommand>, alias: AliasResolver, k: nat, s: BuilderState)
    requires k < |cs| && Shaped(cs, k, s) && CommandFits(cs[k]) && !Skipped(cs[k]) && Tidy(s.graph)
    requires LogsMean(cs, alias, s.graph)
    ensures LogsMean(cs, alias, BuildStep(s, alias, k, cs[k]).graph)
  {
    hide Logs, HeldDoes, BuildStep, Tidy, Filed, AllShaped, OpenRight, Skipped, Does, CommandWrites, RowsGrow;
    var t := BuildStep(s, alias, k, cs[k]);
    StepRows(s, alias, k, cs[k]);
    forall u: nat, node: nat, mode: Mode, on: nat
      ensures Logs(t.graph, u, node, mode, on) <==> HeldDoes(cs, alias, t.graph, u, node, mode, on)
    {
      StepLogs(s, alias, k, cs[k], u, node, mode, on);
      HeldDoesNext(cs, alias, k, s, t, u, node, mode, on);
      assert Logs(s.graph, u, node, mode, on) <==> HeldDoes(cs, alias, s.graph, u, node, mode, on);
      if mode.Writing? && JoinsPass(s, cs[k]) && u == |t.graph.passes| - 1 && Does(cs[k], alias, node, mode, on) {
        JoinedDoes(cs, alias, k, s, t, node, on);
      }
    }
  }

  lemma JoinedDoes(cs: seq<SourceCommand>, alias: AliasResolver, k: nat, s: BuilderState, t: BuilderState, node: nat, on: nat)
    requires k < |cs| && Shaped(cs, k, s) && !Skipped(cs[k]) && JoinsPass(s, cs[k]) && RowsGrow(s, t.graph, k, cs[k])
    requires Does(cs[k], alias, node, Writing, on)
    ensures |t.graph.passes| == |s.graph.passes| && HeldDoes(cs, alias, s.graph, |s.graph.passes| - 1, node, Writing, on)
  {
    hide Tidy, Filed, AllShaped, OpenRight, HeldDoes, CommandWrites;
    JoinedWrites(cs, alias, k, s, node);
    assert |PassCommands(t.graph)| == |PassCommands(s.graph)|;
  }

  lemma NoLogs(cs: seq<SourceCommand>, alias: AliasResolver)
    ensures LogsMean(cs, alias, EMPTY_GRAPH)
  {
  }

  lemma {:induction false} PrefixLogs(cs: seq<SourceCommand>, alias: AliasResolver, k: nat)
    requires StreamFits(cs) && k <= |cs|
    ensures LogsMean(cs, alias, Built(cs[..k], alias).graph)
  {
    hide LogsMean, BuildStep, Shaped, Tidy, Skipped;
    if k == 0 {
      NoLogs(cs, alias);
    } else {
      PrefixLogs(cs, alias, k - 1);
      assert cs[..k][..k - 1] == cs[..k - 1];
      BuiltShaped(cs, alias, k - 1);
      BuiltConsistent(cs[..k - 1], alias);
      var s := Built(cs[..k - 1], alias);
      if Skipped(cs[k - 1]) {
        StepSkips(s, alias, k - 1, cs[k - 1]);
      } else {
        LogsMeanNext(cs, alias, k - 1, s);
      }
    }
  }

  /**
    In every built frame a pass is logged as reading, writing or clearing a node in a
    stage exactly when a command it holds does.
   */
  lemma LoggedExactly(cs: seq<SourceCommand>, alias: AliasResolver, u: nat, node: nat, mode: Mode, on: nat)
    requires StreamFits(cs)
    ensures Logs(Built(cs, alias).graph, u, node, mode, on) <==>
      exists i: nat :: i < |cs| && Holds(Built(cs, alias).graph, u, i) && Does(cs[i], alias, node, mode, on)
  {
    hide Built, Logs, Does, Holds;
    PrefixLogs(cs, alias, |cs|);
    assert cs[..|cs|] == cs;
    assert Logs(Built(cs, alias).graph, u, node, mode, on) <==> HeldDoes(cs, alias, Built(cs, alias).graph, u, node, mode, on);
  }

  // ----- commands that depend on each other -----

  /** They use one node and at least one of them writes it. */
  ghost predicate Depend(a: SourceCommand, b: SourceCommand, alias: AliasResolver) {
    exists node: nat ::
      || (CommandWrites(a, alias, node) && (CommandReads(b, alias, node) || CommandWrites(b, alias, node)))
      || (CommandReads(a, alias, node) && CommandWrites(b, alias, node))
  }

  lemma LogsConflict(g: Graph, u: nat, v: nat, node: nat, first: Mode, second: Mode, on: nat, later: nat)
    requires Sound(g) && HandlesDistinct(g) && u < v < |g.passes|
    requires !first.Clearing? && !second.Clearing? && (first.Writing? || second.Writing?)
    requires Logs(g, u, node, first, on) && Logs(g, v, node, second, later)
    ensures Reaches(g, u, v)
  {
    var r: nat, i: nat :| LogsAt(g, u, node, first, on, r, i);
    var s: nat, j: nat :| LogsAt(g, v, node, second, later, s, j);
    assert r == s;
    assert LogOrdered(g, g.resources[r].accesses);
    assert Conflict(g.resources[r].accesses[i], g.resources[r].accesses[j]);
  }

  /** Commands that depend on each other land in one pass, or in two joined by a path in stream order. */
  lemma DependentJoined(cs: seq<SourceCommand>, alias: AliasResolver, i: nat, j: nat, u: nat, v: nat)
    requires StreamFits(cs) && i < j < |cs| && Depend(cs[i], cs[j], alias)
    requires Holds(Built(cs, alias).graph, u, i) && Holds(Built(cs, alias).graph, v, j)
    ensures u <= v < |Built(cs, alias).graph.passes| && (u == v || Reaches(Built(cs, alias).graph, u, v))
  {
    hide Built, CommandReads, CommandWrites, Reaches, Sound, HandlesDistinct, Tidy, TargetsWritten, Logs;
    var g := Built(cs, alias).graph;
    BuiltConsistent(cs, alias);
    HeldOnce(cs, alias, i);
    if u < v {
      var node: nat :|
        || (CommandWrites(cs[i], alias, node) && (CommandReads(cs[j], alias, node) || CommandWrites(cs[j], alias, node)))
        || (CommandReads(cs[i], alias, node) && CommandWrites(cs[j], alias, node));
      var first := if CommandWrites(cs[i], alias, node) then Writing else Reading;
      var second := if CommandWrites(cs[j], alias, node) then Writing else Reading;
      LoggedExactly(cs, alias, u, node, first, StageOf(cs[i]));
      LoggedExactly(cs, alias, v, node, second, StageOf(cs[j]));
      LogsConflict(g, u, v, node, first, second, StageOf(cs[i]), StageOf(cs[j]));
    }
  }

  // ----- the optimized frame replays them in stream order -----

  ghost function IndexRows(rows: seq<seq<CommandRef>>): (f: seq<seq<nat>>)
    ensures |f| == |rows| && forall u :: 0 <= u < |f| ==> f[u] == Indices(rows[u])
  {
    seq(|rows|, u requires 0 <= u < |rows| => Indices(rows[u]))
  }

  lemma {:induction false} IndicesConcat(rows: seq<seq<CommandRef>>, idx: seq<nat>)
    requires Bounded(idx, |rows|)
    ensures Indices(ConcatMap(rows, idx)) == ConcatMap(IndexRows(rows), idx)
  {
    if idx != [] {
      IndicesConcat(rows, idx[1..]);
      IndicesAppend(rows[idx[0]], ConcatMap(rows, idx[1..]));
    }
  }

  /** What the optimized frame replays: the rows of the old passes, in their final order. */
  lemma ReplayedByOrigin(g: Graph)
    requires WellFormed(g)
    ensures Bounded(FinalOrder(g), |g.passes|)
    ensures Replayed(Coalesced(g)) == ConcatMap(RowsOf(g, false), FinalOrder(g))
  {
    hide Descends, Flatten, Coalesced, Origins;
    CoalescedDescends(g);
    DescentBounds(g, Coalesced(g), Origins(g));
    DescendsPermutes(g, Coalesced(g), Origins(g));
    forall j | 0 <= j < |Origins(g)|
      ensures Bounded(Origins(g)[j], |g.passes|)
      ensures RowsOf(Coalesced(g), false)[j] == ConcatMap(RowsOf(g, false), Origins(g)[j])
    {
      DescendantRows(g, Coalesced(g), Origins(g), j);
    }
    FlattenRows(RowsOf(g, false), RowsOf(Coalesced(g), false), Origins(g));
  }

  /** A pass that reaches another is replayed before it. */
  lemma ReachedAhead(g: Graph, u: nat, v: nat)
    requires WellFormed(g) && Reaches(g, u, v) && u != v
    ensures Ahead(FinalOrder(g), u, v)
  {
    hide Origins, Coalesced, Descends, Flatten;
    CoalescedDescends(g);
    DescendantLinear(g, Coalesced(g), Origins(g));
    FinalOrderDistinct(g);
    ReachesForward(g, u, v);
    AheadOneWay(FinalOrder(g), u, v);
  }

  lemma BuiltWellFormed(cs: seq<SourceCommand>, alias: AliasResolver)
    requires StreamFits(cs) && |Built(cs, alias).graph.passes| <= NO_PASS
    ensures
      var g := Built(cs, alias).graph;
      WellFormed(g) && RowsOf(g, false) == PassCommands(g)
  {
    BuiltConsistent(cs, alias);
    SoundForward(Built(cs, alias).graph);
    hide Built, Sound, HandlesDistinct, TargetsWritten, Packed;
  }

  /** No command of a stream is replayed twice. */
  lemma ReplayedOnce(cs: seq<SourceCommand>, alias: AliasResolver)
    requires StreamFits(cs) && |Built(cs, alias).graph.passes| <= NO_PASS
    ensures WellFormed(Built(cs, alias).graph)
    ensures NoDuplicates(Indices(Replayed(Coalesced(Built(cs, alias).graph))))
  {
    hide Built, Replayed, Coalesced, Emitted, Replayable;
    BuiltWellFormed(cs, alias);
    StreamReplayable(cs, alias);
    EmittedNames(cs, |cs|);
    assert cs[..|cs|] == cs;
    var s, t := Indices(Emitted(cs)), Indices(Replayed(Coalesced(Built(cs, alias).graph)));
    IndicesPermute(Emitted(cs), Replayed(Coalesced(Built(cs, alias).graph)));
    forall x ensures multiset(t)[x] <= 1 {
      CountOfDistinct(s, x);
    }
    DistinctOfCount(t);
  }

  /**
    From any stream to what the optimized frame replays: of two commands that depend
    on each other, the earlier one is replayed first, and each once.
   */
  lemma DependentReplayedInOrder(cs: seq<SourceCommand>, alias: AliasResolver, i: nat, j: nat)
    requires StreamFits(cs) && |Built(cs, alias).graph.passes| <= NO_PASS
    requires i < j < |cs| && Depend(cs[i], cs[j], alias)
    ensures
      var g := Built(cs, alias).graph;
      && WellFormed(g)
      && Ahead(Indices(Replayed(Coalesced(g))), i, j)
      && NoDuplicates(Indices(Replayed(Coalesced(g))))
  {
    hide Built, Replayed, Coalesced, FinalOrder, Depend, Reaches, Ahead, NoDuplicates, Bounded;
    var g := Built(cs, alias).graph;
    BuiltWellFormed(cs, alias);
    ReplayedOnce(cs, alias);
    DependentKept(cs[i], cs[j], alias);
    HeldOnce(cs, alias, i);
    HeldOnce(cs, alias, j);
    var u: nat :| Holds(g, u, i);
    var v: nat :| Holds(g, v, j);
    DependentJoined(cs, alias, i, j, u, v);
    ReplayedByOrigin(g);
    IndicesConcat(PassCommands(g), FinalOrder(g));
    FinalOrderDistinct(g);
    if u == v {
      PassIsItsCommands(cs, alias, u);
      AheadInRising(Indices(PassCommands(g)[u]), i, j);
    } else {
      ReachedAhead(g, u, v);
    }
    AheadInConcat(IndexRows(PassCommands(g)), FinalOrder(g), u, v, i, j);
  }

  lemma DependentKept(a: SourceCommand, b: SourceCommand, alias: AliasResolver)
    requires Depend(a, b, alias)
    ensures !Skipped(a) && !Skipped(b)
  {
    hide NamesColor, Names;
  }
}
