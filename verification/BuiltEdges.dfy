/**
  The dependency edges of a built frame, exactly: one pass leads to another on a
  resource if and only if the log of that resource has accesses of theirs that
  conflict with no write between them.
 */
module BuiltEdges {
  import opened Sequences
  import opened FrameGraphs
  import opened Hazards
  import opened FrameBuilder
  import opened ReplayPlans
  import opened BuiltPasses

  // ----- the edges one access adds -----

  /** Access i conflicts with a later one of the given kind at position n, and no write stands between. */
  predicate Immediate(log: seq<Access>, i: nat, n: nat, kind: AccessKind)
    requires i < n <= |log|
  {
    && ((Writes(log[i].kind) && (Reads(kind) || Writes(kind))) || (Reads(log[i].kind) && Writes(kind)))
    && forall t :: i < t < n ==> !Writes(log[t].kind)
  }

  ghost predicate NewEdge(e: Edge, log: seq<Access>, pass: nat, kind: AccessKind, handle: nat) {
    && e.dst == pass && e.resource == handle && e.src != pass
    && exists i: nat :: i < |log| && log[i].pass == e.src && Immediate(log, i, |log|, kind)
  }

  lemma AddOnceExactly(es: seq<Edge>, src: nat, dst: nat, handle: nat, e: Edge)
    ensures e in AddOnce(es, src, dst, handle) <==> e in es || (src != dst && e == Edge(src, dst, handle))
  {
  }

  lemma {:induction false} ReadEdgesExactly(es: seq<Edge>, log: seq<Access>, from: nat, k: nat, pass: nat, handle: nat, e: Edge)
    requires k <= |log|
    ensures e in ReadEdges(es, log, from, k, pass, handle) <==>
      || e in es
      || (e.dst == pass && e.resource == handle && e.src != pass
          && exists i: nat :: from <= i < k && log[i].pass == e.src && Reads(log[i].kind))
  {
    if k > from {
      ReadEdgesExactly(es, log, from, k - 1, pass, handle, e);
      AddOnceExactly(ReadEdges(es, log, from, k - 1, pass, handle), log[k - 1].pass, pass, handle, e);
      hide AddOnce, Reads;
      assert e == Edge(e.src, e.dst, e.resource);
    }
  }

  lemma HazardEdgesExactly(es: seq<Edge>, log: seq<Access>, pass: nat, kind: AccessKind, handle: nat, e: Edge)
    ensures e in HazardEdges(es, log, pass, kind, handle) <==> e in es || NewEdge(e, log, pass, kind, handle)
  {
    var w := LastWrite(log, |log|);
    var raw := if Reads(kind) && w >= 0 then AddOnce(es, log[w].pass, pass, handle) else es;
    var waw := if w >= 0 then AddOnce(raw, log[w].pass, pass, handle) else raw;
    hide AddOnce, ReadEdges, LastWrite;
    if w >= 0 {
      AddOnceExactly(es, log[w].pass, pass, handle, e);
      AddOnceExactly(raw, log[w].pass, pass, handle, e);
    }
    ReadEdgesExactly(waw, log, w + 1, |log|, pass, handle, e);
    NewEdgeCases(e, log, pass, kind, handle, w);
  }

  /** An edge is new from the last write, or from a read after it. */
  lemma NewEdgeCases(e: Edge, log: seq<Access>, pass: nat, kind: AccessKind, handle: nat, w: int)
    requires -1 <= w < |log| && (w >= 0 ==> Writes(log[w].kind)) && forall j :: w < j < |log| ==> !Writes(log[j].kind)
    ensures NewEdge(e, log, pass, kind, handle) <==>
      && e.dst == pass && e.resource == handle && e.src != pass
      && ((w >= 0 && (Reads(kind) || Writes(kind)) && log[w].pass == e.src)
          || (Writes(kind) && exists i: nat :: w + 1 <= i < |log| && log[i].pass == e.src && Reads(log[i].kind)))
  {
    if w >= 0 && (Reads(kind) || Writes(kind)) {
      assert Immediate(log, w, |log|, kind);
    }
    if NewEdge(e, log, pass, kind, handle) {
      var i: nat :| i < |log| && log[i].pass == e.src && Immediate(log, i, |log|, kind);
    }
    if Writes(kind) && exists i: nat :: w + 1 <= i < |log| && log[i].pass == e.src && Reads(log[i].kind) {
      var i: nat :| w + 1 <= i < |log| && log[i].pass == e.src && Reads(log[i].kind);
      assert Immediate(log, i, |log|, kind);
    }
  }

  // ----- the edges of a whole graph -----

  /** Entries i and j of resource r are accesses of u and of v, the second depending on the first at once. */
  ghost predicate DependsAt(g: Graph, u: nat, v: nat, handle: nat, r: nat, i: nat, j: nat) {
    && r < |g.resources| && g.resources[r].handle == handle
    && i < j < |g.resources[r].accesses|
    && g.resources[r].accesses[i].pass == u && g.resources[r].accesses[j].pass == v
    && Immediate(g.resources[r].accesses, i, j, g.resources[r].accesses[j].kind)
  }

  ghost predicate DependsAtOnce(g: Graph, u: nat, v: nat, handle: nat) {
    exists r: nat, i: nat, j: nat :: DependsAt(g, u, v, handle, r, i, j)
  }

  ghost predicate EdgesMean(g: Graph) {
    forall u: nat, v: nat, handle: nat :: Edge(u, v, handle) in g.edges <==> u != v && DependsAtOnce(g, u, v, handle)
  }

  lemma MeanSame(g: Graph, h: Graph)
    requires EdgesMean(g) && h.resources == g.resources && h.edges == g.edges
    ensures EdgesMean(h)
  {
    forall u: nat, v: nat, handle: nat ensures DependsAtOnce(h, u, v, handle) <==> DependsAtOnce(g, u, v, handle) {
      SameDepends(g, h, u, v, handle);
      SameDepends(h, g, u, v, handle);
    }
    hide DependsAtOnce;
  }

  lemma SameDepends(g: Graph, h: Graph, u: nat, v: nat, handle: nat)
    requires h.resources == g.resources
    ensures DependsAtOnce(g, u, v, handle) ==> DependsAtOnce(h, u, v, handle)
  {
    if DependsAtOnce(g, u, v, handle) {
      var r: nat, i: nat, j: nat :| DependsAt(g, u, v, handle, r, i, j);
      assert DependsAt(h, u, v, handle, r, i, j);
    }
  }

  /** `h` is `g` with one more entry at the end of the log of resource `at`, which is new or was there. */
  ghost predicate Grown(g: Graph, h: Graph, at: nat, handle: nat, log: seq<Access>, y: Access) {
    && at < |h.resources| && at <= |g.resources| <= |h.resources|
    && h.resources[at].handle == handle && h.resources[at].accesses == log + [y]
    && (at < |g.resources| ==> g.resources[at].handle == handle && g.resources[at].accesses == log)
    && (at == |g.resources| ==> log == [])
    && (forall r :: 0 <= r < |h.resources| && r != at ==> r < |g.resources| && h.resources[r] == g.resources[r])
  }

  lemma NotedGrows(g: Graph, handle: nat, kind: AccessKind, stage: nat)
    requires g.passes != [] && handle != 0
    ensures Grown(g, Noted(g, handle, kind, stage), FindResource(g.resources, handle), handle, LogOf(g, handle),
                  Access(|g.passes| - 1, kind, stage))
  {
    hide HazardEdges;
  }

  ghost predicate LastDepends(log: seq<Access>, u: nat, kind: AccessKind) {
    exists i: nat :: i < |log| && log[i].pass == u && Immediate(log, i, |log|, kind)
  }

  /** What one more entry at the end of one log adds to the dependencies. */
  lemma DependsNext(g: Graph, h: Graph, at: nat, handle: nat, log: seq<Access>, y: Access, u: nat, v: nat, on: nat)
    requires Grown(g, h, at, handle, log, y)
    ensures DependsAtOnce(h, u, v, on) <==>
      DependsAtOnce(g, u, v, on) || (v == y.pass && on == handle && LastDepends(log, u, y.kind))
  {
    hide Immediate;
    if DependsAtOnce(g, u, v, on) {
      DependsStays(g, h, at, handle, log, y, u, v, on);
    }
    if v == y.pass && on == handle && LastDepends(log, u, y.kind) {
      var i: nat :| i < |log| && log[i].pass == u && Immediate(log, i, |log|, y.kind);
      ImmediateGrows(log, log + [y], i, |log|, y.kind);
      assert DependsAt(h, u, v, on, at, i, |log|);
    }
    if DependsAtOnce(h, u, v, on) {
      DependsWas(g, h, at, handle, log, y, u, v, on);
    }
  }

  lemma DependsStays(g: Graph, h: Graph, at: nat, handle: nat, log: seq<Access>, y: Access, u: nat, v: nat, on: nat)
    requires Grown(g, h, at, handle, log, y) && DependsAtOnce(g, u, v, on)
    ensures DependsAtOnce(h, u, v, on)
  {
    hide Immediate;
    var r: nat, i: nat, j: nat :| DependsAt(g, u, v, on, r, i, j);
    if r == at {
      ImmediateGrows(log, log + [y], i, j, log[j].kind);
    }
    assert DependsAt(h, u, v, on, r, i, j);
  }

  lemma DependsWas(g: Graph, h: Graph, at: nat, handle: nat, log: seq<Access>, y: Access, u: nat, v: nat, on: nat)
    requires Grown(g, h, at, handle, log, y) && DependsAtOnce(h, u, v, on)
    ensures DependsAtOnce(g, u, v, on) || (v == y.pass && on == handle && LastDepends(log, u, y.kind))
  {
    hide Immediate;
    var r: nat, i: nat, j: nat :| DependsAt(h, u, v, on, r, i, j);
    if r != at {
      assert DependsAt(g, u, v, on, r, i, j);
    } else if j < |log| {
      ImmediateGrows(log, log + [y], i, j, log[j].kind);
      assert DependsAt(g, u, v, on, r, i, j);
    } else {
      ImmediateGrows(log, log + [y], i, |log|, y.kind);
    }
  }

  lemma ImmediateGrows(log: seq<Access>, next: seq<Access>, i: nat, j: nat, kind: AccessKind)
    requires log <= next && i < j <= |log|
    ensures Immediate(next, i, j, kind) <==> Immediate(log, i, j, kind)
  {
  }

  lemma NotedMeans(g: Graph, handle: nat, kind: AccessKind, stage: nat)
    requires g.passes != [] && Exact(g)
    ensures Exact(Noted(g, handle, kind, stage))
  {
    hide DependsAtOnce, HazardEdges, Immediate, NoDuplicates, LastDepends;
    NotedExtends(g, handle, kind, stage);
    if handle != 0 {
      var h, log, pass := Noted(g, handle, kind, stage), LogOf(g, handle), |g.passes| - 1;
      NotedGrows(g, handle, kind, stage);
      HazardEdgesDistinct(g.edges, log, pass, kind, handle);
      forall u: nat, v: nat, on: nat
        ensures Edge(u, v, on) in h.edges <==> u != v && DependsAtOnce(h, u, v, on)
      {
        HazardEdgesExactly(g.edges, log, pass, kind, handle, Edge(u, v, on));
        NewEdgeIs(u, v, on, log, pass, kind, handle);
        DependsNext(g, h, FindResource(g.resources, handle), handle, log, Access(pass, kind, stage), u, v, on);
        assert Edge(u, v, on) in g.edges <==> u != v && DependsAtOnce(g, u, v, on);
      }
    }
  }

  lemma NewEdgeIs(u: nat, v: nat, on: nat, log: seq<Access>, pass: nat, kind: AccessKind, handle: nat)
    ensures NewEdge(Edge(u, v, on), log, pass, kind, handle) <==>
      v == pass && on == handle && u != pass && LastDepends(log, u, kind)
  {
    hide Immediate;
  }

  lemma AddOnceDistinct(es: seq<Edge>, src: nat, dst: nat, handle: nat)
    requires NoDuplicates(es)
    ensures NoDuplicates(AddOnce(es, src, dst, handle))
  {
  }

  lemma {:induction false} ReadEdgesDistinct(es: seq<Edge>, log: seq<Access>, from: nat, k: nat, pass: nat, handle: nat)
    requires k <= |log| && NoDuplicates(es)
    ensures NoDuplicates(ReadEdges(es, log, from, k, pass, handle))
  {
    if k > from {
      hide NoDuplicates, AddOnce;
      ReadEdgesDistinct(es, log, from, k - 1, pass, handle);
      AddOnceDistinct(ReadEdges(es, log, from, k - 1, pass, handle), log[k - 1].pass, pass, handle);
    }
  }

  /** No edge is recorded twice. */
  lemma HazardEdgesDistinct(es: seq<Edge>, log: seq<Access>, pass: nat, kind: AccessKind, handle: nat)
    requires NoDuplicates(es)
    ensures NoDuplicates(HazardEdges(es, log, pass, kind, handle))
  {
    hide NoDuplicates, AddOnce, ReadEdges;
    var w := LastWrite(log, |log|);
    var raw := if Reads(kind) && w >= 0 then AddOnce(es, log[w].pass, pass, handle) else es;
    var waw := if w >= 0 then AddOnce(raw, log[w].pass, pass, handle) else raw;
    if w >= 0 {
      AddOnceDistinct(es, log[w].pass, pass, handle);
      AddOnceDistinct(raw, log[w].pass, pass, handle);
    }
    ReadEdgesDistinct(waw, log, w + 1, |log|, pass, handle);
  }

  /** A graph whose edges mean this, none of them twice, and whose resources are told apart. */
  ghost predicate Exact(g: Graph) {
    EdgesMean(g) && HandlesDistinct(g) && NoDuplicates(g.edges)
  }

  lemma ExactSame(g: Graph, h: Graph)
    requires Exact(g) && h.resources == g.resources && h.edges == g.edges
    ensures Exact(h)
  {
    MeanSame(g, h);
  }

  lemma {:induction false} NotedAllExact(g: Graph, handles: seq<nat>, alias: AliasResolver, kind: AccessKind, stage: nat)
    requires g.passes != [] && Exact(g)
    ensures Exact(NotedAll(g, handles, alias, kind, stage))
  {
    if handles != [] {
      var init := handles[..|handles| - 1];
      NotedAllExact(g, init, alias, kind, stage);
      hide EdgesMean, HandlesDistinct, Noted;
      NotedMeans(NotedAll(g, init, alias, kind, stage), Resolve(alias, handles[|handles| - 1]), kind, stage);
    }
  }

  lemma NotedExact(g: Graph, handle: nat, kind: AccessKind, stage: nat)
    requires g.passes != [] && Exact(g)
    ensures Exact(Noted(g, handle, kind, stage)) && Noted(g, handle, kind, stage).passes == g.passes
  {
    NotedMeans(g, handle, kind, stage);
  }

  lemma AttachedExact(g: Graph, t: AttachmentSet, alias: AliasResolver, colorKind: AccessKind, depthKind: AccessKind)
    requires g.passes != [] && TargetsFit(t) && Exact(g)
    ensures Exact(Attached(g, t, alias, colorKind, depthKind)) && Attached(g, t, alias, colorKind, depthKind).passes == g.passes
  {
    hide Exact;
    NotedAllExact(g, t.color[..t.colorCount], alias, colorKind, FRAGMENT);
    NotedExact(NotedAll(g, t.color[..t.colorCount], alias, colorKind, FRAGMENT), Resolve(alias, t.depth), depthKind, FRAGMENT);
  }

  lemma MarkedExact(g: Graph, handle: nat)
    requires Exact(g)
    ensures Exact(MarkReadback(g, handle))
  {
    var h := MarkReadback(g, handle);
    forall u: nat, v: nat, on: nat ensures DependsAtOnce(h, u, v, on) <==> DependsAtOnce(g, u, v, on) {
      if DependsAtOnce(g, u, v, on) {
        var r: nat, i: nat, j: nat :| DependsAt(g, u, v, on, r, i, j);
        assert DependsAt(h, u, v, on, r, i, j);
      }
      if DependsAtOnce(h, u, v, on) {
        var r: nat, i: nat, j: nat :| DependsAt(h, u, v, on, r, i, j);
        assert DependsAt(g, u, v, on, r, i, j);
      }
    }
    hide DependsAtOnce;
  }

  // ----- every source command, every stream -----

  lemma StandaloneExact(g: Graph, kind: PassKind, index: nat, command: CommandKind)
    requires Exact(g)
    ensures Exact(Standalone(g, kind, index, command))
  {
    ExactSame(g, Standalone(g, kind, index, command));
  }

  lemma BlittedExact(s: BuilderState, alias: AliasResolver, index: nat, kind: CommandKind, source: nat, dest: nat)
    requires Exact(s.graph)
    ensures Exact(Blitted(s, alias, index, kind, source, dest).graph)
  {
    hide Exact, Noted;
    StandaloneExact(s.graph, Blit, index, kind);
    var g := Standalone(s.graph, Blit, index, kind);
    NotedExact(g, Resolve(alias, source), Read, COPY);
    NotedExact(Noted(g, Resolve(alias, source), Read, COPY), Resolve(alias, dest), Write, COPY);
  }

  lemma DrawExact(s: BuilderState, alias: AliasResolver, index: nat, c: SourceCommand)
    requires c.DrawSource? && c.present && TargetsFit(c.targets) && StateFits(s) && Exact(s.graph)
    ensures Exact(BuildDraw(s, alias, index, c).graph)
  {
    hide Exact, Attached, NotedAll;
    var p := DrawPass(s, alias, c);
    var started := OpenPass(s.graph, Render, c.targets, c.profile);
    ExactSame(s.graph, started);
    AttachedExact(started, c.targets, alias, Write, Write);
    if !Opens(s, c) {
      ExactSame(s.graph, p);
    }
    var read := NotedAll(p, c.textures, Identity(), Read, FRAGMENT);
    NotedAllExact(p, c.textures, Identity(), Read, FRAGMENT);
    ExactSame(read, BuildDraw(s, alias, index, c).graph);
  }

  lemma ClearExact(s: BuilderState, alias: AliasResolver, index: nat, c: SourceCommand)
    requires c.ClearSource? && c.present && TargetsFit(c.targets) && Exact(s.graph)
    ensures Exact(BuildClear(s, alias, index, c).graph)
  {
    hide Exact, Attached;
    var started := EmitCommand(OpenPass(s.graph, Render, c.targets, 0), CommandRef(index, Clear));
    ExactSame(s.graph, started);
    AttachedExact(started, c.targets, alias, ClearKind(c.partial, true), ClearKind(c.partial, c.coversDepth));
  }

  lemma StepExact(s: BuilderState, alias: AliasResolver, index: nat, c: SourceCommand)
    requires CommandFits(c) && StateFits(s) && Exact(s.graph) && !Skipped(c)
    ensures Exact(BuildStep(s, alias, index, c).graph)
  {
    hide Exact, Noted;
    match c
    case DrawSource(_, _, _, _, _, _) => DrawExact(s, alias, index, c);
    case ClearSource(_, _, _, _) => ClearExact(s, alias, index, c);
    case PresentSource(source) =>
      StandaloneExact(s.graph, PassKind.Present, index, PresentCommand);
      NotedExact(Standalone(s.graph, PassKind.Present, index, PresentCommand), alias(source), Read, COPY);
    case CopySource(_, source, dest) => BlittedExact(s, alias, index, SurfaceCopy, source, dest);
    case StretchSource(_, source, dest) => BlittedExact(s, alias, index, StretchRect, source, dest);
    case FillSource(_, dest) => BlittedExact(s, alias, index, ColorFill, 0, dest);
    case ResolveSource(_, multisampled, dest) => BlittedExact(s, alias, index, DepthResolve, multisampled, dest);
    case MipmapSource(_, texture) =>
      StandaloneExact(s.graph, Blit, index, GenerateMipmaps);
      NotedExact(Standalone(s.graph, Blit, index, GenerateMipmaps), texture, ReadWrite, COPY);
    case ReadbackSource(_, source) =>
      StandaloneExact(s.graph, Blit, index, Readback);
      var g := Standalone(s.graph, Blit, index, Readback);
      NotedExact(g, Resolve(alias, source), Read, COPY);
      MarkedExact(Noted(g, Resolve(alias, source), Read, COPY), source);
  }

  lemma EmptyExact()
    ensures Exact(EMPTY_GRAPH)
  {
  }

  lemma {:induction false} StreamExact(cs: seq<SourceCommand>, alias: AliasResolver)
    requires StreamFits(cs)
    ensures Exact(Built(cs, alias).graph)
  {
    hide Exact, BuildStep;
    if cs == [] {
      EmptyExact();
    } else {
      var s, c := Built(cs[..|cs| - 1], alias), cs[|cs| - 1];
      StreamExact(cs[..|cs| - 1], alias);
      if Skipped(c) {
        StepSkips(s, alias, |cs| - 1, c);
      } else {
        StepExact(s, alias, |cs| - 1, c);
      }
    }
  }

  /**
    The edges of every built frame: two different passes are joined on a resource
    exactly when its log holds an access of each, the later depending on the earlier
    with no write between them.
   */
  lemma BuiltEdgesExactly(cs: seq<SourceCommand>, alias: AliasResolver, u: nat, v: nat, handle: nat)
    requires StreamFits(cs)
    ensures Edge(u, v, handle) in Built(cs, alias).graph.edges <==>
      u != v && DependsAtOnce(Built(cs, alias).graph, u, v, handle)
    ensures NoDuplicates(Built(cs, alias).graph.edges)
  {
    StreamExact(cs, alias);
    hide Built, DependsAtOnce;
  }
}
