/**
  Building a frame graph from a source command stream: which passes are opened,
  which accesses are recorded, and that every graph built this way meets what
  pass coalescing needs.
 */
module FrameBuilder {
  import opened Sequences
  import opened FrameGraphs
  import opened Coalescing
  import opened Provenance
  import opened Execution
  import opened Fixpoint
  import opened Hazards

  /** Surface handle to the owning resource; 0 names nothing. */
  type AliasResolver = nat -> nat

  /**
    One source command as the builder sees it. `present` is false for a record
    whose payload is missing; such a command is skipped, except Present itself.
    `textures` are the bound textures whose mask bit is set; a clear is `partial` if
    it names rectangles, and `coversDepth` if it covers the whole depth resource.
   */
  datatype SourceCommand =
    | DrawSource(present: bool, targets: AttachmentSet, profile: nat, textures: seq<nat>, paramFirst: nat, paramCount: nat)
    | ClearSource(present: bool, targets: AttachmentSet, partial: bool, coversDepth: bool)
    | PresentSource(source: nat)
    | CopySource(present: bool, source: nat, dest: nat)
    | StretchSource(present: bool, source: nat, dest: nat)
    | FillSource(present: bool, dest: nat)
    | ResolveSource(present: bool, multisampled: nat, dest: nat)
    | MipmapSource(present: bool, texture: nat)
    | ReadbackSource(present: bool, source: nat)

  const NO_TARGETS := AttachmentSet([0, 0, 0, 0, 0, 0, 0, 0], 0, 0, 1)
  const NO_FLAGS := PassFlags(false, false, false, false, false, false)

  // ----- the single steps, on values -----

  function OpenPass(g: Graph, kind: PassKind, targets: AttachmentSet, profile: nat): Graph {
    g.(passes := g.passes
      + [PassNode(kind, targets, Range(|g.draws|, 0), Range(|g.commands|, 0), profile, 0, NO_FLAGS)])
  }

  function EmitCommand(g: Graph, c: CommandRef): Graph
    requires g.passes != []
  {
    var last := |g.passes| - 1;
    var p := g.passes[last];
    g.(commands := g.commands + [c],
       passes := g.passes[last := p.(commands := Range(p.commands.first, p.commands.count + 1))])
  }

  function EmitDraw(g: Graph, d: DrawRef): Graph
    requires g.passes != []
  {
    var last := |g.passes| - 1;
    var p := g.passes[last];
    g.(draws := g.draws + [d],
       passes := g.passes[last := p.(draws := Range(p.draws.first, p.draws.count + 1))])
  }

  function FindResource(rs: seq<Resource>, handle: nat): (i: nat)
    ensures i <= |rs|
    ensures i < |rs| ==> rs[i].handle == handle
    ensures forall k :: 0 <= k < i ==> rs[k].handle != handle
  {
    if rs == [] then 0
    else if rs[0].handle == handle then 0
    else 1 + FindResource(rs[1..], handle)
  }

  /** The log of a resource, empty when it has not been seen. */
  function LogOf(g: Graph, handle: nat): seq<Access> {
    var i := FindResource(g.resources, handle);
    if i < |g.resources| then g.resources[i].accesses else []
  }

  /** Records one access of the newest pass, after the hazard edges it needs. */
  function Noted(g: Graph, handle: nat, kind: AccessKind, stage: nat): Graph
    requires g.passes != []
  {
    if handle == 0 then g
    else
      var pass := |g.passes| - 1;
      var i := FindResource(g.resources, handle);
      var log := LogOf(g, handle);
      var seen := i < |g.resources| && g.resources[i].readbackSeen;
      var r := Resource(handle, log + [Access(pass, kind, stage)], seen);
      g.(edges := HazardEdges(g.edges, log, pass, kind, handle),
         resources := if i < |g.resources| then g.resources[i := r] else g.resources + [r])
  }

  function Resolve(alias: AliasResolver, handle: nat): nat {
    if handle == 0 then 0 else alias(handle)
  }

  function NotedAll(g: Graph, handles: seq<nat>, alias: AliasResolver, kind: AccessKind, stage: nat): (h: Graph)
    requires g.passes != []
    ensures h.passes == g.passes && h.draws == g.draws && h.commands == g.commands
  {
    if handles == [] then g
    else
      Noted(NotedAll(g, handles[..|handles| - 1], alias, kind, stage),
            Resolve(alias, handles[|handles| - 1]), kind, stage)
  }

  /** Sets the readback bit on the node of `handle`, creating the node if need be. */
  function MarkReadback(g: Graph, handle: nat): Graph {
    var i := FindResource(g.resources, handle);
    g.(resources :=
      if i < |g.resources| then g.resources[i := g.resources[i].(readbackSeen := true)]
      else g.resources + [Resource(handle, [], true)])
  }

  predicate TargetsFit(t: AttachmentSet) {
    t.colorCount <= |t.color|
  }

  predicate CommandFits(c: SourceCommand) {
    match c
    case DrawSource(_, t, _, _, _, _) => TargetsFit(t)
    case ClearSource(_, t, _, _) => TargetsFit(t)
    case _ => true
  }

  // ----- one source command, on values -----

  datatype BuilderState = BuilderState(graph: Graph, current: nat, open: bool)

  ghost predicate StateFits(s: BuilderState) {
    s.open ==> s.graph.passes != [] && s.current == |s.graph.passes| - 1
  }

  const FRAGMENT: nat := 1
  const COPY: nat := 3

  function Identity(): AliasResolver {
    h => h
  }

  /** The newest pass recorded as accessing all its targets. */
  function Attached(g: Graph, t: AttachmentSet, alias: AliasResolver, colorKind: AccessKind, depthKind: AccessKind): Graph
    requires g.passes != [] && TargetsFit(t)
  {
    Noted(NotedAll(g, t.color[..t.colorCount], alias, colorKind, FRAGMENT), Resolve(alias, t.depth), depthKind, FRAGMENT)
  }

  /** The pass a draw lands in: a fresh one, or the open one. */
  function DrawPass(s: BuilderState, alias: AliasResolver, c: SourceCommand): Graph
    requires c.DrawSource? && TargetsFit(c.targets) && StateFits(s)
  {
    var g := s.graph;
    if !s.open || g.passes[s.current].targets != c.targets then
      Attached(OpenPass(g, Render, c.targets, c.profile), c.targets, alias, Write, Write)
    else if g.passes[s.current].stateProfile == 0 then
      g.(passes := g.passes[s.current := g.passes[s.current].(stateProfile := c.profile)])
    else g
  }

  function BuildDraw(s: BuilderState, alias: AliasResolver, index: nat, c: SourceCommand): BuilderState
    requires c.DrawSource? && TargetsFit(c.targets) && StateFits(s)
  {
    if !c.present then s
    else
      var read := NotedAll(DrawPass(s, alias, c), c.textures, Identity(), Read, FRAGMENT);
      var drawn := EmitDraw(read, DrawRef(index, c.paramFirst, c.paramCount));
      BuilderState(EmitCommand(drawn, CommandRef(index, DrawRun)), |drawn.passes| - 1, true)
  }

  /** Partial clears keep what they do not cover. */
  function ClearKind(partial: bool, covers: bool): (k: AccessKind)
    ensures Writes(k)
  {
    if !partial && covers then ClearAccess else ReadWrite
  }

  function BuildClear(s: BuilderState, alias: AliasResolver, index: nat, c: SourceCommand): BuilderState
    requires c.ClearSource? && TargetsFit(c.targets)
  {
    if !c.present then s
    else
      var started := EmitCommand(OpenPass(s.graph, Render, c.targets, 0), CommandRef(index, Clear));
      var g := Attached(started, c.targets, alias, ClearKind(c.partial, true), ClearKind(c.partial, c.coversDepth));
      BuilderState(g, |g.passes| - 1, true)
  }

  function Standalone(g: Graph, kind: PassKind, index: nat, command: CommandKind): Graph {
    EmitCommand(OpenPass(g, kind, NO_TARGETS, 0), CommandRef(index, command))
  }

  /** A pass of its own that reads one surface and writes another. */
  function Blitted(s: BuilderState, alias: AliasResolver, index: nat, kind: CommandKind, source: nat, dest: nat): BuilderState {
    var g := Standalone(s.graph, Blit, index, kind);
    var read := Noted(g, Resolve(alias, source), Read, COPY);
    BuilderState(Noted(read, Resolve(alias, dest), Write, COPY), |g.passes| - 1, false)
  }

  function BuildStep(s: BuilderState, alias: AliasResolver, index: nat, c: SourceCommand): BuilderState
    requires CommandFits(c) && StateFits(s)
  {
    match c
    case DrawSource(_, _, _, _, _, _) => BuildDraw(s, alias, index, c)
    case ClearSource(_, _, _, _) => BuildClear(s, alias, index, c)
    case PresentSource(source) =>
      var g := Standalone(s.graph, PassKind.Present, index, PresentCommand);
      if source == 0 then BuilderState(g, s.current, false)
      else BuilderState(Noted(g, alias(source), Read, COPY), |g.passes| - 1, false)
    case CopySource(present, source, dest) => if present then Blitted(s, alias, index, SurfaceCopy, source, dest) else s
    case StretchSource(present, source, dest) => if present then Blitted(s, alias, index, StretchRect, source, dest) else s
    case FillSource(present, dest) => if present then Blitted(s, alias, index, ColorFill, 0, dest) else s
    case ResolveSource(present, multisampled, dest) =>
      if present then Blitted(s, alias, index, DepthResolve, multisampled, dest) else s
    case MipmapSource(present, texture) =>
      if !present then s
      else
        var g := Standalone(s.graph, Blit, index, GenerateMipmaps);
        BuilderState(Noted(g, texture, ReadWrite, COPY), |g.passes| - 1, false)
    case ReadbackSource(present, source) =>
      if !present then s
      else
        var g := Standalone(s.graph, Blit, index, Readback);
        var read := Noted(g, Resolve(alias, source), Read, COPY);
        BuilderState(if source == 0 then read else MarkReadback(read, source), |g.passes| - 1, false)
  }

  const EMPTY_GRAPH := Graph([], [], [], [], [])

  ghost predicate StreamFits(cs: seq<SourceCommand>) {
    forall i :: 0 <= i < |cs| ==> CommandFits(cs[i])
  }

  /** The builder's state after a whole stream. */
  ghost function Built(cs: seq<SourceCommand>, alias: AliasResolver): (s: BuilderState)
    requires StreamFits(cs)
    ensures StateFits(s)
  {
    if cs == [] then BuilderState(EMPTY_GRAPH, 0, false)
    else BuildStep(Built(cs[..|cs| - 1], alias), alias, |cs| - 1, cs[|cs| - 1])
  }

  // ----- what every built graph satisfies -----

  ghost predicate LogInside(log: seq<Access>, n: nat) {
    && (forall i :: 0 <= i < |log| ==> log[i].pass < n)
    && (forall i, j :: 0 <= i <= j < |log| ==> log[i].pass <= log[j].pass)
  }

  ghost predicate Sound(g: Graph) {
    && (forall e :: e in g.edges ==> e.src < e.dst < |g.passes|)
    && (forall r :: 0 <= r < |g.resources| ==> LogInside(g.resources[r].accesses, |g.passes|))
    && HazardComplete(g)
  }

  lemma SoundForward(g: Graph)
    requires Sound(g)
    ensures Forward(g)
  {
    forall u: nat, v: nat | HasEdge(g, u, v) ensures u < v {
      var r: nat :| Edge(u, v, r) in g.edges;
    }
  }

  /** Passes may be added or edited; logs and edges decide soundness. */
  lemma SoundWithPasses(g: Graph, h: Graph)
    requires Sound(g) && |g.passes| <= |h.passes| && h.edges == g.edges && h.resources == g.resources
    ensures Sound(h)
  {
    forall r | 0 <= r < |h.resources|
      ensures LogInside(h.resources[r].accesses, |h.passes|) && LogOrdered(h, h.resources[r].accesses)
    {
      assert LogInside(g.resources[r].accesses, |g.passes|) && LogOrdered(g, g.resources[r].accesses);
      HazardMonotone(g, h, g.resources[r].accesses);
    }
  }

  lemma NotedEdges(g: Graph, handle: nat, kind: AccessKind, stage: nat)
    requires Sound(g) && g.passes != [] && handle != 0
    ensures
      var h := Noted(g, handle, kind, stage);
      && (forall e :: e in h.edges ==> e.src < e.dst < |h.passes|)
      && (forall e :: e in g.edges ==> e in h.edges)
      && (forall e :: e in HazardEdges([], LogOf(g, handle), |g.passes| - 1, kind, handle) ==> e in h.edges)
      && LogInside(LogOf(g, handle), |g.passes|) && LogOrdered(g, LogOf(g, handle))
  {
    var pass, log := |g.passes| - 1, LogOf(g, handle);
    assert LogInside(log, |g.passes|) && LogOrdered(g, log);
    assert forall e :: e in g.edges ==> e.src < e.dst < |g.passes|;
    hide Sound, LogOf, LogOrdered, HazardEdges;
    HazardEdgesFacts(g.edges, log, pass, kind, handle);
    HazardEdgesFromEmpty(g.edges, log, pass, kind, handle);
    EdgesInside(g.edges, log, pass, kind, handle);
  }

  lemma EdgesInside(es: seq<Edge>, log: seq<Access>, pass: nat, kind: AccessKind, handle: nat)
    requires LogInside(log, pass + 1) && forall e :: e in es ==> e.src < e.dst < pass + 1
    ensures forall e :: e in HazardEdges(es, log, pass, kind, handle) ==> e.src < e.dst < pass + 1
  {
    HazardEdgesFacts(es, log, pass, kind, handle);
    hide HazardEdges;
    forall e | e in HazardEdges(es, log, pass, kind, handle) ensures e.src < e.dst < pass + 1 {
      if e !in es {
        var i :| 0 <= i < |log| && log[i].pass == e.src;
      }
    }
  }

  /** Recording an access keeps the hazard model complete. */
  lemma NotedSound(g: Graph, handle: nat, kind: AccessKind, stage: nat)
    requires Sound(g) && g.passes != []
    ensures Sound(Noted(g, handle, kind, stage))
  {
    if handle != 0 {
      var h := Noted(g, handle, kind, stage);
      var i, log := FindResource(g.resources, handle), LogOf(g, handle);
      var y := Access(|g.passes| - 1, kind, stage);
      NotedEdges(g, handle, kind, stage);
      HazardMonotone(g, h, log);
      LogOrderedAppend(h, log, y, handle);
      forall r | 0 <= r < |h.resources|
        ensures LogInside(h.resources[r].accesses, |h.passes|) && LogOrdered(h, h.resources[r].accesses)
      {
        if r == i {
          assert h.resources[r].accesses == log + [y];
        } else {
          OtherLogKept(g, h, r);
        }
      }
    }
  }

  lemma OtherLogKept(g: Graph, h: Graph, r: nat)
    requires Sound(g) && |g.passes| == |h.passes| && forall e :: e in g.edges ==> e in h.edges
    requires r < |g.resources| && r < |h.resources| && h.resources[r].accesses == g.resources[r].accesses
    ensures LogInside(h.resources[r].accesses, |h.passes|) && LogOrdered(h, h.resources[r].accesses)
  {
    assert LogInside(g.resources[r].accesses, |g.passes|) && LogOrdered(g, g.resources[r].accesses);
    HazardMonotone(g, h, g.resources[r].accesses);
  }

  lemma {:induction false} NotedAllSound(g: Graph, handles: seq<nat>, alias: AliasResolver, kind: AccessKind, stage: nat)
    requires Sound(g) && g.passes != []
    ensures Sound(NotedAll(g, handles, alias, kind, stage))
  {
    if handles != [] {
      NotedAllSound(g, handles[..|handles| - 1], alias, kind, stage);
      NotedSound(NotedAll(g, handles[..|handles| - 1], alias, kind, stage),
                 Resolve(alias, handles[|handles| - 1]), kind, stage);
    }
  }

  lemma MarkReadbackSound(g: Graph, handle: nat)
    requires Sound(g)
    ensures Sound(MarkReadback(g, handle))
  {
    var h := MarkReadback(g, handle);
    forall r | 0 <= r < |h.resources|
      ensures LogInside(h.resources[r].accesses, |h.passes|) && LogOrdered(h, h.resources[r].accesses)
    {
      if r < |g.resources| {
        assert LogInside(g.resources[r].accesses, |g.passes|) && LogOrdered(g, g.resources[r].accesses);
        HazardMonotone(g, h, g.resources[r].accesses);
      }
    }
  }

  // ----- slices stay packed, passes stay live -----

  /** Packed depends on nothing but the ranges and the arrays. */
  ghost predicate Tidy(g: Graph) {
    && Packed(g)
    && forall i :: 0 <= i < |g.passes| ==> !g.passes[i].flags.dead
  }

  lemma TidySameRanges(g: Graph, h: Graph)
    requires Tidy(g) && |h.passes| == |g.passes| && h.draws == g.draws && h.commands == g.commands
    requires forall i :: 0 <= i < |g.passes| ==>
      && h.passes[i].draws == g.passes[i].draws
      && h.passes[i].commands == g.passes[i].commands
      && h.passes[i].flags == g.passes[i].flags
    ensures Tidy(h)
  {
    assert PassDraws(h) == PassDraws(g) && PassCommands(h) == PassCommands(g);
  }

  lemma OpenPassTidy(g: Graph, kind: PassKind, targets: AttachmentSet, profile: nat)
    requires Tidy(g)
    ensures Tidy(OpenPass(g, kind, targets, profile))
  {
    var h := OpenPass(g, kind, targets, profile);
    assert PassDraws(h) == PassDraws(g) + [[]] && PassCommands(h) == PassCommands(g) + [[]];
    FlattenAppend(PassDraws(g), [[]]);
    FlattenAppend(PassCommands(g), [[]]);
    assert Flatten<DrawRef>([[]]) == [] && Flatten<CommandRef>([[]]) == [];
    hide Flatten;
    PrefixesKept(PassDraws(g), [[]]);
    PrefixesKept(PassCommands(g), [[]]);
  }

  lemma PrefixesKept<T>(a: seq<T>, b: seq<T>)
    ensures forall j :: 0 <= j <= |a| ==> (a + b)[..j] == a[..j]
  {
  }

  /** Growing the last row by one element. */
  lemma GrowLast<T>(rows: seq<seq<T>>, x: T)
    requires rows != []
    ensures
      var grown := rows[|rows| - 1 := rows[|rows| - 1] + [x]];
      && Flatten(grown) == Flatten(rows) + [x]
      && forall j :: 0 <= j < |rows| ==> grown[..j] == rows[..j]
  {
    var last := |rows| - 1;
    var grown := rows[last := rows[last] + [x]];
    assert grown == rows[..last] + [rows[last] + [x]] && rows == rows[..last] + [rows[last]];
    FlattenAppend(rows[..last], [rows[last] + [x]]);
    FlattenAppend(rows[..last], [rows[last]]);
    assert Flatten([rows[last] + [x]]) == rows[last] + [x] + Flatten([]);
    assert Flatten([rows[last]]) == rows[last] + Flatten([]);
  }

  /** The last range ends where its packed array ends. */
  lemma LastRangeEnds<T>(rows: seq<seq<T>>, first: nat, count: nat)
    requires rows != [] && first == |Flatten(rows[..|rows| - 1])| && count == |rows[|rows| - 1]|
    ensures first + count == |Flatten(rows)|
  {
    var last := |rows| - 1;
    assert rows == rows[..last] + [rows[last]];
    FlattenAppend(rows[..last], [rows[last]]);
    assert Flatten([rows[last]]) == rows[last] + Flatten([]);
  }

  lemma SliceGrown<T>(s: seq<T>, x: T, r: Range)
    requires ValidRange(r, |s|)
    ensures ValidRange(r, |s + [x]|) && Slice(s + [x], r) == Slice(s, r)
    ensures r.first + r.count == |s| ==>
      && ValidRange(Range(r.first, r.count + 1), |s + [x]|)
      && Slice(s + [x], Range(r.first, r.count + 1)) == Slice(s, r) + [x]
  {
    SliceOfPrefix(s, [x], r);
  }

  lemma LastPassEnds(g: Graph)
    requires Tidy(g) && g.passes != []
    ensures
      var p := g.passes[|g.passes| - 1];
      && p.draws.first + p.draws.count == |g.draws|
      && p.commands.first + p.commands.count == |g.commands|
  {
    var p := g.passes[|g.passes| - 1];
    assert ValidPass(g, p);
    LastRangeEnds(PassDraws(g), p.draws.first, p.draws.count);
    LastRangeEnds(PassCommands(g), p.commands.first, p.commands.count);
  }

  lemma EmitCommandRows(g: Graph, c: CommandRef)
    requires Tidy(g) && g.passes != []
    ensures
      var h, last := EmitCommand(g, c), |g.passes| - 1;
      && RangesValid(h)
      && PassDraws(h) == PassDraws(g)
      && PassCommands(h) == PassCommands(g)[last := PassCommands(g)[last] + [c]]
  {
    hide Flatten;
    var h, last := EmitCommand(g, c), |g.passes| - 1;
    LastPassEnds(g);
    forall i | 0 <= i < |g.passes|
      ensures ValidPass(h, h.passes[i])
      ensures PassCommands(h)[i] == if i == last then PassCommands(g)[i] + [c] else PassCommands(g)[i]
    {
      assert ValidPass(g, g.passes[i]);
      SliceGrown(g.commands, c, g.passes[i].commands);
    }
  }

  lemma EmitCommandTidy(g: Graph, c: CommandRef)
    requires Tidy(g) && g.passes != []
    ensures Tidy(EmitCommand(g, c))
  {
    hide Flatten, RangesValid, PassDraws, PassCommands, Slice;
    EmitCommandRows(g, c);
    GrowLast(PassCommands(g), c);
  }

  lemma EmitDrawRows(g: Graph, d: DrawRef)
    requires Tidy(g) && g.passes != []
    ensures
      var h, last := EmitDraw(g, d), |g.passes| - 1;
      && RangesValid(h)
      && PassCommands(h) == PassCommands(g)
      && PassDraws(h) == PassDraws(g)[last := PassDraws(g)[last] + [d]]
  {
    hide Flatten;
    var h, last := EmitDraw(g, d), |g.passes| - 1;
    LastPassEnds(g);
    forall i | 0 <= i < |g.passes|
      ensures ValidPass(h, h.passes[i])
      ensures PassDraws(h)[i] == if i == last then PassDraws(g)[i] + [d] else PassDraws(g)[i]
    {
      assert ValidPass(g, g.passes[i]);
      SliceGrown(g.draws, d, g.passes[i].draws);
    }
  }

  lemma EmitDrawTidy(g: Graph, d: DrawRef)
    requires Tidy(g) && g.passes != []
    ensures Tidy(EmitDraw(g, d))
  {
    hide Flatten, RangesValid, PassDraws, PassCommands, Slice;
    EmitDrawRows(g, d);
    GrowLast(PassDraws(g), d);
  }

  // ----- every render pass is recorded as writing its targets -----

  ghost predicate IsTarget(t: AttachmentSet, handle: nat) {
    handle != 0 && (handle == t.depth || exists i :: 0 <= i < t.colorCount && i < |t.color| && t.color[i] == handle)
  }

  /** Entry i of resource r is pass u writing `handle`. */
  ghost predicate WritesAt(g: Graph, u: nat, handle: nat, r: nat, i: nat) {
    && r < |g.resources| && i < |g.resources[r].accesses|
    && g.resources[r].handle == handle
    && g.resources[r].accesses[i].pass == u
    && Writes(g.resources[r].accesses[i].kind)
  }

  ghost predicate WritesResource(g: Graph, u: nat, handle: nat) {
    exists r: nat, i: nat :: WritesAt(g, u, handle, r, i)
  }

  ghost predicate TargetsWritten(g: Graph, alias: AliasResolver, u: nat)
    requires u < |g.passes|
  {
    g.passes[u].kind.Render? ==>
      forall handle: nat :: IsTarget(g.passes[u].targets, handle) && alias(handle) != 0 ==>
        WritesResource(g, u, alias(handle))
  }

  ghost predicate HandlesDistinct(g: Graph) {
    forall r, s :: 0 <= r < s < |g.resources| ==> g.resources[r].handle != g.resources[s].handle
  }

  /** `h` records at least what `g` records. */
  ghost predicate Extends(g: Graph, h: Graph) {
    forall u: nat, handle: nat :: WritesResource(g, u, handle) ==> WritesResource(h, u, handle)
  }

  lemma NotedExtends(g: Graph, handle: nat, kind: AccessKind, stage: nat)
    requires g.passes != [] && HandlesDistinct(g)
    ensures Extends(g, Noted(g, handle, kind, stage)) && HandlesDistinct(Noted(g, handle, kind, stage))
    ensures handle != 0 && Writes(kind) ==> WritesResource(Noted(g, handle, kind, stage), |g.passes| - 1, handle)
  {
    if handle != 0 {
      var h, i, log := Noted(g, handle, kind, stage), FindResource(g.resources, handle), LogOf(g, handle);
      assert h.resources[i].accesses[|log|] == Access(|g.passes| - 1, kind, stage);
      assert Writes(kind) ==> WritesAt(h, |g.passes| - 1, handle, i, |log|);
      forall u: nat, k: nat | WritesResource(g, u, k) ensures WritesResource(h, u, k) {
        var r: nat, t: nat :| WritesAt(g, u, k, r, t);
        assert WritesAt(h, u, k, r, t);
      }
    }
  }

  lemma {:induction false} NotedAllExtends(g: Graph, handles: seq<nat>, alias: AliasResolver, kind: AccessKind, stage: nat)
    requires g.passes != [] && HandlesDistinct(g)
    ensures Extends(g, NotedAll(g, handles, alias, kind, stage)) && HandlesDistinct(NotedAll(g, handles, alias, kind, stage))
    ensures Writes(kind) ==> forall k :: 0 <= k < |handles| && Resolve(alias, handles[k]) != 0 ==>
      WritesResource(NotedAll(g, handles, alias, kind, stage), |g.passes| - 1, Resolve(alias, handles[k]))
  {
    if handles != [] {
      var init, last := handles[..|handles| - 1], handles[|handles| - 1];
      NotedAllExtends(g, init, alias, kind, stage);
      NotedExtends(NotedAll(g, init, alias, kind, stage), Resolve(alias, last), kind, stage);
    }
  }

  // ----- the invariant of the whole build -----

  ghost predicate Consistent(g: Graph, alias: AliasResolver) {
    && Sound(g)
    && Tidy(g)
    && HandlesDistinct(g)
    && forall u :: 0 <= u < |g.passes| ==> TargetsWritten(g, alias, u)
  }

  /** Editing anything but kinds and targets, and recording more, keeps targets written. */
  lemma TargetsStayWritten(g: Graph, h: Graph, alias: AliasResolver, u: nat)
    requires u < |g.passes| && u < |h.passes| && TargetsWritten(g, alias, u) && Extends(g, h)
    requires h.passes[u].kind == g.passes[u].kind && h.passes[u].targets == g.passes[u].targets
    ensures TargetsWritten(h, alias, u)
  {
  }

  lemma NotedConsistent(g: Graph, alias: AliasResolver, handle: nat, kind: AccessKind, stage: nat)
    requires Consistent(g, alias) && g.passes != []
    ensures Consistent(Noted(g, handle, kind, stage), alias)
  {
    var h := Noted(g, handle, kind, stage);
    NotedSound(g, handle, kind, stage);
    NotedExtends(g, handle, kind, stage);
    TidySameRanges(g, h);
    forall u | 0 <= u < |h.passes| ensures TargetsWritten(h, alias, u) {
      TargetsStayWritten(g, h, alias, u);
    }
  }

  lemma {:induction false} NotedAllConsistent(g: Graph, handles: seq<nat>, resolver: AliasResolver, alias: AliasResolver,
                                              kind: AccessKind, stage: nat)
    requires Consistent(g, alias) && g.passes != []
    ensures Consistent(NotedAll(g, handles, resolver, kind, stage), alias)
  {
    if handles != [] {
      var init := handles[..|handles| - 1];
      NotedAllConsistent(g, init, resolver, alias, kind, stage);
      NotedConsistent(NotedAll(g, init, resolver, kind, stage), alias, Resolve(resolver, handles[|handles| - 1]), kind, stage);
    }
  }

  /** Edits that keep edges, logs, kinds and targets. */
  lemma EditConsistent(g: Graph, h: Graph, alias: AliasResolver)
    requires Consistent(g, alias) && Tidy(h)
    requires |h.passes| == |g.passes| && h.edges == g.edges && h.resources == g.resources
    requires forall u :: 0 <= u < |g.passes| ==>
      h.passes[u].kind == g.passes[u].kind && h.passes[u].targets == g.passes[u].targets
    ensures Consistent(h, alias)
  {
    SoundWithPasses(g, h);
    assert Extends(g, h) by {
      SameResourcesExtend(g, h);
    }
    forall u | 0 <= u < |h.passes| ensures TargetsWritten(h, alias, u) {
      assert TargetsWritten(g, alias, u);
      TargetsStayWritten(g, h, alias, u);
    }
  }

  lemma SameResourcesExtend(g: Graph, h: Graph)
    requires h.resources == g.resources
    ensures Extends(g, h)
  {
    forall u: nat, k: nat | WritesResource(g, u, k) ensures WritesResource(h, u, k) {
      var r: nat, t: nat :| WritesAt(g, u, k, r, t);
      assert WritesAt(h, u, k, r, t);
    }
  }

  lemma MarkReadbackConsistent(g: Graph, alias: AliasResolver, handle: nat)
    requires Consistent(g, alias)
    ensures Consistent(MarkReadback(g, handle), alias)
  {
    var h := MarkReadback(g, handle);
    MarkReadbackSound(g, handle);
    TidySameRanges(g, h);
    forall u: nat, k: nat | WritesResource(g, u, k) ensures WritesResource(h, u, k) {
      var r: nat, t: nat :| WritesAt(g, u, k, r, t);
      assert WritesAt(h, u, k, r, t);
    }
    forall u | 0 <= u < |h.passes| ensures TargetsWritten(h, alias, u) {
      assert TargetsWritten(g, alias, u);
      TargetsStayWritten(g, h, alias, u);
    }
  }

  /** A new pass that draws to nothing yet recorded. */
  lemma StandaloneConsistent(g: Graph, alias: AliasResolver, kind: PassKind, index: nat, command: CommandKind)
    requires Consistent(g, alias) && !kind.Render?
    ensures Consistent(Standalone(g, kind, index, command), alias)
  {
    var p := OpenPass(g, kind, NO_TARGETS, 0);
    OpenPassTidy(g, kind, NO_TARGETS, 0);
    SoundWithPasses(g, p);
    SameResourcesExtend(g, p);
    forall u | 0 <= u < |p.passes| ensures TargetsWritten(p, alias, u) {
      if u < |g.passes| {
        assert TargetsWritten(g, alias, u);
        TargetsStayWritten(g, p, alias, u);
      }
    }
    EmitCommandTidy(p, CommandRef(index, command));
    EditConsistent(p, EmitCommand(p, CommandRef(index, command)), alias);
  }

  lemma AttachedWrites(g: Graph, t: AttachmentSet, alias: AliasResolver, colorKind: AccessKind, depthKind: AccessKind)
    requires HandlesDistinct(g) && g.passes != [] && TargetsFit(t) && Writes(colorKind) && Writes(depthKind)
    ensures HandlesDistinct(Attached(g, t, alias, colorKind, depthKind))
    ensures Extends(g, Attached(g, t, alias, colorKind, depthKind))
    ensures forall handle: nat :: IsTarget(t, handle) && alias(handle) != 0 ==>
      WritesResource(Attached(g, t, alias, colorKind, depthKind), |g.passes| - 1, alias(handle))
  {
    var colors := t.color[..t.colorCount];
    var colored := NotedAll(g, colors, alias, colorKind, FRAGMENT);
    var h := Attached(g, t, alias, colorKind, depthKind);
    NotedAllExtends(g, colors, alias, colorKind, FRAGMENT);
    NotedExtends(colored, Resolve(alias, t.depth), depthKind, FRAGMENT);
    ExtendsTransitive(g, colored, h);
    hide Noted, NotedAll, HandlesDistinct, WritesResource;
    forall handle: nat | IsTarget(t, handle) && alias(handle) != 0
      ensures WritesResource(h, |g.passes| - 1, alias(handle))
    {
      if handle != t.depth {
        var k :| 0 <= k < t.colorCount && t.color[k] == handle;
        assert colors[k] == handle;
        assert WritesResource(colored, |g.passes| - 1, alias(handle));
      }
    }
  }

  lemma AttachedSound(g: Graph, t: AttachmentSet, alias: AliasResolver, colorKind: AccessKind, depthKind: AccessKind)
    requires Sound(g) && Tidy(g) && g.passes != [] && TargetsFit(t)
    ensures Sound(Attached(g, t, alias, colorKind, depthKind)) && Tidy(Attached(g, t, alias, colorKind, depthKind))
  {
    var colors := t.color[..t.colorCount];
    NotedAllSound(g, colors, alias, colorKind, FRAGMENT);
    NotedSound(NotedAll(g, colors, alias, colorKind, FRAGMENT), Resolve(alias, t.depth), depthKind, FRAGMENT);
    TidySameRanges(g, Attached(g, t, alias, colorKind, depthKind));
  }

  lemma AttachedConsistent(g: Graph, g0: Graph, t: AttachmentSet, alias: AliasResolver,
                           colorKind: AccessKind, depthKind: AccessKind)
    requires Consistent(g0, alias) && TargetsFit(t) && Writes(colorKind) && Writes(depthKind)
    requires Sound(g) && Tidy(g) && |g.passes| == |g0.passes| + 1 && g.resources == g0.resources
    requires forall u :: 0 <= u < |g0.passes| ==>
      g.passes[u].kind == g0.passes[u].kind && g.passes[u].targets == g0.passes[u].targets
    requires g.passes[|g0.passes|].targets == t
    ensures Consistent(Attached(g, t, alias, colorKind, depthKind), alias)
  {
    hide Sound, Tidy, Extends, WritesResource, IsTarget;
    var h := Attached(g, t, alias, colorKind, depthKind);
    AttachedSound(g, t, alias, colorKind, depthKind);
    AttachedWrites(g, t, alias, colorKind, depthKind);
    SameResourcesExtend(g0, g);
    ExtendsTransitive(g0, g, h);
    forall u | 0 <= u < |h.passes| ensures TargetsWritten(h, alias, u) {
      if u < |g0.passes| {
        assert TargetsWritten(g0, alias, u);
        TargetsStayWritten(g0, h, alias, u);
      }
    }
  }

  lemma ExtendsTransitive(a: Graph, b: Graph, c: Graph)
    requires Extends(a, b) && Extends(b, c)
    ensures Extends(a, c)
  {
  }

  lemma FreshPassConsistent(g: Graph, alias: AliasResolver, targets: AttachmentSet, profile: nat)
    requires Consistent(g, alias) && TargetsFit(targets)
    ensures Consistent(Attached(OpenPass(g, Render, targets, profile), targets, alias, Write, Write), alias)
    ensures Attached(OpenPass(g, Render, targets, profile), targets, alias, Write, Write).passes != []
  {
    var started := OpenPass(g, Render, targets, profile);
    OpenPassTidy(g, Render, targets, profile);
    SoundWithPasses(g, started);
    hide Sound, Tidy, HandlesDistinct, TargetsWritten;
    AttachedConsistent(started, g, targets, alias, Write, Write);
  }

  lemma DrawPassConsistent(s: BuilderState, alias: AliasResolver, c: SourceCommand)
    requires c.DrawSource? && TargetsFit(c.targets) && StateFits(s) && Consistent(s.graph, alias)
    ensures Consistent(DrawPass(s, alias, c), alias) && DrawPass(s, alias, c).passes != []
  {
    var g := s.graph;
    if !s.open || g.passes[s.current].targets != c.targets {
      hide Consistent, Attached;
      FreshPassConsistent(g, alias, c.targets, c.profile);
    } else if g.passes[s.current].stateProfile == 0 {
      TidySameRanges(g, DrawPass(s, alias, c));
      EditConsistent(g, DrawPass(s, alias, c), alias);
    }
  }

  lemma AppendDrawConsistent(g: Graph, alias: AliasResolver, textures: seq<nat>, d: DrawRef, c: CommandRef)
    requires Consistent(g, alias) && g.passes != []
    ensures Consistent(EmitCommand(EmitDraw(NotedAll(g, textures, Identity(), Read, FRAGMENT), d), c), alias)
  {
    var g2 := NotedAll(g, textures, Identity(), Read, FRAGMENT);
    NotedAllConsistent(g, textures, Identity(), alias, Read, FRAGMENT);
    EmitDrawTidy(g2, d);
    EditConsistent(g2, EmitDraw(g2, d), alias);
    EmitCommandTidy(EmitDraw(g2, d), c);
    EditConsistent(EmitDraw(g2, d), EmitCommand(EmitDraw(g2, d), c), alias);
  }

  lemma BuildDrawConsistent(s: BuilderState, alias: AliasResolver, index: nat, c: SourceCommand)
    requires c.DrawSource? && TargetsFit(c.targets) && StateFits(s) && Consistent(s.graph, alias)
    ensures Consistent(BuildDraw(s, alias, index, c).graph, alias)
  {
    if c.present {
      DrawPassConsistent(s, alias, c);
      AppendDrawConsistent(DrawPass(s, alias, c), alias, c.textures,
                           DrawRef(index, c.paramFirst, c.paramCount), CommandRef(index, DrawRun));
    }
  }

  lemma BuildClearConsistent(s: BuilderState, alias: AliasResolver, index: nat, c: SourceCommand)
    requires c.ClearSource? && CommandFits(c) && Consistent(s.graph, alias)
    ensures Consistent(BuildClear(s, alias, index, c).graph, alias)
  {
    if c.present {
      var g := s.graph;
      var p := OpenPass(g, Render, c.targets, 0);
      OpenPassTidy(g, Render, c.targets, 0);
      EmitCommandTidy(p, CommandRef(index, Clear));
      var started := EmitCommand(p, CommandRef(index, Clear));
      SoundWithPasses(g, started);
      AttachedConsistent(started, g, c.targets, alias, ClearKind(c.partial, true), ClearKind(c.partial, c.coversDepth));
    }
  }

  lemma BlittedConsistent(s: BuilderState, alias: AliasResolver, index: nat, kind: CommandKind, source: nat, dest: nat)
    requires Consistent(s.graph, alias)
    ensures Consistent(Blitted(s, alias, index, kind, source, dest).graph, alias)
  {
    StandaloneConsistent(s.graph, alias, Blit, index, kind);
    var g := Standalone(s.graph, Blit, index, kind);
    NotedConsistent(g, alias, Resolve(alias, source), Read, COPY);
    NotedConsistent(Noted(g, Resolve(alias, source), Read, COPY), alias, Resolve(alias, dest), Write, COPY);
  }

  /** Every source command keeps the graph consistent. */
  lemma BuildStepConsistent(s: BuilderState, alias: AliasResolver, index: nat, c: SourceCommand)
    requires CommandFits(c) && StateFits(s) && Consistent(s.graph, alias)
    ensures Consistent(BuildStep(s, alias, index, c).graph, alias)
  {
    match c
    case DrawSource(_, _, _, _, _, _) => BuildDrawConsistent(s, alias, index, c);
    case ClearSource(_, _, _, _) => BuildClearConsistent(s, alias, index, c);
    case PresentSource(source) =>
      StandaloneConsistent(s.graph, alias, PassKind.Present, index, PresentCommand);
      NotedConsistent(Standalone(s.graph, PassKind.Present, index, PresentCommand), alias, alias(source), Read, COPY);
    case CopySource(_, source, dest) => BlittedConsistent(s, alias, index, SurfaceCopy, source, dest);
    case StretchSource(_, source, dest) => BlittedConsistent(s, alias, index, StretchRect, source, dest);
    case FillSource(_, dest) => BlittedConsistent(s, alias, index, ColorFill, 0, dest);
    case ResolveSource(_, multisampled, dest) => BlittedConsistent(s, alias, index, DepthResolve, multisampled, dest);
    case MipmapSource(_, texture) =>
      StandaloneConsistent(s.graph, alias, Blit, index, GenerateMipmaps);
      NotedConsistent(Standalone(s.graph, Blit, index, GenerateMipmaps), alias, texture, ReadWrite, COPY);
    case ReadbackSource(_, source) =>
      StandaloneConsistent(s.graph, alias, Blit, index, Readback);
      var g := Standalone(s.graph, Blit, index, Readback);
      NotedConsistent(g, alias, Resolve(alias, source), Read, COPY);
      MarkReadbackConsistent(Noted(g, Resolve(alias, source), Read, COPY), alias, source);
  }

  /** Every graph the builder can produce is consistent. */
  lemma {:induction false} BuiltConsistent(cs: seq<SourceCommand>, alias: AliasResolver)
    requires StreamFits(cs)
    ensures Consistent(Built(cs, alias).graph, alias)
  {
    if cs != [] {
      BuiltConsistent(cs[..|cs| - 1], alias);
      BuildStepConsistent(Built(cs[..|cs| - 1], alias), alias, |cs| - 1, cs[|cs| - 1]);
    }
  }

  // ----- what pass coalescing needs of a built graph -----

  /** Every render pass has an attachment the resolver knows. */
  ghost predicate AllAttached(g: Graph, alias: AliasResolver) {
    forall u :: 0 <= u < |g.passes| && g.passes[u].kind.Render? ==>
      exists handle: nat :: IsTarget(g.passes[u].targets, handle) && alias(handle) != 0
  }

  /** Two render passes with the same attachments are joined by a path. */
  lemma ConsistentOrdersTargets(g: Graph, alias: AliasResolver)
    requires Consistent(g, alias) && AllAttached(g, alias)
    ensures forall u: nat, v: nat ::
      && u < v < |g.passes| && LiveRender(g.passes[u]) && LiveRender(g.passes[v])
      && g.passes[u].targets == g.passes[v].targets
      ==> Reaches(g, u, v)
    ensures SameTargetsOrdered(g)
  {
    forall u: nat, v: nat
      | && u < v < |g.passes| && LiveRender(g.passes[u]) && LiveRender(g.passes[v])
        && g.passes[u].targets == g.passes[v].targets
      ensures Reaches(g, u, v)
    {
      var handle: nat :| IsTarget(g.passes[u].targets, handle) && alias(handle) != 0;
      assert TargetsWritten(g, alias, u) && TargetsWritten(g, alias, v);
      SharedWriteReaches(g, u, v, alias(handle));
    }
  }

  lemma SharedWriteReaches(g: Graph, u: nat, v: nat, handle: nat)
    requires Sound(g) && HandlesDistinct(g) && u < v < |g.passes|
    requires WritesResource(g, u, handle) && WritesResource(g, v, handle)
    ensures Reaches(g, u, v)
  {
    var r: nat, i: nat :| WritesAt(g, u, handle, r, i);
    var s: nat, j: nat :| WritesAt(g, v, handle, s, j);
    assert r == s;
    assert LogOrdered(g, g.resources[r].accesses);
    assert Conflict(g.resources[r].accesses[i], g.resources[r].accesses[j]);
  }

  lemma PackedOwnsOnce(g: Graph)
    requires Packed(g)
    ensures OwnedOnce(g)
  {
  }

  /**
    The whole way: a frame built from any command stream, then merged to a
    fixpoint, runs like the frame as built, on every machine whose passes commute
    when their recorded accesses do not conflict; it holds the same draws and
    commands. Where every render pass has an attachment the resolver knows, its
    merged passes keep submission order.
   */
  lemma OptimizedStreamRunsAlike<S(!new)>(m: Machine<S>, cs: seq<SourceCommand>, alias: AliasResolver, st: S)
    requires StreamFits(cs) && |Built(cs, alias).graph.passes| <= NO_PASS
    requires HonoursLogs(m, Built(cs, alias).graph)
    ensures
      var g := Built(cs, alias).graph;
      && WellFormed(g)
      && Run(m, Coalesced(g), st) == Run(m, g, st)
      && multiset(Coalesced(g).draws) == multiset(g.draws)
      && multiset(Coalesced(g).commands) == multiset(g.commands)
      && HazardComplete(Coalesced(g))
      && Descends(g, Coalesced(g), Origins(g))
      && (AllAttached(g, alias) ==>
            forall j, s, t :: 0 <= j < |Origins(g)| && 0 <= s < t < |Origins(g)[j]| ==> Origins(g)[j][s] < Origins(g)[j][t])
  {
    var g := Built(cs, alias).graph;
    BuiltConsistent(cs, alias);
    hide Built, TargetsWritten, HandlesDistinct, AllAttached, Run, Coalesced, Origins, Descends, OwnedOnce, Packed;
    SoundForward(g);
    CoalescedFrameRunsAlike(m, g, st);
    PackedOwnsOnce(g);
    CoalescedConserves(g);
    CoalescedHazards(g);
    CoalescedDescends(g);
    if AllAttached(g, alias) {
      ConsistentOrdersTargets(g, alias);
      CoalescedKeepsSubmissionOrder(g);
    }
  }

  /**
    A finding about readbacks: the bit is set on the node of the named handle, not
    on the node the read was recorded under. That one has it exactly when it had it
    before or the handle is its own alias.
   */
  lemma ReadbackMarksRecordedNode(s: BuilderState, alias: AliasResolver, index: nat, source: nat)
    requires StateFits(s) && source != 0 && alias(source) != 0
    ensures
      var was := FindResource(s.graph.resources, alias(source));
      var g := BuildStep(s, alias, index, ReadbackSource(true, source)).graph;
      var node := FindResource(g.resources, alias(source));
      && node < |g.resources|
      && (g.resources[node].readbackSeen <==>
            alias(source) == source || (was < |s.graph.resources| && s.graph.resources[was].readbackSeen))
  {
    var handle, before := alias(source), Standalone(s.graph, Blit, index, Readback);
    var read := Noted(before, handle, Read, COPY);
    var i := FindResource(s.graph.resources, handle);
    FindIsFirst(read.resources, handle, i);
    var g := MarkReadback(read, source);
    FindIsFirst(g.resources, handle, i);
  }

  lemma {:induction false} FindIsFirst(rs: seq<Resource>, handle: nat, i: nat)
    requires i < |rs| && rs[i].handle == handle && forall k :: 0 <= k < i ==> rs[k].handle != handle
    ensures FindResource(rs, handle) == i
  {
    if i > 0 {
      FindIsFirst(rs[1..], handle, i - 1);
    }
  }

  // ----- the builder itself -----

  class Builder {
    const alias: AliasResolver
    const graph: FrameGraph
    var currentPass: nat
    var openRenderPass: bool

    ghost function State(): BuilderState
      reads this, graph
    {
      BuilderState(graph.Value(), currentPass, openRenderPass)
    }

    constructor (alias: AliasResolver)
      ensures fresh(graph) && this.alias == alias
      ensures State() == BuilderState(EMPTY_GRAPH, 0, false)
    {
      this.alias := alias;
      graph := new FrameGraph(EMPTY_GRAPH);
      currentPass, openRenderPass := 0, false;
    }

    method OpenRenderPass(kind: PassKind, targets: AttachmentSet, profile: nat)
      modifies this, graph
      ensures graph.Value() == OpenPass(old(graph.Value()), kind, targets, profile)
      ensures currentPass == |graph.passes| - 1 && openRenderPass == kind.Render?
    {
      graph.passes := graph.passes + [PassNode(kind, targets, Range(|graph.draws|, 0), Range(|graph.commands|, 0),
                                               profile, 0, NO_FLAGS)];
      currentPass := |graph.passes| - 1;
      openRenderPass := kind.Render?;
    }

    method AppendCommand(c: CommandRef)
      requires graph.passes != []
      modifies graph
      ensures graph.Value() == EmitCommand(old(graph.Value()), c)
    {
      var last := |graph.passes| - 1;
      var p := graph.passes[last];
      graph.commands := graph.commands + [c];
      graph.passes := graph.passes[last := p.(commands := Range(p.commands.first, p.commands.count + 1))];
    }

    method AppendDraw(d: DrawRef)
      requires graph.passes != []
      modifies graph
      ensures graph.Value() == EmitDraw(old(graph.Value()), d)
    {
      var last := |graph.passes| - 1;
      var p := graph.passes[last];
      graph.draws := graph.draws + [d];
      graph.passes := graph.passes[last := p.(draws := Range(p.draws.first, p.draws.count + 1))];
    }

    method NoteAccess(handle: nat, kind: AccessKind, stage: nat)
      requires graph.passes != []
      modifies graph
      ensures graph.Value() == Noted(old(graph.Value()), handle, kind, stage)
    {
      if handle == 0 {
        return;
      }
      var pass := |graph.passes| - 1;
      var i := FindResource(graph.resources, handle);
      if i == |graph.resources| {
        graph.resources := graph.resources + [Resource(handle, [], false)];
      }
      var node := graph.resources[i];
      var edges := AddDependencyEdges(graph.edges, node.accesses, pass, kind, handle);
      graph.edges := edges;
      graph.resources := graph.resources[i := node.(accesses := node.accesses + [Access(pass, kind, stage)])];
    }

    method NoteAll(handles: seq<nat>, resolver: AliasResolver, kind: AccessKind, stage: nat)
      requires graph.passes != []
      modifies graph
      ensures graph.Value() == NotedAll(old(graph.Value()), handles, resolver, kind, stage)
    {
      ghost var g := graph.Value();
      for k := 0 to |handles|
        invariant graph.passes == g.passes
        invariant graph.Value() == NotedAll(g, handles[..k], resolver, kind, stage)
      {
        NoteAccess(Resolve(resolver, handles[k]), kind, stage);
        assert handles[..k + 1][..k] == handles[..k];
      }
      assert handles[..|handles|] == handles;
    }

    method RecordAttachments(t: AttachmentSet, colorKind: AccessKind, depthKind: AccessKind)
      requires graph.passes != [] && TargetsFit(t)
      modifies graph
      ensures graph.Value() == Attached(old(graph.Value()), t, alias, colorKind, depthKind)
    {
      NoteAll(t.color[..t.colorCount], alias, colorKind, FRAGMENT);
      NoteAccess(Resolve(alias, t.depth), depthKind, FRAGMENT);
    }

    method HandleDraw(index: nat, c: SourceCommand)
      requires c.DrawSource? && TargetsFit(c.targets) && StateFits(State())
      modifies this, graph
      ensures State() == BuildDraw(old(State()), alias, index, c)
    {
      if !c.present {
        return;
      }
      if !openRenderPass || graph.passes[currentPass].targets != c.targets {
        OpenRenderPass(Render, c.targets, c.profile);
        RecordAttachments(c.targets, Write, Write);
      } else if graph.passes[currentPass].stateProfile == 0 {
        graph.passes := graph.passes[currentPass := graph.passes[currentPass].(stateProfile := c.profile)];
      }
      NoteAll(c.textures, Identity(), Read, FRAGMENT);
      AppendDraw(DrawRef(index, c.paramFirst, c.paramCount));
      AppendCommand(CommandRef(index, DrawRun));
    }

    method HandleClear(index: nat, c: SourceCommand)
      requires c.ClearSource? && TargetsFit(c.targets)
      modifies this, graph
      ensures State() == BuildClear(old(State()), alias, index, c)
    {
      if !c.present {
        return;
      }
      OpenRenderPass(Render, c.targets, 0);
      AppendCommand(CommandRef(index, Clear));
      RecordAttachments(c.targets, ClearKind(c.partial, true), ClearKind(c.partial, c.coversDepth));
    }

    method EmitStandalone(kind: PassKind, index: nat, command: CommandKind)
      requires !kind.Render?
      modifies this`openRenderPass, graph
      ensures graph.Value() == Standalone(old(graph.Value()), kind, index, command)
      ensures !openRenderPass
    {
      openRenderPass := false;
      graph.passes := graph.passes + [PassNode(kind, NO_TARGETS, Range(|graph.draws|, 0), Range(|graph.commands|, 0),
                                               0, 0, NO_FLAGS)];
      AppendCommand(CommandRef(index, command));
    }

    method EmitBlit(index: nat, kind: CommandKind, source: nat, dest: nat)
      modifies this, graph
      ensures State() == Blitted(old(State()), alias, index, kind, source, dest)
    {
      EmitStandalone(Blit, index, kind);
      currentPass := |graph.passes| - 1;
      NoteAccess(Resolve(alias, source), Read, COPY);
      NoteAccess(Resolve(alias, dest), Write, COPY);
    }

    method Handle(index: nat, c: SourceCommand)
      requires CommandFits(c) && StateFits(State())
      modifies this, graph
      ensures State() == BuildStep(old(State()), alias, index, c)
    {
      match c
      case DrawSource(_, _, _, _, _, _) => HandleDraw(index, c);
      case ClearSource(_, _, _, _) => HandleClear(index, c);
      case PresentSource(source) =>
        EmitStandalone(PassKind.Present, index, PresentCommand);
        if source != 0 {
          currentPass := |graph.passes| - 1;
          NoteAccess(alias(source), Read, COPY);
        }
      case CopySource(present, source, dest) =>
        if present {
          EmitBlit(index, SurfaceCopy, source, dest);
        }
      case StretchSource(present, source, dest) =>
        if present {
          EmitBlit(index, StretchRect, source, dest);
        }
      case FillSource(present, dest) =>
        if present {
          EmitBlit(index, ColorFill, 0, dest);
        }
      case ResolveSource(present, multisampled, dest) =>
        if present {
          EmitBlit(index, DepthResolve, multisampled, dest);
        }
      case MipmapSource(present, texture) =>
        if present {
          EmitStandalone(Blit, index, GenerateMipmaps);
          currentPass := |graph.passes| - 1;
          NoteAccess(texture, ReadWrite, COPY);
        }
      case ReadbackSource(present, source) =>
        if present {
          EmitStandalone(Blit, index, Readback);
          currentPass := |graph.passes| - 1;
          NoteAccess(Resolve(alias, source), Read, COPY);
          if source != 0 {
            MarkReadbackSeen(source);
          }
        }
    }

    method MarkReadbackSeen(handle: nat)
      modifies graph`resources
      ensures graph.Value() == MarkReadback(old(graph.Value()), handle)
    {
      var i := FindResource(graph.resources, handle);
      if i == |graph.resources| {
        graph.resources := graph.resources + [Resource(handle, [], false)];
      }
      graph.resources := graph.resources[i := graph.resources[i].(readbackSeen := true)];
    }
  }

  /** Build the frame of a whole stream. */
  method BuildFrameGraph(cs: seq<SourceCommand>, alias: AliasResolver) returns (graph: FrameGraph)
    requires StreamFits(cs)
    ensures fresh(graph) && graph.Value() == Built(cs, alias).graph
    ensures Consistent(graph.Value(), alias)
  {
    var builder := new Builder(alias);
    for i := 0 to |cs|
      invariant fresh(builder) && fresh(builder.graph) && builder.alias == alias
      invariant builder.State() == Built(cs[..i], alias)
    {
      assert cs[..i + 1][..i] == cs[..i];
      builder.Handle(i, cs[i]);
    }
    assert cs[..|cs|] == cs;
    BuiltConsistent(cs, alias);
    graph := builder.graph;
  }
}
