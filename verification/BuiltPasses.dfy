/**
  Which pass of a built frame holds which source command, and what each pass is: its
  kind, targets, profile and draws are those of the commands it holds, and a command
  shares the pass of the one before it exactly when it is a draw to the same targets.
 */
module BuiltPasses {
  import opened Sequences
  import opened FrameGraphs
  import opened Provenance
  import opened Fixpoint
  import opened Hazards
  import opened FrameBuilder
  import opened ReplayPlans

  /** Whether the draw opens a pass of its own. */
  ghost predicate Opens(s: BuilderState, c: SourceCommand)
    requires c.DrawSource? && StateFits(s)
  {
    !s.open || s.graph.passes[s.current].targets != c.targets
  }

  lemma AttachedPasses(g: Graph, t: AttachmentSet, alias: AliasResolver, colorKind: AccessKind, depthKind: AccessKind)
    requires g.passes != [] && TargetsFit(t)
    ensures
      var h := Attached(g, t, alias, colorKind, depthKind);
      h.passes == g.passes && h.draws == g.draws && h.commands == g.commands
  {
  }

  // ----- which pass holds which command -----

  ghost predicate InRow(rows: seq<seq<CommandRef>>, u: nat, i: nat) {
    u < |rows| && i in Indices(rows[u])
  }

  /** Pass u holds source command i. */
  ghost predicate Holds(g: Graph, u: nat, i: nat) {
    InRow(PassCommands(g), u, i)
  }

  /** The rows hold the first k commands, those skipped apart, in stream order along and across rows. */
  ghost predicate Filed(cs: seq<SourceCommand>, k: nat, rows: seq<seq<CommandRef>>) {
    && k <= |cs|
    && (forall u: nat, i: nat :: InRow(rows, u, i) ==> i < k && !Skipped(cs[i]))
    && (forall i: nat :: i < k && !Skipped(cs[i]) ==> exists u: nat :: InRow(rows, u, i))
    && (forall u :: 0 <= u < |rows| ==> Ascending(Indices(rows[u])))
    && (forall u: nat, v: nat, i: nat, j: nat :: u < v && InRow(rows, u, i) && InRow(rows, v, j) ==> i < j)
  }

  ghost predicate Ascending(s: seq<nat>) {
    forall p, q :: 0 <= p < q < |s| ==> s[p] < s[q]
  }

  /** The rows with one more command: in the last row, or in a row of its own. */
  function MoreRows(rows: seq<seq<CommandRef>>, c: CommandRef, joins: bool): seq<seq<CommandRef>>
    requires joins ==> rows != []
  {
    if joins then rows[|rows| - 1 := rows[|rows| - 1] + [c]] else rows + [[c]]
  }

  lemma MoreInRow(rows: seq<seq<CommandRef>>, c: CommandRef, joins: bool, u: nat, i: nat)
    requires joins ==> rows != []
    ensures
      var more := MoreRows(rows, c, joins);
      && more != []
      && (InRow(more, u, i) <==> InRow(rows, u, i) || (u == |more| - 1 && i == c.commandIndex))
  {
    var more := MoreRows(rows, c, joins);
    if joins {
      IndicesAppend(rows[|rows| - 1], [c]);
    }
    assert Indices([c]) == [c.commandIndex];
    hide Indices;
  }

  lemma FiledNext(cs: seq<SourceCommand>, k: nat, rows: seq<seq<CommandRef>>, c: CommandRef, joins: bool)
    requires Filed(cs, k, rows) && k < |cs| && !Skipped(cs[k]) && c.commandIndex == k && (joins ==> rows != [])
    ensures Filed(cs, k + 1, MoreRows(rows, c, joins))
  {
    var more := MoreRows(rows, c, joins);
    hide InRow, Indices, Skipped;
    forall u: nat, i: nat ensures InRow(more, u, i) <==> InRow(rows, u, i) || (u == |more| - 1 && i == k) {
      MoreInRow(rows, c, joins, u, i);
    }
    RowsInside(rows);
    forall u | 0 <= u < |more| ensures Ascending(Indices(more[u])) {
      AscendingNext(cs, k, rows, c, joins, u);
    }
    forall i: nat | i < k + 1 && !Skipped(cs[i]) ensures exists u: nat :: InRow(more, u, i) {
      if i < k {
        var u: nat :| InRow(rows, u, i);
        assert InRow(more, u, i);
      } else {
        assert InRow(more, |more| - 1, k);
      }
    }
    hide Ascending, MoreRows;
  }

  lemma RowsInside(rows: seq<seq<CommandRef>>)
    ensures forall u: nat, i: nat :: InRow(rows, u, i) ==> u < |rows|
  {
  }

  lemma AscendingNext(cs: seq<SourceCommand>, k: nat, rows: seq<seq<CommandRef>>, c: CommandRef, joins: bool, u: nat)
    requires Filed(cs, k, rows) && c.commandIndex == k && (joins ==> rows != []) && u < |MoreRows(rows, c, joins)|
    ensures Ascending(Indices(MoreRows(rows, c, joins)[u]))
  {
    if u < |rows| {
      var row := Indices(rows[u]);
      assert Ascending(row);
      forall p | 0 <= p < |row| ensures row[p] < k {
        assert InRow(rows, u, row[p]);
      }
      IndicesAppend(rows[u], [c]);
    }
  }

  lemma FiledSkip(cs: seq<SourceCommand>, k: nat, rows: seq<seq<CommandRef>>)
    requires Filed(cs, k, rows) && k < |cs| && Skipped(cs[k])
    ensures Filed(cs, k + 1, rows)
  {
  }

  // ----- rows of one step -----

  ghost predicate JoinsPass(s: BuilderState, c: SourceCommand)
    requires StateFits(s)
  {
    c.DrawSource? && !Opens(s, c)
  }

  lemma OpenPassRows(g: Graph, kind: PassKind, targets: AttachmentSet, profile: nat)
    requires Tidy(g)
    ensures
      var h := OpenPass(g, kind, targets, profile);
      Tidy(h) && PassCommands(h) == PassCommands(g) + [[]] && PassDraws(h) == PassDraws(g) + [[]]
  {
    OpenPassTidy(g, kind, targets, profile);
  }

  lemma SameRowsOf(g: Graph, h: Graph)
    requires Tidy(g) && |h.passes| == |g.passes| && h.draws == g.draws && h.commands == g.commands
    requires forall i :: 0 <= i < |g.passes| ==>
      && h.passes[i].draws == g.passes[i].draws
      && h.passes[i].commands == g.passes[i].commands
      && h.passes[i].flags == g.passes[i].flags
    ensures Tidy(h) && PassCommands(h) == PassCommands(g) && PassDraws(h) == PassDraws(g)
  {
    TidySameRanges(g, h);
  }

  /** A fresh row that then takes one command. */
  lemma FreshRow<T>(rows: seq<seq<T>>, x: T)
    ensures
      var begun := rows + [[]];
      begun[|rows| := begun[|rows|] + [x]] == rows + [[x]]
  {
    var none: seq<T> := [];
    assert (rows + [none])[|rows|] + [x] == [x];
  }

  lemma StandaloneRows(g: Graph, kind: PassKind, index: nat, command: CommandKind)
    requires Tidy(g)
    ensures
      var h := Standalone(g, kind, index, command);
      && Tidy(h) && PassCommands(h) == MoreRows(PassCommands(g), CommandRef(index, command), false)
      && PassDraws(h) == PassDraws(g) + [[]]
  {
    hide Tidy;
    OpenPassRows(g, kind, NO_TARGETS, 0);
    var p, c := OpenPass(g, kind, NO_TARGETS, 0), CommandRef(index, command);
    EmitCommandRows(p, c);
    EmitCommandTidy(p, c);
    FreshRow(PassCommands(g), c);
  }

  lemma NotedRows(g: Graph, handle: nat, kind: AccessKind, stage: nat)
    requires Tidy(g) && g.passes != []
    ensures
      var h := Noted(g, handle, kind, stage);
      h.passes == g.passes && Tidy(h) && PassCommands(h) == PassCommands(g) && PassDraws(h) == PassDraws(g)
  {
    SameRowsOf(g, Noted(g, handle, kind, stage));
  }

  /** The draw references a row of draws grows by. */
  function MoreDraws(rows: seq<seq<DrawRef>>, c: SourceCommand, index: nat, joins: bool): seq<seq<DrawRef>>
    requires joins ==> rows != []
  {
    var own := if c.DrawSource? then [DrawRef(index, c.paramFirst, c.paramCount)] else [];
    if joins then rows[|rows| - 1 := rows[|rows| - 1] + own] else rows + [own]
  }

  /** One command, its reference and its draws filed in the newest pass. */
  ghost predicate RowsGrow(s: BuilderState, h: Graph, index: nat, c: SourceCommand)
    requires StateFits(s)
  {
    && Tidy(h)
    && PassCommands(h) == MoreRows(PassCommands(s.graph), CommandRef(index, KindOf(c)), JoinsPass(s, c))
    && PassDraws(h) == MoreDraws(PassDraws(s.graph), c, index, JoinsPass(s, c))
  }

  lemma StepRows(s: BuilderState, alias: AliasResolver, index: nat, c: SourceCommand)
    requires CommandFits(c) && StateFits(s) && !Skipped(c) && Tidy(s.graph)
    ensures RowsGrow(s, BuildStep(s, alias, index, c).graph, index, c)
  {
    hide Tidy, Noted, Opens;
    match c
    case DrawSource(_, _, _, _, _, _) => DrawRows(s, alias, index, c);
    case ClearSource(_, _, _, _) => ClearRows(s, alias, index, c);
    case PresentSource(source) =>
      StandaloneRows(s.graph, PassKind.Present, index, PresentCommand);
      NotedRows(Standalone(s.graph, PassKind.Present, index, PresentCommand), alias(source), Read, COPY);
    case CopySource(_, source, dest) => BlittedRows(s, alias, index, SurfaceCopy, source, dest);
    case StretchSource(_, source, dest) => BlittedRows(s, alias, index, StretchRect, source, dest);
    case FillSource(_, dest) => BlittedRows(s, alias, index, ColorFill, 0, dest);
    case ResolveSource(_, multisampled, dest) => BlittedRows(s, alias, index, DepthResolve, multisampled, dest);
    case MipmapSource(_, texture) =>
      StandaloneRows(s.graph, Blit, index, GenerateMipmaps);
      NotedRows(Standalone(s.graph, Blit, index, GenerateMipmaps), texture, ReadWrite, COPY);
    case ReadbackSource(_, source) =>
      StandaloneRows(s.graph, Blit, index, Readback);
      var g := Standalone(s.graph, Blit, index, Readback);
      NotedRows(g, Resolve(alias, source), Read, COPY);
      var read := Noted(g, Resolve(alias, source), Read, COPY);
      SameRowsOf(read, MarkReadback(read, source));
  }

  lemma BlittedRows(s: BuilderState, alias: AliasResolver, index: nat, kind: CommandKind, source: nat, dest: nat)
    requires Tidy(s.graph)
    ensures
      var h := Blitted(s, alias, index, kind, source, dest).graph;
      && Tidy(h) && PassCommands(h) == MoreRows(PassCommands(s.graph), CommandRef(index, kind), false)
      && PassDraws(h) == PassDraws(s.graph) + [[]]
  {
    hide Tidy, Noted;
    StandaloneRows(s.graph, Blit, index, kind);
    var g := Standalone(s.graph, Blit, index, kind);
    NotedRows(g, Resolve(alias, source), Read, COPY);
    NotedRows(Noted(g, Resolve(alias, source), Read, COPY), Resolve(alias, dest), Write, COPY);
  }

  lemma ClearRows(s: BuilderState, alias: AliasResolver, index: nat, c: SourceCommand)
    requires c.ClearSource? && c.present && TargetsFit(c.targets) && Tidy(s.graph)
    ensures
      var h := BuildClear(s, alias, index, c).graph;
      && Tidy(h) && PassCommands(h) == MoreRows(PassCommands(s.graph), CommandRef(index, Clear), false)
      && PassDraws(h) == PassDraws(s.graph) + [[]]
  {
    hide Tidy, Attached;
    OpenPassRows(s.graph, Render, c.targets, 0);
    var p, ref := OpenPass(s.graph, Render, c.targets, 0), CommandRef(index, Clear);
    EmitCommandRows(p, ref);
    EmitCommandTidy(p, ref);
    FreshRow(PassCommands(s.graph), ref);
    AttachedPasses(EmitCommand(p, ref), c.targets, alias, ClearKind(c.partial, true), ClearKind(c.partial, c.coversDepth));
    SameRowsOf(EmitCommand(p, ref),
               Attached(EmitCommand(p, ref), c.targets, alias, ClearKind(c.partial, true), ClearKind(c.partial, c.coversDepth)));
  }

  /** The rows of the pass a draw lands in, before the draw is filed. */
  lemma DrawPassRows(s: BuilderState, alias: AliasResolver, c: SourceCommand)
    requires c.DrawSource? && TargetsFit(c.targets) && StateFits(s) && Tidy(s.graph)
    ensures
      var p := DrawPass(s, alias, c);
      && p.passes != [] && Tidy(p)
      && PassCommands(p) == PassCommands(s.graph) + (if Opens(s, c) then [[]] else [])
      && PassDraws(p) == PassDraws(s.graph) + (if Opens(s, c) then [[]] else [])
  {
    hide Attached;
    if Opens(s, c) {
      OpenPassRows(s.graph, Render, c.targets, c.profile);
      var started := OpenPass(s.graph, Render, c.targets, c.profile);
      AttachedPasses(started, c.targets, alias, Write, Write);
      SameRowsOf(started, Attached(started, c.targets, alias, Write, Write));
    } else {
      SameRowsOf(s.graph, DrawPass(s, alias, c));
    }
  }

  lemma DrawRows(s: BuilderState, alias: AliasResolver, index: nat, c: SourceCommand)
    requires c.DrawSource? && c.present && TargetsFit(c.targets) && StateFits(s) && Tidy(s.graph)
    ensures RowsGrow(s, BuildDraw(s, alias, index, c).graph, index, c)
  {
    hide Tidy, Attached, DrawPass, Opens, NotedAll;
    DrawPassRows(s, alias, c);
    var p := DrawPass(s, alias, c);
    var read := NotedAll(p, c.textures, Identity(), Read, FRAGMENT);
    SameRowsOf(p, read);
    var d, ref := DrawRef(index, c.paramFirst, c.paramCount), CommandRef(index, DrawRun);
    EmitDrawRows(read, d);
    EmitDrawTidy(read, d);
    EmitCommandRows(EmitDraw(read, d), ref);
    EmitCommandTidy(EmitDraw(read, d), ref);
    if Opens(s, c) {
      FreshRow(PassCommands(s.graph), ref);
      FreshRow(PassDraws(s.graph), d);
    } else {
      assert PassCommands(p) == PassCommands(s.graph) && PassDraws(p) == PassDraws(s.graph);
    }
  }
  // ----- what a pass is, from the commands it holds -----

  function KindFor(c: SourceCommand): PassKind {
    match c
    case DrawSource(_, _, _, _, _, _) => Render
    case ClearSource(_, _, _, _) => Render
    case PresentSource(_) => PassKind.Present
    case _ => Blit
  }

  function TargetsFor(c: SourceCommand): AttachmentSet {
    if c.DrawSource? || c.ClearSource? then c.targets else NO_TARGETS
  }

  function ProfileOf(c: SourceCommand): nat {
    if c.DrawSource? then c.profile else 0
  }

  /** The first nonzero state profile among the draws of a row. */
  function FirstProfile(cs: seq<SourceCommand>, row: seq<CommandRef>): nat
    requires forall t :: 0 <= t < |row| ==> row[t].commandIndex < |cs|
  {
    if row == [] then 0
    else
      var before := FirstProfile(cs, row[..|row| - 1]);
      if before != 0 then before else ProfileOf(cs[row[|row| - 1].commandIndex])
  }

  function DrawOf(c: SourceCommand, index: nat): seq<DrawRef> {
    if c.DrawSource? then [DrawRef(index, c.paramFirst, c.paramCount)] else []
  }

  /** The draw references of the draws of a row, in order. */
  function DrawsOf(cs: seq<SourceCommand>, row: seq<CommandRef>): seq<DrawRef>
    requires forall t :: 0 <= t < |row| ==> row[t].commandIndex < |cs|
  {
    if row == [] then []
    else DrawsOf(cs, row[..|row| - 1]) + DrawOf(cs[row[|row| - 1].commandIndex], row[|row| - 1].commandIndex)
  }

  ghost predicate RowShapes(cs: seq<SourceCommand>, row: seq<CommandRef>, p: PassNode, draws: seq<DrawRef>) {
    && row != []
    && (forall t :: 0 <= t < |row| ==> row[t].commandIndex < |cs| && row[t].kind == KindOf(cs[row[t].commandIndex]))
    && p.kind == KindFor(cs[row[0].commandIndex]) && p.targets == TargetsFor(cs[row[0].commandIndex])
    && (forall t :: 0 < t < |row| ==>
          cs[row[t].commandIndex].DrawSource? && cs[row[t].commandIndex].targets == p.targets)
    && p.stateProfile == FirstProfile(cs, row)
    && draws == DrawsOf(cs, row)
    && p.flags == NO_FLAGS
  }

  /** What the builder knows of the open pass: it is that of the last command not skipped, if that draws or clears. */
  ghost predicate OpenRight(cs: seq<SourceCommand>, k: nat, s: BuilderState)
    requires k <= |cs| && StateFits(s)
  {
    && (forall i: nat :: LastKept(cs, k, i) ==>
          && (s.open <==> cs[i].DrawSource? || cs[i].ClearSource?)
          && (s.open ==> s.graph.passes[s.current].targets == cs[i].targets && s.graph.passes[s.current].kind.Render?)
          && s.graph.passes != [] && Holds(s.graph, |s.graph.passes| - 1, i))
    && (s.open ==> exists i: nat :: LastKept(cs, k, i))
  }

  ghost predicate LastKept(cs: seq<SourceCommand>, k: nat, i: nat)
    requires k <= |cs|
  {
    i < k && !Skipped(cs[i]) && forall j: nat :: i < j < k ==> Skipped(cs[j])
  }

  /** What one command does to the passes, ranges apart. */
  ghost predicate PassesGrow(s: BuilderState, t: BuilderState, c: SourceCommand)
    requires StateFits(s)
  {
    var g, h, last := s.graph, t.graph, |t.graph.passes| - 1;
    && |h.passes| == |g.passes| + (if JoinsPass(s, c) then 0 else 1)
    && (forall u :: 0 <= u < |g.passes| && u < last ==> Inherits(g.passes[u], h.passes[u]))
    && (t.open <==> c.DrawSource? || c.ClearSource?)
    && (t.open ==> t.current == last)
    && (if JoinsPass(s, c) then
          last >= 0
          && var p := g.passes[last];
             Inherits(p.(stateProfile := if p.stateProfile == 0 then c.profile else p.stateProfile), h.passes[last])
        else
          last >= 0
          && Inherits(PassNode(KindFor(c), TargetsFor(c), Range(0, 0), Range(0, 0), ProfileOf(c), 0, NO_FLAGS), h.passes[last]))
  }

  lemma StepPasses(s: BuilderState, alias: AliasResolver, index: nat, c: SourceCommand)
    requires CommandFits(c) && StateFits(s) && !Skipped(c)
    ensures PassesGrow(s, BuildStep(s, alias, index, c), c)
  {
    hide Noted, NotedAll, Attached, PassesGrow;
    if c.DrawSource? {
      DrawPasses(s, alias, index, c);
    } else if c.ClearSource? {
      ClearPasses(s, alias, index, c);
    } else {
      OtherPasses(s, alias, index, c);
    }
  }

  lemma DrawPasses(s: BuilderState, alias: AliasResolver, index: nat, c: SourceCommand)
    requires c.DrawSource? && c.present && TargetsFit(c.targets) && StateFits(s)
    ensures PassesGrow(s, BuildDraw(s, alias, index, c), c)
  {
    hide Noted, NotedAll, Attached;
    var started := OpenPass(s.graph, Render, c.targets, c.profile);
    AttachedPasses(started, c.targets, alias, Write, Write);
  }

  lemma ClearPasses(s: BuilderState, alias: AliasResolver, index: nat, c: SourceCommand)
    requires c.ClearSource? && c.present && TargetsFit(c.targets) && StateFits(s)
    ensures PassesGrow(s, BuildClear(s, alias, index, c), c)
  {
    hide Noted, NotedAll, Attached;
    var started := EmitCommand(OpenPass(s.graph, Render, c.targets, 0), CommandRef(index, Clear));
    AttachedPasses(started, c.targets, alias, ClearKind(c.partial, true), ClearKind(c.partial, c.coversDepth));
  }

  lemma OtherPasses(s: BuilderState, alias: AliasResolver, index: nat, c: SourceCommand)
    requires !c.DrawSource? && !c.ClearSource? && StateFits(s) && !Skipped(c)
    ensures PassesGrow(s, BuildStep(s, alias, index, c), c)
  {
    hide Noted, NotedAll, Attached, BuildDraw, BuildClear;
    match c
    case PresentSource(source) => NotedPasses(Standalone(s.graph, PassKind.Present, index, PresentCommand), alias(source), Read, COPY);
    case CopySource(_, source, dest) => BlittedPasses(s, alias, index, SurfaceCopy, source, dest);
    case StretchSource(_, source, dest) => BlittedPasses(s, alias, index, StretchRect, source, dest);
    case FillSource(_, dest) => BlittedPasses(s, alias, index, ColorFill, 0, dest);
    case ResolveSource(_, multisampled, dest) => BlittedPasses(s, alias, index, DepthResolve, multisampled, dest);
    case MipmapSource(_, texture) => NotedPasses(Standalone(s.graph, Blit, index, GenerateMipmaps), texture, ReadWrite, COPY);
    case ReadbackSource(_, source) => NotedPasses(Standalone(s.graph, Blit, index, Readback), Resolve(alias, source), Read, COPY);
  }

  lemma NotedPasses(g: Graph, handle: nat, kind: AccessKind, stage: nat)
    requires g.passes != []
    ensures Noted(g, handle, kind, stage).passes == g.passes
  {
  }

  lemma BlittedPasses(s: BuilderState, alias: AliasResolver, index: nat, kind: CommandKind, source: nat, dest: nat)
    ensures
      var t := Blitted(s, alias, index, kind, source, dest);
      && |t.graph.passes| == |s.graph.passes| + 1 && !t.open
      && t.graph.passes == Standalone(s.graph, Blit, index, kind).passes
  {
    hide Noted;
    var g := Standalone(s.graph, Blit, index, kind);
    NotedPasses(g, Resolve(alias, source), Read, COPY);
    NotedPasses(Noted(g, Resolve(alias, source), Read, COPY), Resolve(alias, dest), Write, COPY);
  }

  // ----- every prefix of a stream -----

  ghost predicate AllShaped(cs: seq<SourceCommand>, g: Graph) {
    forall u :: 0 <= u < |g.passes| ==> RowShapes(cs, PassCommands(g)[u], g.passes[u], PassDraws(g)[u])
  }

  /** A row keeps its shape when its pass changes in its ranges only. */
  lemma ShapeKept(cs: seq<SourceCommand>, row: seq<CommandRef>, p: PassNode, q: PassNode, draws: seq<DrawRef>)
    requires RowShapes(cs, row, p, draws) && Inherits(p, q)
    ensures RowShapes(cs, row, q, draws)
  {
  }

  lemma ShapeNew(cs: seq<SourceCommand>, k: nat, p: PassNode)
    requires k < |cs|
    requires Inherits(PassNode(KindFor(cs[k]), TargetsFor(cs[k]), Range(0, 0), Range(0, 0), ProfileOf(cs[k]), 0, NO_FLAGS), p)
    ensures RowShapes(cs, [CommandRef(k, KindOf(cs[k]))], p, DrawOf(cs[k], k))
  {
    var row := [CommandRef(k, KindOf(cs[k]))];
    assert row[..|row| - 1] == [];
    assert FirstProfile(cs, row[..0]) == 0 && DrawsOf(cs, row[..0]) == [];
  }

  lemma ShapeJoined(cs: seq<SourceCommand>, k: nat, row: seq<CommandRef>, p: PassNode, q: PassNode, draws: seq<DrawRef>)
    requires k < |cs| && cs[k].DrawSource? && cs[k].targets == p.targets && RowShapes(cs, row, p, draws)
    requires Inherits(p.(stateProfile := if p.stateProfile == 0 then cs[k].profile else p.stateProfile), q)
    ensures RowShapes(cs, row + [CommandRef(k, KindOf(cs[k]))], q, draws + DrawOf(cs[k], k))
  {
    var more := row + [CommandRef(k, KindOf(cs[k]))];
    assert more[..|more| - 1] == row;
  }

  lemma ShapesNext(cs: seq<SourceCommand>, k: nat, s: BuilderState, t: BuilderState)
    requires k < |cs| && StateFits(s) && StateFits(t) && AllShaped(cs, s.graph)
    requires RowsGrow(s, t.graph, k, cs[k]) && PassesGrow(s, t, cs[k])
    ensures AllShaped(cs, t.graph)
  {
    hide RowShapes, Tidy, KindOf, KindFor, TargetsFor, ProfileOf;
    var g, h, c := s.graph, t.graph, cs[k];
    forall u | 0 <= u < |h.passes| ensures RowShapes(cs, PassCommands(h)[u], h.passes[u], PassDraws(h)[u]) {
      if u < |h.passes| - 1 {
        ShapeKept(cs, PassCommands(g)[u], g.passes[u], h.passes[u], PassDraws(g)[u]);
      } else if JoinsPass(s, c) {
        assert RowShapes(cs, PassCommands(g)[u], g.passes[u], PassDraws(g)[u]);
        ShapeJoined(cs, k, PassCommands(g)[u], g.passes[u], h.passes[u], PassDraws(g)[u]);
      } else {
        ShapeNew(cs, k, h.passes[u]);
      }
    }
  }

  lemma LastKeptNext(cs: seq<SourceCommand>, k: nat, i: nat)
    requires k < |cs|
    ensures LastKept(cs, k + 1, i) <==> if Skipped(cs[k]) then LastKept(cs, k, i) else i == k
  {
  }

  lemma OpenNext(cs: seq<SourceCommand>, k: nat, s: BuilderState, t: BuilderState)
    requires k < |cs| && StateFits(s) && StateFits(t) && !Skipped(cs[k]) && OpenRight(cs, k, s)
    requires RowsGrow(s, t.graph, k, cs[k]) && PassesGrow(s, t, cs[k])
    ensures OpenRight(cs, k + 1, t)
  {
    var rows, ref, joins := PassCommands(s.graph), CommandRef(k, KindOf(cs[k])), JoinsPass(s, cs[k]);
    MoreInRow(rows, ref, joins, |t.graph.passes| - 1, k);
    LastKeptNext(cs, k, k);
    hide InRow, Skipped, Tidy, Indices, KindOf, LastKept;
    var n := k + 1;
    forall i: nat ensures LastKept(cs, n, i) ==> i == k {
      LastKeptNext(cs, k, i);
    }
    if joins {
      var i: nat :| LastKept(cs, k, i);
    }
  }

  /** The builder's state after k commands, as its passes show it. */
  ghost predicate Shaped(cs: seq<SourceCommand>, k: nat, s: BuilderState)
    requires k <= |cs|
  {
    && StateFits(s)
    && Filed(cs, k, PassCommands(s.graph))
    && AllShaped(cs, s.graph)
    && OpenRight(cs, k, s)
  }

  lemma ShapedSkip(cs: seq<SourceCommand>, k: nat, s: BuilderState)
    requires k < |cs| && Shaped(cs, k, s) && Skipped(cs[k])
    ensures Shaped(cs, k + 1, s)
  {
    FiledSkip(cs, k, PassCommands(s.graph));
    hide Filed, AllShaped, Skipped, LastKept;
    forall i: nat ensures LastKept(cs, k + 1, i) <==> LastKept(cs, k, i) {
      LastKeptNext(cs, k, i);
    }
  }

  lemma ShapedNext(cs: seq<SourceCommand>, alias: AliasResolver, k: nat, s: BuilderState)
    requires k < |cs| && Shaped(cs, k, s) && CommandFits(cs[k]) && !Skipped(cs[k]) && Tidy(s.graph)
    ensures Shaped(cs, k + 1, BuildStep(s, alias, k, cs[k]))
  {
    hide Filed, AllShaped, OpenRight, BuildStep, RowsGrow, PassesGrow, Tidy, Skipped;
    var t := BuildStep(s, alias, k, cs[k]);
    StepRows(s, alias, k, cs[k]);
    StepPasses(s, alias, k, cs[k]);
    StepFits(s, alias, k, cs[k]);
    ShapesNext(cs, k, s, t);
    OpenNext(cs, k, s, t);
    RowsFiled(cs, k, s, t);
  }

  lemma RowsFiled(cs: seq<SourceCommand>, k: nat, s: BuilderState, t: BuilderState)
    requires k < |cs| && StateFits(s) && !Skipped(cs[k]) && Filed(cs, k, PassCommands(s.graph))
    requires RowsGrow(s, t.graph, k, cs[k])
    ensures Filed(cs, k + 1, PassCommands(t.graph))
  {
    hide Filed, Tidy;
    FiledNext(cs, k, PassCommands(s.graph), CommandRef(k, KindOf(cs[k])), JoinsPass(s, cs[k]));
  }

  lemma StepFits(s: BuilderState, alias: AliasResolver, index: nat, c: SourceCommand)
    requires CommandFits(c) && StateFits(s)
    ensures StateFits(BuildStep(s, alias, index, c))
  {
    if !Skipped(c) {
      StepPasses(s, alias, index, c);
      hide BuildStep;
    }
  }

  lemma ShapedNone(cs: seq<SourceCommand>)
    ensures Shaped(cs, 0, BuilderState(EMPTY_GRAPH, 0, false))
  {
  }

  lemma {:induction false} BuiltShaped(cs: seq<SourceCommand>, alias: AliasResolver, k: nat)
    requires StreamFits(cs) && k <= |cs|
    ensures Shaped(cs, k, Built(cs[..k], alias))
  {
    hide Shaped, BuildStep, Tidy;
    if k == 0 {
      ShapedNone(cs);
    } else {
      BuiltShaped(cs, alias, k - 1);
      assert cs[..k][..k - 1] == cs[..k - 1];
      BuiltConsistent(cs[..k - 1], alias);
      var s := Built(cs[..k - 1], alias);
      if Skipped(cs[k - 1]) {
        ShapedSkip(cs, k - 1, s);
        StepSkips(s, alias, k - 1, cs[k - 1]);
      } else {
        ShapedNext(cs, alias, k - 1, s);
      }
    }
  }

  lemma StepSkips(s: BuilderState, alias: AliasResolver, index: nat, c: SourceCommand)
    requires CommandFits(c) && StateFits(s) && Skipped(c)
    ensures BuildStep(s, alias, index, c) == s
  {
  }

  /**
    Every pass of a built frame: it holds commands in stream order, is of the kind and
    targets of its first, the others are draws to the same targets, and its profile and
    draw references are theirs.
   */
  lemma PassIsItsCommands(cs: seq<SourceCommand>, alias: AliasResolver, u: nat)
    requires StreamFits(cs) && u < |Built(cs, alias).graph.passes|
    ensures
      var g := Built(cs, alias).graph;
      && RowShapes(cs, PassCommands(g)[u], g.passes[u], PassDraws(g)[u])
      && Ascending(Indices(PassCommands(g)[u]))
  {
    BuiltShaped(cs, alias, |cs|);
    assert cs[..|cs|] == cs;
    hide RowShapes, Built, Ascending, OpenRight, InRow;
  }

  lemma FiledOnce(cs: seq<SourceCommand>, k: nat, rows: seq<seq<CommandRef>>, i: nat)
    requires Filed(cs, k, rows) && i < k
    ensures Skipped(cs[i]) <==> !exists u: nat :: InRow(rows, u, i)
    ensures forall u: nat, v: nat, j: nat :: InRow(rows, u, i) && InRow(rows, v, j) && i <= j ==> u <= v
  {
    hide InRow, Ascending, Skipped;
  }

  /** Every command that is not skipped is held by exactly one pass, and later commands by no earlier pass. */
  lemma HeldOnce(cs: seq<SourceCommand>, alias: AliasResolver, i: nat)
    requires StreamFits(cs) && i < |cs|
    ensures
      var g := Built(cs, alias).graph;
      && (Skipped(cs[i]) <==> !exists u: nat :: Holds(g, u, i))
      && (forall u: nat, v: nat, j: nat :: Holds(g, u, i) && Holds(g, v, j) && i <= j ==> u <= v)
  {
    hide AllShaped, Built, OpenRight, Filed, Skipped, InRow;
    BuiltShaped(cs, alias, |cs|);
    assert cs[..|cs|] == cs;
    var rows := PassCommands(Built(cs, alias).graph);
    FiledOnce(cs, |cs|, rows, i);
    assert forall u: nat :: Holds(Built(cs, alias).graph, u, i) <==> InRow(rows, u, i);
  }

  /** A command stays in the pass it was filed in. */
  lemma {:induction false} PassStays(cs: seq<SourceCommand>, alias: AliasResolver, k: nat, n: nat, u: nat, i: nat)
    requires StreamFits(cs) && k <= n <= |cs| && Holds(Built(cs[..k], alias).graph, u, i)
    ensures Holds(Built(cs[..n], alias).graph, u, i)
    decreases n
  {
    hide BuildStep, InRow;
    if k < n {
      PassStays(cs, alias, k, n - 1, u, i);
      assert cs[..n][..n - 1] == cs[..n - 1];
      BuiltConsistent(cs[..n - 1], alias);
      StepHolds(Built(cs[..n - 1], alias), alias, n - 1, cs[n - 1], u, i);
    }
  }

  lemma StepHolds(s: BuilderState, alias: AliasResolver, index: nat, c: SourceCommand, u: nat, i: nat)
    requires CommandFits(c) && StateFits(s) && Tidy(s.graph) && Holds(s.graph, u, i)
    ensures Holds(BuildStep(s, alias, index, c).graph, u, i)
  {
    hide BuildStep, InRow, Tidy, Skipped;
    if Skipped(c) {
      StepSkips(s, alias, index, c);
    } else {
      StepRows(s, alias, index, c);
      MoreInRow(PassCommands(s.graph), CommandRef(index, KindOf(c)), JoinsPass(s, c), u, i);
    }
  }

  /** Right after command j: it is in the newest pass, and the one before it is there exactly when j joined it. */
  lemma SharesThen(cs: seq<SourceCommand>, alias: AliasResolver, i: nat, j: nat) returns (u: nat, v: nat)
    requires StreamFits(cs) && j < |cs| && !Skipped(cs[j]) && LastKept(cs, j, i)
    ensures
      var t := Built(cs[..j + 1], alias);
      && Holds(t.graph, u, i) && Holds(t.graph, v, j)
      && (u == v <==> cs[j].DrawSource? && (cs[i].DrawSource? || cs[i].ClearSource?) && cs[i].targets == cs[j].targets)
  {
    hide BuildStep, InRow, Tidy, Skipped, Filed, AllShaped;
    assert cs[..j + 1][..j] == cs[..j];
    var s, c := Built(cs[..j], alias), cs[j];
    BuiltShaped(cs, alias, j);
    BuiltConsistent(cs[..j], alias);
    StepRows(s, alias, j, c);
    u := |s.graph.passes| - 1;
    var rows, ref := PassCommands(s.graph), CommandRef(j, KindOf(c));
    v := |MoreRows(rows, ref, JoinsPass(s, c))| - 1;
    MoreInRow(rows, ref, JoinsPass(s, c), u, i);
    MoreInRow(rows, ref, JoinsPass(s, c), v, j);
  }

  /** A command shares the pass of the command before it exactly when it draws to the targets that one draws to or clears. */
  lemma SharesPass(cs: seq<SourceCommand>, alias: AliasResolver, i: nat, j: nat, u: nat, v: nat)
    requires StreamFits(cs) && j < |cs| && !Skipped(cs[j]) && LastKept(cs, j, i)
    requires Holds(Built(cs, alias).graph, u, i) && Holds(Built(cs, alias).graph, v, j)
    ensures u == v <==> cs[j].DrawSource? && (cs[i].DrawSource? || cs[i].ClearSource?) && cs[i].targets == cs[j].targets
  {
    hide Built, Holds, Skipped, BuildStep;
    var p, q := SharesThen(cs, alias, i, j);
    PassStays(cs, alias, j + 1, |cs|, p, i);
    PassStays(cs, alias, j + 1, |cs|, q, j);
    assert cs[..|cs|] == cs;
    HeldOnce(cs, alias, i);
    HeldOnce(cs, alias, j);
  }
}
