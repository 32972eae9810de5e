/**
  The optimizer pass itself: the scan for a mergeable pair, the rebuild of the
  graph in place, the diagnostics it keeps, and the loop to a fixpoint.
 */
module PassCoalesce {
  import opened Sequences
  import opened FrameGraphs
  import opened Coalescing
  import opened Provenance
  import opened Fixpoint
  import opened CoalesceDiagnostics
  import opened CoalesceCounts
  import opened Options

  // ----- what a rebuild may read and write -----

  /** Slices lie inside their arrays, and the packed arrays' lengths fit 32 bits. */
  ghost predicate Rebuildable(g: Graph) {
    && RangesValid(g)
    && |Flatten(PassDraws(g))| < U32_LIMIT
    && |Flatten(PassCommands(g))| < U32_LIMIT
  }

  /**
    What the pass needs of its caller. Ranges are read unchecked only once a pair
    is merged, so a graph without such a pair may hold any ranges at all.
   */
  ghost predicate Admissible(g: Graph) {
    |g.passes| <= NO_PASS && (Stuck(g) || Rebuildable(g))
  }

  lemma MergeAdmissible(g: Graph, a: nat, b: nat)
    requires Admissible(g) && Mergeable(g, a, b)
    ensures Admissible(Merge(g, a, b))
  {
    var groups, h := MergeGroups(g, a, b), Merge(g, a, b);
    MergeShrinks(g, a, b);
    MergeGroupsValid(g, a, b);
    RebuildPacked(g, groups);
    MergeTotals(g, a, b);
  }

  lemma MergeTotals(g: Graph, a: nat, b: nat)
    requires Mergeable(g, a, b)
    ensures |Merge(g, a, b).draws| == |Flatten(PassDraws(g))|
    ensures |Merge(g, a, b).commands| == |Flatten(PassCommands(g))|
  {
    var groups := MergeGroups(g, a, b);
    MergeGroupsValid(g, a, b);
    MaterializeArrays(g, groups);
    FlattenMergeGroups(g, a, b);
    InterveningNotBlocked(g, a, b);
    MergeOrderPermutation(g, a, b);
    TotalLength(PassDraws(g), Flatten(groups));
    TotalLength(PassCommands(g), Flatten(groups));
  }

  lemma TotalLength<T>(f: seq<seq<T>>, order: seq<nat>)
    requires Permutation(order, |f|) && Bounded(order, |f|)
    ensures |ConcatMap(f, order)| == |Flatten(f)|
  {
    ConcatMapPermutation(f, order, Iota(0, |f|));
    ConcatMapIota(f, 0);
    assert f[0..] == f;
    assert |multiset(ConcatMap(f, order))| == |multiset(Flatten(f))|;
  }

  lemma {:induction false} MaterializeGrows(g: Graph, groups: seq<seq<nat>>, k: nat)
    requires GroupsOf(groups, |g.passes|) && k <= |groups|
    ensures |Materialize(g, groups[..k]).draws| <= |Materialize(g, groups).draws|
    ensures |Materialize(g, groups[..k]).commands| <= |Materialize(g, groups).commands|
  {
    if k < |groups| {
      MaterializeGrows(g, groups[..|groups| - 1], k);
      assert groups[..|groups| - 1][..k] == groups[..k];
    } else {
      assert groups[..k] == groups;
    }
  }

  // ----- scanning one window -----

  method HasNonDrawCommand(g: Graph, p: PassNode) returns (r: bool)
    requires ValidCommandRange(g, p)
    ensures r == !DrawOnly(Slice(g.commands, p.commands))
  {
    ghost var owned := Slice(g.commands, p.commands);
    for i := 0 to p.commands.count
      invariant DrawOnly(owned[..i])
    {
      assert owned[i] == g.commands[p.commands.first + i];
      if !g.commands[p.commands.first + i].kind.DrawRun? {
        return true;
      }
    }
    assert owned[..p.commands.count] == owned;
    return false;
  }

  method ClassifyIntervening(g: Graph, a: nat, b: nat, x: nat) returns (m: Move)
    requires a < |g.passes| && b < |g.passes| && x < |g.passes|
    ensures m == Classify(g, a, b, x)
  {
    var pairFeeds := SearchReaches(g, a, x);
    if !pairFeeds {
      pairFeeds := SearchReaches(g, b, x);
    }
    var feedsPair := SearchReaches(g, x, a);
    if !feedsPair {
      feedsPair := SearchReaches(g, x, b);
    }
    if pairFeeds && feedsPair {
      return Blocked;
    }
    if !feedsPair {
      return After;
    }
    return Before;
  }

  /** What the scan knows on arriving at a pass. */
  datatype ScanState = ScanState(before: seq<nat>, after: seq<nat>, scan: WindowScan)

  const SCAN_START := ScanState([], [], NOTHING_SEEN)

  /** The scan has passed everything between a and x, and has yet to note what ScanCounts adds from x. */
  ghost predicate Scanned(g: Graph, a: nat, b: nat, x: nat, collect: bool, s: ScanState)
    requires b < |g.passes|
  {
    && (forall y: nat :: a < y < x ==> y < |g.passes| && Movable(g, a, b, y))
    && s.before == Movers(g, a, b, Before, x)
    && s.after == Movers(g, a, b, After, x)
    && ScanCounts(g, a, b, a + 1, collect, NOTHING_SEEN) == ScanCounts(g, a, b, x, collect, s.scan)
  }

  /** What a scan of the window answers: whether it opens, where its passes go, and exactly what it counted. */
  ghost predicate ScanAnswer(g: Graph, a: nat, b: nat, collect: bool, ok: bool, s: ScanState)
    requires a < b < |g.passes|
  {
    && (ok <==> forall x: nat :: a < x < b ==> x < |g.passes| && Movable(g, a, b, x))
    && (ok ==> s.before == Movers(g, a, b, Before, b) && s.after == Movers(g, a, b, After, b))
    && s.scan == WindowCounts(g, a, b, collect)
  }

  /** What is noted of an intervener does not depend on its commands unless the scan collects. */
  lemma NotedAlike(g: Graph, x: nat, collect: bool, nonDraw: bool, scan: WindowScan)
    requires x < |g.passes| && (collect ==> nonDraw == !DrawOnly(PassCommands(g)[x]))
    ensures CountIntervener(g, x, collect, nonDraw, scan)
      == CountIntervener(g, x, collect, !DrawOnly(PassCommands(g)[x]), scan)
  {
  }

  lemma ScannedNext(g: Graph, a: nat, b: nat, x: nat, collect: bool, s: ScanState, nonDraw: bool)
    requires a < x < b < |g.passes| && Scanned(g, a, b, x, collect, s)
    requires LiveRender(g.passes[x]) && ValidPass(g, g.passes[x]) && Classify(g, a, b, x) != Blocked
    requires collect ==> nonDraw == !DrawOnly(PassCommands(g)[x])
    ensures
      var m := Classify(g, a, b, x);
      Scanned(g, a, b, x + 1, collect, ScanState(
        if m == Before then s.before + [x] else s.before,
        if m == Before then s.after else s.after + [x],
        CountMove(g, x, collect, m, CountIntervener(g, x, collect, nonDraw, s.scan))))
  {
    hide DrawOnly, CountMove, CountIntervener, Classify, ValidPass;
    NotedAlike(g, x, collect, nonDraw, s.scan);
    assert Movable(g, a, b, x);
  }

  lemma ScannedStop(g: Graph, a: nat, b: nat, x: nat, collect: bool, s: ScanState)
    requires a < x < b < |g.passes| && Scanned(g, a, b, x, collect, s)
    ensures !g.passes[x].kind.Render? ==> ScanAnswer(g, a, b, collect, false, s.(scan := s.scan.(nonRender := true)))
    ensures g.passes[x].kind.Render? && (g.passes[x].flags.dead || !ValidPass(g, g.passes[x])) ==>
      ScanAnswer(g, a, b, collect, false, s.(scan := s.scan.(missingInvariant := true)))
  {
    if !LiveRender(g.passes[x]) || !ValidPass(g, g.passes[x]) {
      assert !Movable(g, a, b, x);
    }
  }

  lemma ScannedBlocked(g: Graph, a: nat, b: nat, x: nat, collect: bool, s: ScanState, nonDraw: bool)
    requires a < x < b < |g.passes| && Scanned(g, a, b, x, collect, s)
    requires LiveRender(g.passes[x]) && ValidPass(g, g.passes[x]) && Classify(g, a, b, x) == Blocked
    requires collect ==> nonDraw == !DrawOnly(PassCommands(g)[x])
    ensures ScanAnswer(g, a, b, collect, false,
                       s.(scan := CountIntervener(g, x, collect, nonDraw, s.scan).(blockedCycle := true)))
  {
    hide DrawOnly, CountMove, CountIntervener, Classify, ValidPass;
    NotedAlike(g, x, collect, nonDraw, s.scan);
    assert !Movable(g, a, b, x);
  }

  lemma ScannedDone(g: Graph, a: nat, b: nat, collect: bool, s: ScanState)
    requires a < b < |g.passes| && Scanned(g, a, b, b, collect, s)
    ensures ScanAnswer(g, a, b, collect, true, s)
  {
  }

  lemma AnswerNames(g: Graph, a: nat, b: nat, collect: bool, s: ScanState)
    requires a < b < |g.passes| && ScanAnswer(g, a, b, collect, false, s)
    ensures s.scan.OneReason() && StopsAt(g, a, b, s.scan)
  {
    hide WindowCounts, StopsAt, Movable;
    WindowCountsMeaning(g, a, b, collect);
  }

  /** The scan of one intervening pass; `stop` when it cannot move. */
  method ExaminePass(g: Graph, a: nat, b: nat, x: nat, collect: bool, s: ScanState) returns (stop: bool, t: ScanState)
    requires a < x < b < |g.passes| && Scanned(g, a, b, x, collect, s)
    ensures stop ==> ScanAnswer(g, a, b, collect, false, t)
    ensures !stop ==> Scanned(g, a, b, x + 1, collect, t)
  {
    hide Scanned, ScanAnswer, Classify, CountIntervener, CountMove;
    stop, t := true, s;
    var px := g.passes[x];
    ScannedStop(g, a, b, x, collect, s);
    if !px.kind.Render? {
      t := s.(scan := s.scan.(nonRender := true));
      return;
    }
    if px.flags.dead || !ValidCommandRange(g, px) || !ValidDrawRange(g, px) {
      t := s.(scan := s.scan.(missingInvariant := true));
      return;
    }
    var nonDraw := false;
    if collect {
      nonDraw := HasNonDrawCommand(g, px);
    }
    var counted := CountIntervener(g, x, collect, nonDraw, s.scan);
    var m := ClassifyIntervening(g, a, b, x);
    if m == Blocked {
      ScannedBlocked(g, a, b, x, collect, s, nonDraw);
      t := s.(scan := counted.(blockedCycle := true));
      return;
    }
    ScannedNext(g, a, b, x, collect, s, nonDraw);
    stop := false;
    t := ScanState(
      if m == Before then s.before + [x] else s.before,
      if m == Before then s.after else s.after + [x],
      CountMove(g, x, collect, m, counted));
  }

  /** Classify every pass between a and b, stopping at the first that cannot move. */
  method ScanWindow(g: Graph, a: nat, b: nat, collect: bool) returns (ok: bool, s: ScanState)
    requires a < b < |g.passes|
    ensures ScanAnswer(g, a, b, collect, ok, s)
    ensures !ok ==> s.scan.OneReason() && StopsAt(g, a, b, s.scan)
  {
    s := SCAN_START;
    assert Scanned(g, a, b, a + 1, collect, s);
    hide Scanned, ScanAnswer, StopsAt;
    for x := a + 1 to b
      invariant Scanned(g, a, b, x, collect, s)
    {
      var stop;
      stop, s := ExaminePass(g, a, b, x, collect, s);
      if stop {
        AnswerNames(g, a, b, collect, s);
        return false, s;
      }
    }
    ScannedDone(g, a, b, collect, s);
    return true, s;
  }

  // ----- rebuilding the graph -----

  lemma MergeableOrdered(g: Graph, a: nat, b: nat)
    requires Mergeable(g, a, b)
    ensures a < b < |g.passes|
  {
  }

  method BuildOrder(g: Graph, a: nat, b: nat, before: seq<nat>, after: seq<nat>) returns (order: seq<nat>)
    requires Mergeable(g, a, b)
    requires before == Movers(g, a, b, Before, b) && after == Movers(g, a, b, After, b)
    ensures order == MarkedOrder(g, a, b)
  {
    hide Mergeable, Movers, Classify;
    MergeableOrdered(g, a, b);
    order := [];
    for p := 0 to |g.passes|
      invariant p <= a ==> order == Iota(0, p)
      invariant a < p <= b ==> order == Iota(0, a) + (before + [NO_PASS])
      invariant b < p ==> order == Iota(0, a) + (before + ([NO_PASS] + (after + Iota(b + 1, p))))
    {
      if p == a {
        order := order + before + [NO_PASS];
      } else if p == b {
        order := order + after;
      } else if a < p < b && (p in before || p in after) {
      } else {
        if a < p < b {
          EveryInterveningMoves(g, a, b, p);
          assert false;
        }
        order := order + [p];
      }
    }
  }

  lemma EveryInterveningMoves(g: Graph, a: nat, b: nat, x: nat)
    requires Mergeable(g, a, b) && a < x < b
    ensures x in Movers(g, a, b, Before, b) || x in Movers(g, a, b, After, b)
  {
    InterveningNotBlocked(g, a, b);
    MoversPartition(g, a, b, b);
    assert Iota(a + 1, b)[x - a - 1] == x;
    assert x in multiset(Iota(a + 1, b));
  }

  method CopyRange<T>(source: seq<T>, r: Range, dest: seq<T>) returns (out: seq<T>)
    requires ValidRange(r, |source|)
    ensures out == dest + Slice(source, r)
  {
    out := dest;
    for i := 0 to r.count
      invariant out == dest + source[r.first..r.first + i]
    {
      out := out + [source[r.first + i]];
    }
  }

  /** Appends a copy of old pass `src`, its slices packed behind what is already there. */
  method EmitCopy(g: Graph, src: nat, layout: Layout) returns (out: Layout)
    requires src < |g.passes| && ValidPass(g, g.passes[src])
    requires |layout.draws| < U32_LIMIT && |layout.commands| < U32_LIMIT
    ensures out == Extend(layout, g.passes[src], PassDraws(g)[src], PassCommands(g)[src])
  {
    var orig := g.passes[src];
    var firstDraw, firstCommand := ToU32(|layout.draws|), ToU32(|layout.commands|);
    var draws := CopyRange(g.draws, orig.draws, layout.draws);
    var commands := CopyRange(g.commands, orig.commands, layout.commands);
    out := Layout(
      layout.passes + [orig.(
        draws := Range(firstDraw, orig.draws.count),
        commands := Range(firstCommand, orig.commands.count))],
      draws, commands);
  }

  /** Appends the merged pass: everything of P_a, with P_b's lists behind P_a's. */
  method EmitMerged(g: Graph, a: nat, mergedDraws: seq<DrawRef>, mergedCommands: seq<CommandRef>, layout: Layout)
    returns (out: Layout)
    requires a < |g.passes|
    requires |layout.draws| + |mergedDraws| < U32_LIMIT && |layout.commands| + |mergedCommands| < U32_LIMIT
    ensures out == Extend(layout, g.passes[a], mergedDraws, mergedCommands)
  {
    out := Layout(
      layout.passes + [g.passes[a].(
        draws := Range(ToU32(|layout.draws|), ToU32(|mergedDraws|)),
        commands := Range(ToU32(|layout.commands|), ToU32(|mergedCommands|)))],
      layout.draws + mergedDraws,
      layout.commands + mergedCommands);
  }

  /** Emits one entry of the order list and notes where its old pass or passes went. */
  method EmitEntry(g: Graph, a: nat, b: nat, src: nat, mergedDraws: seq<DrawRef>, mergedCommands: seq<CommandRef>,
                   layout: Layout, oldToNew: seq<nat>) returns (out: Layout, remap: seq<nat>)
    requires a < b < |g.passes| <= NO_PASS && |oldToNew| == |g.passes|
    requires src == NO_PASS || (src < |g.passes| && ValidPass(g, g.passes[src]))
    requires mergedDraws == PassDraws(g)[a] + PassDraws(g)[b]
    requires mergedCommands == PassCommands(g)[a] + PassCommands(g)[b]
    requires |layout.passes| < U32_LIMIT
    requires |OrderEntry(g, a, b, src, layout).draws| < U32_LIMIT
    requires |OrderEntry(g, a, b, src, layout).commands| < U32_LIMIT
    ensures out == OrderEntry(g, a, b, src, layout)
    ensures remap == if src == NO_PASS then oldToNew[a := |layout.passes|][b := |layout.passes|]
                     else oldToNew[src := |layout.passes|]
  {
    var index := ToU32(|layout.passes|);
    if src == NO_PASS {
      out := EmitMerged(g, a, mergedDraws, mergedCommands, layout);
      remap := oldToNew[a := index][b := index];
    } else {
      out := EmitCopy(g, src, layout);
      remap := oldToNew[src := index];
    }
  }

  /** P_a's lists followed by P_b's. */
  method MergedLists(g: Graph, a: nat, b: nat) returns (draws: seq<DrawRef>, commands: seq<CommandRef>)
    requires a < |g.passes| && b < |g.passes| && ValidPass(g, g.passes[a]) && ValidPass(g, g.passes[b])
    ensures draws == PassDraws(g)[a] + PassDraws(g)[b]
    ensures commands == PassCommands(g)[a] + PassCommands(g)[b]
  {
    draws := CopyRange(g.draws, g.passes[a].draws, []);
    draws := CopyRange(g.draws, g.passes[b].draws, draws);
    commands := CopyRange(g.commands, g.passes[a].commands, []);
    commands := CopyRange(g.commands, g.passes[b].commands, commands);
  }

  lemma NothingLaidOut(g: Graph, groups: seq<seq<nat>>)
    requires GroupsOf(groups, |g.passes|)
    ensures Materialize(g, groups[..0]) == Layout([], [], [])
    ensures RemapOf(groups[..0], |g.passes|) == seq(|g.passes|, _ => NO_PASS)
  {
  }

  method MaterializePasses(g: Graph, a: nat, b: nat, order: seq<nat>, ghost groups: seq<seq<nat>>)
    returns (layout: Layout, oldToNew: seq<nat>)
    requires a < b < |g.passes| <= NO_PASS && RangesValid(g)
    requires GroupsOf(groups, |g.passes|) && Marks(order, groups, a, b, |g.passes|) && |groups| < U32_LIMIT
    requires |Materialize(g, groups).draws| < U32_LIMIT && |Materialize(g, groups).commands| < U32_LIMIT
    ensures layout == Materialize(g, groups)
    ensures oldToNew == RemapOf(groups, |g.passes|)
  {
    hide Materialize, RemapOf, PassDraws, PassCommands;
    NothingLaidOut(g, groups);
    var mergedDraws, mergedCommands := MergedLists(g, a, b);
    layout := Layout([], [], []);
    oldToNew := seq(|g.passes|, _ => NO_PASS);
    for k := 0 to |order|
      invariant layout == Materialize(g, groups[..k]) && |layout.passes| == k
      invariant oldToNew == RemapOf(groups[..k], |g.passes|)
    {
      LayoutStep(g, a, b, order, groups, k);
      RemapOrderStep(order, groups, a, b, |g.passes|, k);
      assert order[k] == NO_PASS || ValidPass(g, g.passes[order[k]]);
      layout, oldToNew := EmitEntry(g, a, b, order[k], mergedDraws, mergedCommands, layout, oldToNew);
    }
    assert groups[..|order|] == groups;
  }

  lemma PairRow<T>(f: seq<seq<T>>, a: nat, b: nat)
    requires a < |f| && b < |f|
    ensures ConcatMap(f, [a, b]) == f[a] + f[b]
  {
    ConcatMapFirst(f, a, [b]);
    SingleRow(f, b);
    assert [a, b] == [a] + [b];
  }

  lemma SingleRow<T>(f: seq<seq<T>>, a: nat)
    requires a < |f|
    ensures ConcatMap(f, [a]) == f[a]
  {
    ConcatMapFirst(f, a, []);
    assert [a] == [a] + [];
    assert ConcatMap(f, []) == [];
  }

  /** The layout with one more pass owning the given draws and commands. */
  function Extend(l: Layout, p: PassNode, ds: seq<DrawRef>, cs: seq<CommandRef>): Layout {
    Layout(
      l.passes + [p.(draws := Range(|l.draws|, |ds|), commands := Range(|l.commands|, |cs|))],
      l.draws + ds,
      l.commands + cs)
  }

  /** One more group, and still no length beyond the final one. */
  lemma MaterializeStep(g: Graph, groups: seq<seq<nat>>, k: nat)
    requires GroupsOf(groups, |g.passes|) && k < |groups|
    ensures
      var l := Materialize(g, groups[..k]);
      var ds, cs := ConcatMap(PassDraws(g), groups[k]), ConcatMap(PassCommands(g), groups[k]);
      && Materialize(g, groups[..k + 1]) == Extend(l, g.passes[groups[k][0]], ds, cs)
      && |l.draws| + |ds| <= |Materialize(g, groups).draws|
      && |l.commands| + |cs| <= |Materialize(g, groups).commands|
  {
    assert groups[..k + 1][..k] == groups[..k];
    assert groups[..k + 1] != [];
    MaterializeGrows(g, groups, k + 1);
  }

  lemma RemapStep(groups: seq<seq<nat>>, n: nat, k: nat)
    requires k < |groups|
    ensures
      var prev, next := RemapOf(groups[..k], n), RemapOf(groups[..k + 1], n);
      forall i :: 0 <= i < n ==> next[i] == if i in groups[k] then k else prev[i]
  {
    assert groups[..k + 1][..k] == groups[..k];
  }

  /** What entry `src` of the order list adds to the layout. */
  ghost function OrderEntry(g: Graph, a: nat, b: nat, src: nat, l: Layout): Layout
    requires a < b < |g.passes| && (src == NO_PASS || src < |g.passes|)
  {
    if src == NO_PASS then
      Extend(l, g.passes[a], PassDraws(g)[a] + PassDraws(g)[b], PassCommands(g)[a] + PassCommands(g)[b])
    else
      Extend(l, g.passes[src], PassDraws(g)[src], PassCommands(g)[src])
  }

  lemma LayoutStep(g: Graph, a: nat, b: nat, order: seq<nat>, groups: seq<seq<nat>>, k: nat)
    requires a < b < |g.passes| && k < |order|
    requires GroupsOf(groups, |g.passes|) && Marks(order, groups, a, b, |g.passes|)
    ensures Materialize(g, groups[..k + 1]) == OrderEntry(g, a, b, order[k], Materialize(g, groups[..k]))
    ensures |Materialize(g, groups[..k + 1]).draws| <= |Materialize(g, groups).draws|
    ensures |Materialize(g, groups[..k + 1]).commands| <= |Materialize(g, groups).commands|
  {
    MaterializeStep(g, groups, k);
    if order[k] == NO_PASS {
      PairRow(PassDraws(g), a, b);
      PairRow(PassCommands(g), a, b);
    } else {
      SingleRow(PassDraws(g), order[k]);
      SingleRow(PassCommands(g), order[k]);
    }
  }

  lemma RemapOrderStep(order: seq<nat>, groups: seq<seq<nat>>, a: nat, b: nat, n: nat, k: nat)
    requires Marks(order, groups, a, b, n) && a < b < n && k < |order|
    ensures
      var prev := RemapOf(groups[..k], n);
      RemapOf(groups[..k + 1], n) == if order[k] == NO_PASS then prev[a := k][b := k] else prev[order[k] := k]
  {
    RemapStep(groups, n, k);
  }

  method RemapAccessLogs(rs: seq<Resource>, remap: seq<nat>) returns (out: seq<Resource>)
    ensures out == RemapResources(rs, remap)
  {
    out := rs;
    for i := 0 to |rs|
      invariant |out| == |rs|
      invariant forall k :: 0 <= k < i ==> out[k] == RemapResource(rs[k], remap)
      invariant forall k :: i <= k < |rs| ==> out[k] == rs[k]
    {
      var accesses := rs[i].accesses;
      for t := 0 to |accesses|
        invariant |accesses| == |rs[i].accesses|
        invariant forall k :: 0 <= k < t ==> accesses[k] == RemapAccess(rs[i].accesses[k], remap)
        invariant forall k :: t <= k < |accesses| ==> accesses[k] == rs[i].accesses[k]
      {
        if accesses[t].pass < |remap| && remap[accesses[t].pass] != NO_PASS {
          accesses := accesses[t := accesses[t].(pass := remap[accesses[t].pass])];
        }
      }
      assert rs[i].(accesses := accesses) == RemapResource(rs[i], remap);
      out := out[i := rs[i].(accesses := accesses)];
    }
  }

  method RemapDependencies(es: seq<Edge>, remap: seq<nat>) returns (out: seq<Edge>)
    ensures out == RemapEdges(es, remap)
    ensures forall j: nat, k: nat, r: nat :: j != NO_PASS && k != NO_PASS ==>
      (Edge(j, k, r) in out <==> j != k && exists e :: e in es && e.resource == r && LeadsTo(e, remap, j, k))
  {
    forall j: nat, k: nat, r: nat | j != NO_PASS && k != NO_PASS
      ensures Edge(j, k, r) in RemapEdges(es, remap) <==>
        j != k && exists e :: e in es && e.resource == r && LeadsTo(e, remap, j, k)
    {
      RemapEdgesExactly(es, remap, j, k, r);
    }
    out := [];
    for k := 0 to |es|
      invariant out == RemapEdges(es[..k], remap)
    {
      var e := es[k];
      assert es[..k + 1][..k] == es[..k] && es[..k + 1][k] == e;
      if e.src < |remap| && e.dst < |remap| {
        var ns, nd := remap[e.src], remap[e.dst];
        if ns != NO_PASS && nd != NO_PASS && ns != nd {
          var dup := false;
          for i := 0 to |out|
            invariant dup <==> Edge(ns, nd, e.resource) in out[..i]
          {
            if out[i].src == ns && out[i].dst == nd && out[i].resource == e.resource {
              dup := true;
            }
          }
          assert out[..|out|] == out;
          if !dup {
            out := out + [Edge(ns, nd, e.resource)];
          }
        }
      }
    }
    assert es[..|es|] == es;
  }

  /** The graph with the pair merged. */
  method BuildMerge(g: Graph, a: nat, b: nat, before: seq<nat>, after: seq<nat>) returns (h: Graph, order: seq<nat>)
    requires Mergeable(g, a, b) && Admissible(g)
    requires before == Movers(g, a, b, Before, b) && after == Movers(g, a, b, After, b)
    ensures h == Merge(g, a, b)
    ensures order == MarkedOrder(g, a, b)
  {
    order := BuildOrder(g, a, b, before, after);
    ghost var groups := MergeGroups(g, a, b);
    MergeGroupsMarked(g, a, b);
    MergeTotals(g, a, b);
    var layout, remap := MaterializePasses(g, a, b, order, groups);
    var resources := RemapAccessLogs(g.resources, remap);
    var edges := RemapDependencies(g.edges, remap);
    h := Graph(layout.passes, resources, edges, layout.draws, layout.commands);
  }

  /** Rebuild the graph in place around the merged pair. */
  method ApplyMerge(graph: FrameGraph, a: nat, b: nat, before: seq<nat>, after: seq<nat>) returns (order: seq<nat>)
    requires Mergeable(graph.Value(), a, b) && Admissible(graph.Value())
    requires before == Movers(graph.Value(), a, b, Before, b) && after == Movers(graph.Value(), a, b, After, b)
    modifies graph
    ensures graph.Value() == Merge(old(graph.Value()), a, b)
    ensures order == MarkedOrder(old(graph.Value()), a, b)
  {
    var h;
    h, order := BuildMerge(graph.Value(), a, b, before, after);
    graph.passes := h.passes;
    graph.resources := h.resources;
    graph.edges := h.edges;
    graph.draws := h.draws;
    graph.commands := h.commands;
  }

  // ----- the scan for a pair -----

  /** The tracker, when there is one, has an identity for every pass. */
  ghost predicate Tracks(tracker: ReturnDiagnosticTracker?, n: nat)
    reads tracker
  {
    tracker != null ==> |tracker.passIdentities| == n
  }

  ghost function StatsOf(stats: OptimizerStats?): Option<Counters>
    reads stats
  {
    if stats == null then None else Some(stats.Value())
  }

  ghost function LedgerOf(stats: OptimizerStats?, tracker: ReturnDiagnosticTracker?): Ledger
    reads stats, tracker
  {
    Ledger(StatsOf(stats), if tracker == null then None else Some(tracker.Value()))
  }

  /** How many of the moved passes carry commands. */
  method CountCommandBearing(g: Graph, moved: seq<nat>) returns (bearing: nat, empty: nat)
    requires Bounded(moved, |g.passes|)
    ensures bearing == Bearing(g, moved) && empty == |moved| - bearing
  {
    bearing, empty := 0, 0;
    for i := 0 to |moved|
      invariant bearing == Bearing(g, moved[..i]) && empty == i - bearing
    {
      assert moved[..i + 1][..i] == moved[..i];
      if g.passes[moved[i]].commands.count == 0 {
        empty := empty + 1;
      } else {
        bearing := bearing + 1;
      }
    }
    assert moved[..|moved|] == moved;
  }

  /** What screening a pair of candidates answers. */
  ghost predicate Screened(g: Graph, a: nat, b: nat, collect: bool, ok: bool, s: ScanState) {
    && ok == Mergeable(g, a, b)
    && (ok ==> s == ScanState(Movers(g, a, b, Before, b), Movers(g, a, b, After, b), WindowCounts(g, a, b, collect)))
  }

  lemma ScreenedOut(g: Graph, a: nat, b: nat, collect: bool, s: ScanState)
    requires a < b < |g.passes|
    requires !EndpointsValid(g, a, b) || !DrawOnly(PassCommands(g)[b]) || !Candidates(g, a, b)
    ensures !Mergeable(g, a, b) && Screened(g, a, b, collect, false, s)
  {
    assert !Mergeable(g, a, b);
  }

  lemma ScreenedByScan(g: Graph, a: nat, b: nat, collect: bool, ok: bool, s: ScanState)
    requires a < b < |g.passes| && ScanAnswer(g, a, b, collect, ok, s)
    requires EndpointsValid(g, a, b) && DrawOnly(PassCommands(g)[b]) && Candidates(g, a, b)
    ensures ok == Mergeable(g, a, b) && Screened(g, a, b, collect, ok, s) && s.scan == WindowCounts(g, a, b, collect)
  {
    hide Movable, Movers, WindowCounts;
  }

  /** The checks on a pair with equal targets, and the counters of those that reject it. */
  method ScreenPair(g: Graph, a: nat, b: nat, collect: bool, stats: OptimizerStats?) returns (ok: bool, s: ScanState)
    requires a < b < |g.passes| && Candidates(g, a, b)
    requires collect ==> stats != null
    modifies stats
    ensures ok == Mergeable(g, a, b) && Screened(g, a, b, collect, ok, s)
    ensures stats != null ==>
      stats.Value() == if ok then old(stats.Value()) else Screening(g, a, b, collect, old(stats.Value()))
  {
    hide Screened, ScanAnswer, DrawOnly, Mergeable, WindowCounts;
    ok, s := false, SCAN_START;
    var pa, pb := g.passes[a], g.passes[b];
    if !EndpointsValid(g, a, b) {
      ScreenedOut(g, a, b, collect, s);
      if collect {
        stats.CountMissing(collect);
      }
      return;
    }
    var nonDraw := HasNonDrawCommand(g, pb);
    if nonDraw {
      ScreenedOut(g, a, b, collect, s);
      if stats != null {
        stats.CountSecondNonDraw(collect, pa.flags.activeRenderSeed);
      }
      return;
    }
    ok, s := ScanWindow(g, a, b, collect);
    ScreenedByScan(g, a, b, collect, ok, s);
    if !ok && stats != null {
      RejectionCounted(g, a, b, collect, s, stats.Value());
      stats.CountRejected(collect, pa.flags.activeRenderSeed, s.scan);
    }
  }

  lemma RejectionCounted(g: Graph, a: nat, b: nat, collect: bool, s: ScanState, c: Counters)
    requires a < b < |g.passes| && Screened(g, a, b, collect, false, s) && s.scan == WindowCounts(g, a, b, collect)
    requires EndpointsValid(g, a, b) && DrawOnly(PassCommands(g)[b])
    ensures Screening(g, a, b, collect, c) == c.Rejected(collect, g.passes[a].flags.activeRenderSeed, s.scan)
  {
  }

  /** Whether this pair is a return candidate, which is counted as soon as it is. */
  method OpenCandidate(g: Graph, a: nat, b: nat, stats: OptimizerStats?, tracker: ReturnDiagnosticTracker?)
    returns (collect: bool)
    requires a < b < |g.passes|
    modifies stats, tracker
    ensures collect == Collects(a, b, old(LedgerOf(stats, tracker)))
    ensures collect ==> stats != null && tracker != null && a + 2 <= b
    ensures stats != null ==> stats.Value() == Opened(g, a, b, collect, old(stats.Value()))
    ensures tracker != null ==> tracker.Value() == Met(a, b, old(LedgerOf(stats, tracker)))
  {
    collect := false;
    if stats != null && tracker != null && b > a + 1 {
      collect := tracker.BeginCandidate(a, b);
      if collect {
        stats.CountCandidate(EndpointsValid(g, a, b) && g.passes[b].commands.count == 0);
      }
    }
  }

  /** The body of the scan: one pair (a, b). */
  method TryPair(graph: FrameGraph, a: nat, b: nat, stats: OptimizerStats?, tracker: ReturnDiagnosticTracker?)
    returns (merged: bool)
    requires Admissible(graph.Value()) && a < b < |graph.passes|
    requires LiveRender(graph.passes[a])
    requires Tracks(tracker, |graph.passes|)
    modifies graph, stats, tracker
    ensures merged == old(Mergeable(graph.Value(), a, b))
    ensures graph.Value() == if merged then Merge(old(graph.Value()), a, b) else old(graph.Value())
    ensures Tracks(tracker, |graph.passes|)
    ensures LedgerOf(stats, tracker) == PairCounted(old(graph.Value()), a, b, old(LedgerOf(stats, tracker)))
  {
    hide Mergeable, Merge, Movers, Rebuildable, Stuck, Screening, Screened;
    var g := graph.Value();
    if !g.passes[b].kind.Render? || g.passes[b].flags.dead || g.passes[a].targets != g.passes[b].targets {
      ScreenedOut(g, a, b, false, SCAN_START);
      return false;
    }
    var collect := OpenCandidate(g, a, b, stats, tracker);
    var s;
    merged, s := ScreenPair(g, a, b, collect, stats);
    if merged {
      FinishMerge(graph, a, b, s, collect, stats, tracker);
    }
  }

  /** A pair passed every check: rebuild, then tell the tracker and the counters. */
  method FinishMerge(graph: FrameGraph, a: nat, b: nat, s: ScanState,
                     collect: bool, stats: OptimizerStats?, tracker: ReturnDiagnosticTracker?)
    requires Admissible(graph.Value()) && Mergeable(graph.Value(), a, b)
    requires Screened(graph.Value(), a, b, collect, true, s)
    requires Tracks(tracker, |graph.passes|)
    modifies graph, stats, tracker
    ensures graph.Value() == Merge(old(graph.Value()), a, b)
    ensures Tracks(tracker, |graph.passes|)
    ensures tracker != null ==>
      tracker.Value() == old(tracker.Value()).Rebuilt(MarkedOrder(old(graph.Value()), a, b), a, b)
    ensures stats != null ==>
      stats.Value() == Screening(old(graph.Value()), a, b, collect, old(stats.Value()))
  {
    hide Screened, Mergeable, Merge, Movers, MarkedOrder, Admissible, Screening, Bearing, Bounded, Tracking.Rebuilt;
    var g := graph.Value();
    MergeBounds(g, a, b, collect, s);
    var commandBefore, beforeEmpty := CountCommandBearing(g, s.before);
    var commandAfter, afterEmpty := CountCommandBearing(g, s.after);
    MergeTracked(graph, a, b, s.before, s.after, tracker);
    if stats != null {
      SettleMerge(g, a, b, s, collect, MergeShape(b - a, commandBefore, commandAfter, beforeEmpty + afterEmpty), stats);
    }
  }

  lemma MergeBounds(g: Graph, a: nat, b: nat, collect: bool, s: ScanState)
    requires Mergeable(g, a, b) && Screened(g, a, b, collect, true, s)
    ensures a < b < |g.passes| && |s.before| + |s.after| == b - a - 1
    ensures Bounded(s.before, |g.passes|) && Bounded(s.after, |g.passes|)
    ensures s.before == Movers(g, a, b, Before, b) && s.after == Movers(g, a, b, After, b)
  {
    MoverCount(g, a, b);
  }

  /** The rebuilt graph, and the identities that follow its passes. */
  method MergeTracked(graph: FrameGraph, a: nat, b: nat, before: seq<nat>, after: seq<nat>,
                      tracker: ReturnDiagnosticTracker?)
    requires Admissible(graph.Value()) && Mergeable(graph.Value(), a, b)
    requires before == Movers(graph.Value(), a, b, Before, b) && after == Movers(graph.Value(), a, b, After, b)
    requires Tracks(tracker, |graph.passes|)
    modifies graph, tracker
    ensures graph.Value() == Merge(old(graph.Value()), a, b)
    ensures Tracks(tracker, |graph.passes|)
    ensures tracker != null ==>
      tracker.Value() == old(tracker.Value()).Rebuilt(MarkedOrder(old(graph.Value()), a, b), a, b)
  {
    hide Mergeable, Merge, Movers, MarkedOrder, OrderList, Admissible, Tracking.Rebuilt;
    MergedOrderFacts(graph.Value(), a, b);
    var order := ApplyMerge(graph, a, b, before, after);
    if tracker != null {
      tracker.Rebuild(order, a, b, a + |before|);
    }
  }

  method SettleMerge(g: Graph, a: nat, b: nat, s: ScanState, collect: bool, merge: MergeShape, stats: OptimizerStats)
    requires Mergeable(g, a, b) && Screened(g, a, b, collect, true, s)
    requires Bounded(s.before, |g.passes|) && Bounded(s.after, |g.passes|)
    requires merge == MergeShape(b - a, Bearing(g, s.before), Bearing(g, s.after),
                                 |s.before| - Bearing(g, s.before) + (|s.after| - Bearing(g, s.after)))
    modifies stats
    ensures stats.Value() == Screening(g, a, b, collect, old(stats.Value()))
  {
    MergeCounted(g, a, b, collect, s, stats.Value());
    hide Mergeable, Screened, Screening;
    stats.CountMerged(collect, g.passes[a].flags.activeRenderSeed, s.scan, merge);
  }

  /** What rebuilding and counting need of the order list. */
  lemma MergedOrderFacts(g: Graph, a: nat, b: nat)
    requires Mergeable(g, a, b) && Admissible(g)
    ensures a < b < |g.passes|
    ensures Bounded(Movers(g, a, b, Before, b), |g.passes|) && Bounded(Movers(g, a, b, After, b), |g.passes|)
    ensures OrderList(MarkedOrder(g, a, b), a + |Movers(g, a, b, Before, b)|, |g.passes|)
    ensures |MarkedOrder(g, a, b)| == |Merge(g, a, b).passes|
  {
    MarkedOrderList(g, a, b);
    MergeShrinks(g, a, b);
    hide MarkedOrder, Merge, OrderList;
  }

  /** Merging counts the window's scan and the shape of the move. */
  lemma MergeCounted(g: Graph, a: nat, b: nat, collect: bool, s: ScanState, c: Counters)
    requires Mergeable(g, a, b) && Screened(g, a, b, collect, true, s)
    ensures Bounded(s.before, |g.passes|) && Bounded(s.after, |g.passes|)
    ensures Screening(g, a, b, collect, c)
      == c.Merged(collect, g.passes[a].flags.activeRenderSeed, s.scan,
                  MergeShape(b - a, Bearing(g, s.before), Bearing(g, s.after),
                             |s.before| - Bearing(g, s.before) + (|s.after| - Bearing(g, s.after))))
  {
    hide WindowCounts, Classify;
  }

  /** Merge the first mergeable pair in ascending (a, b) order, if there is one. */
  method CoalesceOnce(graph: FrameGraph, stats: OptimizerStats?, tracker: ReturnDiagnosticTracker?)
    returns (merged: bool)
    requires Admissible(graph.Value()) && Tracks(tracker, |graph.passes|)
    modifies graph, stats, tracker
    ensures Admissible(graph.Value()) && Tracks(tracker, |graph.passes|)
    ensures !merged ==> Stuck(old(graph.Value())) && graph.Value() == old(graph.Value())
    ensures merged ==> exists a: nat, b: nat ::
      FirstMergeable(old(graph.Value()), a, b) && graph.Value() == Merge(old(graph.Value()), a, b)
    ensures LedgerOf(stats, tracker) == Swept(old(graph.Value()), 0, 1, old(LedgerOf(stats, tracker)))
  {
    hide PairCounted, Swept, LedgerOf, Tracks, Mergeable, Merge, Admissible, NoneBefore, Stuck;
    ghost var g := graph.Value();
    ghost var swept := Swept(g, 0, 1, LedgerOf(stats, tracker));
    NoneYet(g);
    var n := |graph.passes|;
    var a := 0;
    while a < n
      invariant 0 <= a <= n
      invariant graph.Value() == g && NoneBefore(g, a, a + 1) && Tracks(tracker, n)
      invariant Swept(g, a, a + 1, LedgerOf(stats, tracker)) == swept
    {
      var pa := graph.passes[a];
      if pa.kind.Render? && !pa.flags.dead {
        var b := a + 1;
        while b < n
          invariant a < b <= n
          invariant graph.Value() == g && NoneBefore(g, a, b) && Tracks(tracker, n)
          invariant Swept(g, a, b, LedgerOf(stats, tracker)) == swept
        {
          SweptMeets(g, a, b, LedgerOf(stats, tracker));
          merged := TryPair(graph, a, b, stats, tracker);
          if merged {
            assert FirstMergeable(g, a, b);
            MergeAdmissible(g, a, b);
            return true;
          }
          PairDone(g, a, b);
          b := b + 1;
        }
        RowDone(g, a, b);
        SweptRow(g, a, b, LedgerOf(stats, tracker));
      } else {
        RowDone(g, a, a + 1);
        SweptPast(g, a, a + 1, LedgerOf(stats, tracker));
      }
      a := a + 1;
    }
    SweepDone(g, a, a + 1);
    SweptOut(g, a, LedgerOf(stats, tracker));
    return false;
  }

  /** The ledger a run starts with. */
  ghost function Opening(g: Graph, stats: Option<Counters>, collectReturnDiagnostics: bool): Ledger {
    Ledger(stats, if collectReturnDiagnostics && stats.Some? then Some(StartTracking(g)) else None)
  }

  /**
    Merge to a fixpoint. The result is the same whether or not statistics or
    diagnostics are kept, the guard never ends the loop early, and every counter
    ends as Tallied says.
   */
  method RunPassCoalesce(graph: FrameGraph, stats: OptimizerStats?, collectReturnDiagnostics: bool)
    requires Admissible(graph.Value())
    modifies graph, stats
    ensures graph.Value() == Coalesced(old(graph.Value()))
    ensures Stuck(graph.Value()) && Admissible(graph.Value())
    ensures StatsOf(stats)
      == Tallied(old(graph.Value()), Opening(old(graph.Value()), old(StatsOf(stats)), collectReturnDiagnostics)).stats
    ensures stats != null && old(stats.Value().Balanced()) ==>
      && stats.Value().Balanced()
      && stats.coalesced + |graph.passes| == old(stats.coalesced + |graph.passes|)
      && (!collectReturnDiagnostics ==> stats.candidates == old(stats.candidates))
  {
    hide Tallied, Swept, Movable, Merge, Coalesced, Rebuildable;
    var tracker: ReturnDiagnosticTracker? := null;
    if collectReturnDiagnostics && stats != null {
      tracker := new ReturnDiagnosticTracker(graph.Value());
    }
    ghost var g0, opening := graph.Value(), LedgerOf(stats, tracker);
    if stats != null && stats.Value().Balanced() {
      OpeningSound(g0, StatsOf(stats), collectReturnDiagnostics);
    }
    var guard := |graph.passes|;
    var more := true;
    while guard > 0 && more
      invariant more ==> guard == |graph.passes|
      invariant !more ==> Stuck(graph.Value())
      invariant Admissible(graph.Value()) && Coalesced(graph.Value()) == Coalesced(g0)
      invariant tracker == null || fresh(tracker)
      invariant Tracks(tracker, |graph.passes|)
      invariant more ==> Tallied(graph.Value(), LedgerOf(stats, tracker)) == Tallied(g0, opening)
      invariant !more ==> LedgerOf(stats, tracker) == Tallied(g0, opening)
      decreases guard
    {
      ghost var g, l := graph.Value(), LedgerOf(stats, tracker);
      guard := guard - 1;
      more := CoalesceOnce(graph, stats, tracker);
      if more {
        ghost var a: nat, b: nat :| FirstMergeable(g, a, b) && graph.Value() == Merge(g, a, b);
        CoalescedStep(g, a, b);
        TalliedStep(g, a, b, l);
        MergeShrinks(g, a, b);
      } else {
        TalliedStop(g, l);
      }
    }
    if more {
      NoPasses(graph.Value(), LedgerOf(stats, tracker));
    }
    CoalescedStop(graph.Value());
  }

  lemma NoPasses(g: Graph, l: Ledger)
    requires g.passes == []
    ensures Stuck(g) && Tallied(g, l) == l
  {
    assert Stuck(g);
    TalliedStop(g, l);
  }

  /** From balanced counters, what a run adds to them. */
  lemma OpeningSound(g: Graph, stats: Option<Counters>, collectReturnDiagnostics: bool)
    requires |g.passes| <= NO_PASS && stats.Some? && stats.value.Balanced()
    ensures
      var r := Tallied(g, Opening(g, stats, collectReturnDiagnostics)).stats;
      && r.Some? && r.value.Balanced()
      && r.value.coalesced + |Coalesced(g).passes| == stats.value.coalesced + |g.passes|
      && (!collectReturnDiagnostics ==> r.value.candidates == stats.value.candidates)
  {
    var l := Opening(g, stats, collectReturnDiagnostics);
    assert Sound(l, |g.passes|);
    TalliedSound(g, l);
  }
}
