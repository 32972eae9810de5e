/**
  What a run of pass coalescing counts, as a function of the graph alone: the scan
  of a window, the screening of a pair, one sweep, and the run to the fixpoint.
 */
module CoalesceCounts {
  import opened Options
  import opened Sequences
  import opened FrameGraphs
  import opened Coalescing
  import opened Provenance
  import opened Fixpoint
  import opened CoalesceDiagnostics

  // ----- the order list of a merge -----

  /** The order list of a merge; the merged pass is the marker. */
  ghost function MarkedOrder(g: Graph, a: nat, b: nat): seq<nat>
    requires a < b < |g.passes|
  {
    Iota(0, a) + (Movers(g, a, b, Before, b) + ([NO_PASS] + (Movers(g, a, b, After, b) + Iota(b + 1, |g.passes|))))
  }

  lemma MarkedOrderGroups(g: Graph, a: nat, b: nat, k: nat)
    requires a < b < |g.passes| <= NO_PASS
    requires k < |MergeGroups(g, a, b)|
    ensures |MarkedOrder(g, a, b)| == |MergeGroups(g, a, b)|
    ensures
      var src := MarkedOrder(g, a, b)[k];
      && (src == NO_PASS || src < |g.passes|)
      && MergeGroups(g, a, b)[k] == if src == NO_PASS then [a, b] else [src]
  {
    var low, before, after, high :=
      Iota(0, a), Movers(g, a, b, Before, b), Movers(g, a, b, After, b), Iota(b + 1, |g.passes|);
    PieceOf(low, before, [NO_PASS], after, high, k);
    PieceOf(Singles(low), Singles(before), [[a, b]], Singles(after), Singles(high), k);
  }

  lemma MergeGroupsMarked(g: Graph, a: nat, b: nat)
    requires Mergeable(g, a, b) && |g.passes| <= NO_PASS
    ensures GroupsOf(MergeGroups(g, a, b), |g.passes|) && |MergeGroups(g, a, b)| < |g.passes|
    ensures Marks(MarkedOrder(g, a, b), MergeGroups(g, a, b), a, b, |g.passes|)
  {
    MergeShrinks(g, a, b);
    MergeGroupsValid(g, a, b);
    MarkedOrderGroups(g, a, b, 0);
    forall k | 0 <= k < |MarkedOrder(g, a, b)|
      ensures
        var src := MarkedOrder(g, a, b)[k];
        && (src == NO_PASS || src < |g.passes|)
        && MergeGroups(g, a, b)[k] == if src == NO_PASS then [a, b] else [src]
    {
      MarkedOrderGroups(g, a, b, k);
    }
  }

  /** `order` names the same groups, with the marker for the pair. */
  ghost predicate Marks(order: seq<nat>, groups: seq<seq<nat>>, a: nat, b: nat, n: nat) {
    && |order| == |groups|
    && forall k :: 0 <= k < |order| ==>
      && (order[k] == NO_PASS || order[k] < n)
      && groups[k] == if order[k] == NO_PASS then [a, b] else [order[k]]
  }

  lemma MarkedOrderDistinct(g: Graph, a: nat, b: nat)
    requires Mergeable(g, a, b) && |g.passes| <= NO_PASS
    ensures NoDuplicates(MarkedOrder(g, a, b))
  {
    MergeGroupsMarked(g, a, b);
    InterveningNotBlocked(g, a, b);
    FlattenMergeGroups(g, a, b);
    MergeOrderPermutation(g, a, b);
    hide MarkedOrder, MergeGroups, MergeOrder, Marks, Flatten, Permutation, Mergeable;
    MarksDistinct(MarkedOrder(g, a, b), MergeGroups(g, a, b), a, b, |g.passes|);
  }

  lemma MarksDistinct(order: seq<nat>, groups: seq<seq<nat>>, a: nat, b: nat, n: nat)
    requires Marks(order, groups, a, b, n) && Permutation(Flatten(groups), n)
    ensures NoDuplicates(order)
  {
    hide Flatten, Permutation;
    forall i, j | 0 <= i < j < |order| ensures order[i] != order[j] {
      assert groups[i] == (if order[i] == NO_PASS then [a, b] else [order[i]]);
      assert groups[j] == (if order[j] == NO_PASS then [a, b] else [order[j]]);
      assert groups[i][0] in groups[i];
      if groups[i][0] in groups[j] {
        GroupsDisjoint(groups, n, i, j, groups[i][0]);
      }
    }
  }

  lemma MarkerPosition(g: Graph, a: nat, b: nat) returns (at: nat)
    requires a < b < |g.passes|
    ensures at < |MarkedOrder(g, a, b)| && MarkedOrder(g, a, b)[at] == NO_PASS
  {
    at := a + |Movers(g, a, b, Before, b)|;
  }

  // ----- what the scan of a window notes -----

  predicate HasSemanticFlag(p: PassNode) {
    p.flags.containsLock || p.flags.containsOcclusionQuery || p.flags.containsEventQuery || p.flags.debugMarker
  }

  /** What is noted of an intervening pass before it is classified. */
  function CountIntervener(g: Graph, x: nat, collect: bool, nonDraw: bool, scan: WindowScan): WindowScan
    requires x < |g.passes|
  {
    if !collect then scan
    else
      var commandless := g.passes[x].commands.count == 0;
      scan.(
        commandless := scan.commandless + (if commandless then 1 else 0),
        nonDraw := scan.nonDraw + (if !commandless && nonDraw then 1 else 0),
        semantic := scan.semantic + (if HasSemanticFlag(g.passes[x]) then 1 else 0))
  }

  /** What is noted once it moves. */
  function CountMove(g: Graph, x: nat, collect: bool, m: Move, scan: WindowScan): WindowScan
    requires x < |g.passes|
  {
    if !collect then scan
    else if m == Before then
      scan.(
        moveBefore := scan.moveBefore + 1,
        dependencyKept := scan.dependencyKept + (if g.passes[x].commands.count == 0 then 0 else 1))
    else scan.(moveAfter := scan.moveAfter + 1)
  }

  /** The first pass of the window that stops the scan, if any, decides the reason. */
  ghost predicate StopsAt(g: Graph, a: nat, b: nat, scan: WindowScan) {
    exists x: nat ::
      && a < x < b < |g.passes|
      && (forall y: nat :: a < y < x ==> Movable(g, a, b, y))
      && !Movable(g, a, b, x)
      && (scan.nonRender <==> !g.passes[x].kind.Render?)
      && (scan.missingInvariant <==> g.passes[x].kind.Render? && (g.passes[x].flags.dead || !ValidPass(g, g.passes[x])))
      && (scan.blockedCycle <==> LiveRender(g.passes[x]) && ValidPass(g, g.passes[x]))
  }

  const NOTHING_SEEN := WindowScan(false, false, false, 0, 0, 0, 0, 0, 0)

  /** What a scan that arrives at x with `scan` will have noted when it ends. */
  ghost function ScanCounts(g: Graph, a: nat, b: nat, x: nat, collect: bool, scan: WindowScan): WindowScan
    requires b < |g.passes|
    decreases b - x
  {
    if x >= b then scan
    else if !g.passes[x].kind.Render? then scan.(nonRender := true)
    else if g.passes[x].flags.dead || !ValidPass(g, g.passes[x]) then scan.(missingInvariant := true)
    else
      var counted := CountIntervener(g, x, collect, !DrawOnly(PassCommands(g)[x]), scan);
      var m := Classify(g, a, b, x);
      if m == Blocked then counted.(blockedCycle := true)
      else ScanCounts(g, a, b, x + 1, collect, CountMove(g, x, collect, m, counted))
  }

  ghost function WindowCounts(g: Graph, a: nat, b: nat, collect: bool): WindowScan
    requires a < b < |g.passes|
  {
    ScanCounts(g, a, b, a + 1, collect, NOTHING_SEEN)
  }

  ghost predicate AllMove(g: Graph, a: nat, b: nat, x: nat) {
    forall y: nat :: a < y < x ==> y < |g.passes| && Movable(g, a, b, y)
  }

  /** No reason if the window opens, and otherwise the first pass that cannot move names the one reason. */
  ghost predicate Explains(g: Graph, a: nat, b: nat, scan: WindowScan) {
    && scan.Consistent()
    && (AllMove(g, a, b, b) ==> scan.NoReason())
    && (!AllMove(g, a, b, b) ==> scan.OneReason() && StopsAt(g, a, b, scan))
  }

  lemma StopExplained(g: Graph, a: nat, b: nat, x: nat, collect: bool, scan: WindowScan)
    requires a < x < b < |g.passes| && scan.Consistent() && scan.NoReason()
    requires AllMove(g, a, b, x) && !Movable(g, a, b, x)
    ensures Explains(g, a, b, ScanCounts(g, a, b, x, collect, scan))
  {
    hide DrawOnly, Classify;
    assert !AllMove(g, a, b, b);
    assert forall y: nat :: a < y < x ==> Movable(g, a, b, y);
    var r := ScanCounts(g, a, b, x, collect, scan);
    assert StopsAt(g, a, b, r);
  }

  lemma MoveCounted(g: Graph, x: nat, collect: bool, nonDraw: bool, m: Move, scan: WindowScan)
    requires x < |g.passes| && scan.Consistent() && scan.NoReason()
    ensures
      var r := CountMove(g, x, collect, m, CountIntervener(g, x, collect, nonDraw, scan));
      r.Consistent() && r.NoReason()
  {
  }

  lemma {:induction false} ScanCountsMeaning(g: Graph, a: nat, b: nat, x: nat, collect: bool, scan: WindowScan)
    requires a < x <= b < |g.passes| && scan.Consistent() && scan.NoReason() && AllMove(g, a, b, x)
    ensures Explains(g, a, b, ScanCounts(g, a, b, x, collect, scan))
    decreases b - x
  {
    hide StopsAt, Classify, DrawOnly, CountIntervener, CountMove, ValidPass;
    if x < b {
      if Movable(g, a, b, x) {
        var nonDraw, m := !DrawOnly(PassCommands(g)[x]), Classify(g, a, b, x);
        MoveCounted(g, x, collect, nonDraw, m, scan);
        ScanCountsMeaning(g, a, b, x + 1, collect,
                          CountMove(g, x, collect, m, CountIntervener(g, x, collect, nonDraw, scan)));
      } else {
        StopExplained(g, a, b, x, collect, scan);
      }
    }
  }

  lemma WindowCountsMeaning(g: Graph, a: nat, b: nat, collect: bool)
    requires a < b < |g.passes|
    ensures Explains(g, a, b, WindowCounts(g, a, b, collect))
  {
    hide Explains, ScanCounts;
    assert AllMove(g, a, b, a + 1);
    ScanCountsMeaning(g, a, b, a + 1, collect, NOTHING_SEEN);
  }

  // ----- what screening a pair counts -----

  predicate EndpointsValid(g: Graph, a: nat, b: nat)
    requires a < |g.passes| && b < |g.passes|
  {
    && ValidCommandRange(g, g.passes[a]) && ValidCommandRange(g, g.passes[b])
    && ValidDrawRange(g, g.passes[a]) && ValidDrawRange(g, g.passes[b])
  }

  /** How many of the listed passes carry commands. */
  function Bearing(g: Graph, moved: seq<nat>): (n: nat)
    requires Bounded(moved, |g.passes|)
    ensures n <= |moved|
  {
    if moved == [] then 0
    else
      Bearing(g, moved[..|moved| - 1]) + if g.passes[moved[|moved| - 1]].commands.count == 0 then 0 else 1
  }

  ghost function ShapeOf(g: Graph, a: nat, b: nat): (merge: MergeShape)
    requires Mergeable(g, a, b)
    ensures merge.Whole() && merge.distance == b - a
  {
    MoverCount(g, a, b);
    var before, after := Movers(g, a, b, Before, b), Movers(g, a, b, After, b);
    var cb, ca := Bearing(g, before), Bearing(g, after);
    MergeShape(b - a, cb, ca, |before| - cb + (|after| - ca))
  }

  /** What the counters hold once a pair of live render passes with equal targets was screened and, if it passed, merged. */
  ghost function Screening(g: Graph, a: nat, b: nat, collect: bool, c: Counters): Counters
    requires a < b < |g.passes|
  {
    var seed := g.passes[a].flags.activeRenderSeed;
    if !EndpointsValid(g, a, b) then c.Missing(collect)
    else if !DrawOnly(PassCommands(g)[b]) then c.SecondNonDraw(collect, seed)
    else if Mergeable(g, a, b) then c.Merged(collect, seed, WindowCounts(g, a, b, collect), ShapeOf(g, a, b))
    else c.Rejected(collect, seed, WindowCounts(g, a, b, collect))
  }

  /** The counters and the tracking of a run, each where the run keeps it. */
  datatype Ledger = Ledger(stats: Option<Counters>, tracking: Option<Tracking>)

  predicate Candidates(g: Graph, a: nat, b: nat)
    requires a < |g.passes| && b < |g.passes|
  {
    LiveRender(g.passes[a]) && LiveRender(g.passes[b]) && g.passes[a].targets == g.passes[b].targets
  }

  predicate Diagnosed(a: nat, b: nat, l: Ledger) {
    l.stats.Some? && l.tracking.Some? && b > a + 1
  }

  predicate Collects(a: nat, b: nat, l: Ledger) {
    Diagnosed(a, b, l) && l.tracking.value.IsNew(a, b)
  }

  /** A candidate is counted before anything is checked of it. */
  function Opened(g: Graph, a: nat, b: nat, collect: bool, c: Counters): Counters
    requires a < |g.passes| && b < |g.passes|
  {
    if collect then c.Candidate(EndpointsValid(g, a, b) && g.passes[b].commands.count == 0) else c
  }

  /** The tracking once the pair was met. */
  function Met(a: nat, b: nat, l: Ledger): Tracking
    requires l.tracking.Some?
  {
    if Diagnosed(a, b, l) then l.tracking.value.Begun(a, b) else l.tracking.value
  }

  /** The counters of a pair, counted as a return candidate or not. */
  ghost function PairStats(g: Graph, a: nat, b: nat, collect: bool, c: Counters): Counters
    requires a < b < |g.passes|
  {
    Screening(g, a, b, collect, Opened(g, a, b, collect, c))
  }

  /** The tracking after a pair was met, and merged if it can be. */
  ghost function PairTracking(g: Graph, a: nat, b: nat, l: Ledger): Option<Tracking>
    requires a < b < |g.passes|
  {
    if l.tracking.None? then None
    else
      var t := Met(a, b, l);
      Some(if Mergeable(g, a, b) then t.Rebuilt(MarkedOrder(g, a, b), a, b) else t)
  }

  /** What meeting the pair (a, b) makes of the ledger. */
  ghost function PairCounted(g: Graph, a: nat, b: nat, l: Ledger): Ledger
    requires a < b < |g.passes|
  {
    if !Candidates(g, a, b) then l
    else
      Ledger(
        if l.stats.None? then None else Some(PairStats(g, a, b, Collects(a, b, l), l.stats.value)),
        PairTracking(g, a, b, l))
  }

  /** One sweep over the pairs from (a, b) on, up to the first that merges. */
  ghost function Swept(g: Graph, a: nat, b: nat, l: Ledger): Ledger
    requires a < b
    decreases |g.passes| - a, |g.passes| - b
  {
    if a >= |g.passes| then l
    else if b >= |g.passes| then Swept(g, a + 1, a + 2, l)
    else if Mergeable(g, a, b) then PairCounted(g, a, b, l)
    else Swept(g, a, b + 1, PairCounted(g, a, b, l))
  }

  /** A whole run: sweep, and sweep again for as long as a pair merges. */
  ghost function Tallied(g: Graph, l: Ledger): Ledger
    decreases |g.passes|
  {
    if exists a: nat, b: nat :: FirstMergeable(g, a, b) then
      var a: nat, b: nat :| FirstMergeable(g, a, b);
      MergeShrinks(g, a, b);
      Tallied(Merge(g, a, b), Swept(g, 0, 1, l))
    else Swept(g, 0, 1, l)
  }

  lemma TalliedStep(g: Graph, a: nat, b: nat, l: Ledger)
    requires FirstMergeable(g, a, b)
    ensures Tallied(g, l) == Tallied(Merge(g, a, b), Swept(g, 0, 1, l))
  {
    var c: nat, d: nat :| FirstMergeable(g, c, d) && Tallied(g, l) == Tallied(Merge(g, c, d), Swept(g, 0, 1, l));
    FirstMergeableUnique(g, a, b, c, d);
  }

  lemma TalliedStop(g: Graph, l: Ledger)
    requires Stuck(g)
    ensures Tallied(g, l) == Swept(g, 0, 1, l)
  {
  }

  lemma SweptMeets(g: Graph, a: nat, b: nat, l: Ledger)
    requires a < b < |g.passes|
    ensures Mergeable(g, a, b) ==> Swept(g, a, b, l) == PairCounted(g, a, b, l)
    ensures !Mergeable(g, a, b) ==> Swept(g, a, b, l) == Swept(g, a, b + 1, PairCounted(g, a, b, l))
  {
    hide PairCounted, Mergeable;
  }

  lemma SweptRow(g: Graph, a: nat, b: nat, l: Ledger)
    requires a < |g.passes| <= b
    ensures Swept(g, a, b, l) == Swept(g, a + 1, a + 2, l)
  {
    hide PairCounted, Mergeable;
  }

  lemma SweptOut(g: Graph, a: nat, l: Ledger)
    requires a >= |g.passes|
    ensures Swept(g, a, a + 1, l) == l
  {
  }

  /** A dead or non-render first pass counts nothing. */
  lemma {:induction false} SweptPast(g: Graph, a: nat, b: nat, l: Ledger)
    requires a < b && a < |g.passes| && !LiveRender(g.passes[a])
    ensures Swept(g, a, b, l) == Swept(g, a + 1, a + 2, l)
    decreases |g.passes| - b
  {
    if b < |g.passes| {
      SweptPast(g, a, b + 1, l);
    }
  }

  // ----- what the counters count -----

  /** What a scan notes of a pass. */
  datatype Note = Semantic | Commandless | NonDraws | Early | Late | Kept

  function NoteOf(scan: WindowScan, w: Note): nat {
    match w
    case Semantic => scan.semantic
    case Commandless => scan.commandless
    case NonDraws => scan.nonDraw
    case Early => scan.moveBefore
    case Late => scan.moveAfter
    case Kept => scan.dependencyKept
  }

  ghost predicate Feeds(g: Graph, a: nat, b: nat, y: nat) {
    Reaches(g, y, a) || Reaches(g, y, b)
  }

  /** The scan gets as far as y, and y is a live render pass within its arrays. */
  ghost predicate Reached(g: Graph, a: nat, b: nat, y: nat) {
    a < y < b && y < |g.passes| && AllMove(g, a, b, y) && LiveRender(g.passes[y]) && ValidPass(g, g.passes[y])
  }

  /** The scan notes this of y. */
  ghost predicate Notes(g: Graph, a: nat, b: nat, y: nat, w: Note) {
    && Reached(g, a, b, y)
    && var p := g.passes[y];
       match w
       case Semantic =>
         p.flags.containsLock || p.flags.containsOcclusionQuery || p.flags.containsEventQuery || p.flags.debugMarker
       case Commandless => p.commands.count == 0
       case NonDraws => p.commands.count != 0 && exists c :: c in Slice(g.commands, p.commands) && !c.kind.DrawRun?
       case Early => Movable(g, a, b, y) && Feeds(g, a, b, y)
       case Late => Movable(g, a, b, y) && !Feeds(g, a, b, y)
       case Kept => Movable(g, a, b, y) && Feeds(g, a, b, y) && p.commands.count != 0
  }

  ghost function NotedFrom(g: Graph, a: nat, b: nat, x: nat, w: Note): set<nat> {
    set y: nat | x <= y < b && Notes(g, a, b, y, w)
  }

  lemma NotedSplit(g: Graph, a: nat, b: nat, x: nat, w: Note)
    requires x < b
    ensures |NotedFrom(g, a, b, x, w)| == |NotedFrom(g, a, b, x + 1, w)| + (if Notes(g, a, b, x, w) then 1 else 0)
  {
    hide Notes;
    assert NotedFrom(g, a, b, x, w)
        == NotedFrom(g, a, b, x + 1, w) + (if Notes(g, a, b, x, w) then {x} else {});
  }

  lemma NotedNoneAfter(g: Graph, a: nat, b: nat, x: nat, w: Note)
    requires a < x < b < |g.passes| && !Movable(g, a, b, x)
    ensures NotedFrom(g, a, b, x + 1, w) == {}
  {
    forall y: nat ensures !(x < y < b && Notes(g, a, b, y, w)) {
    }
  }

  lemma NotedOne(g: Graph, a: nat, b: nat, x: nat, scan: WindowScan, w: Note)
    requires a < x < b < |g.passes| && AllMove(g, a, b, x) && LiveRender(g.passes[x]) && ValidPass(g, g.passes[x])
    ensures
      var m := Classify(g, a, b, x);
      var counted := CountIntervener(g, x, true, !DrawOnly(PassCommands(g)[x]), scan);
      var next := if m == Blocked then counted.(blockedCycle := true) else CountMove(g, x, true, m, counted);
      NoteOf(next, w) == NoteOf(scan, w) + (if Notes(g, a, b, x, w) then 1 else 0)
  {
    hide Reaches, AllMove;
    assert DrawOnly(PassCommands(g)[x]) <==> !exists c :: c in Slice(g.commands, g.passes[x].commands) && !c.kind.DrawRun?;
  }

  /** A collecting scan counts, of each kind, exactly the passes it gets as far as. */
  lemma {:induction false} ScanCountsExactly(g: Graph, a: nat, b: nat, x: nat, scan: WindowScan, w: Note)
    requires a < x <= b < |g.passes| && AllMove(g, a, b, x)
    ensures NoteOf(ScanCounts(g, a, b, x, true, scan), w) == NoteOf(scan, w) + |NotedFrom(g, a, b, x, w)|
    decreases b - x
  {
    hide Notes, CountIntervener, CountMove, DrawOnly, NotedFrom, Classify;
    if x == b {
      NotedNone(g, a, b, w);
    } else {
      NotedSplit(g, a, b, x, w);
      if LiveRender(g.passes[x]) && ValidPass(g, g.passes[x]) {
        NotedOne(g, a, b, x, scan, w);
      } else {
        NotNoted(g, a, b, x, w);
      }
      if Movable(g, a, b, x) {
        var m := Classify(g, a, b, x);
        var counted := CountIntervener(g, x, true, !DrawOnly(PassCommands(g)[x]), scan);
        ScanCountsExactly(g, a, b, x + 1, CountMove(g, x, true, m, counted), w);
      } else {
        NotedNoneAfter(g, a, b, x, w);
      }
    }
  }

  lemma NotedNone(g: Graph, a: nat, b: nat, w: Note)
    ensures NotedFrom(g, a, b, b, w) == {}
  {
  }

  lemma NotNoted(g: Graph, a: nat, b: nat, x: nat, w: Note)
    requires x < |g.passes| && !(LiveRender(g.passes[x]) && ValidPass(g, g.passes[x]))
    ensures !Notes(g, a, b, x, w)
  {
  }

  /** Per window: what each counter of the scan takes when it collects; nothing when it does not. */
  lemma WindowCountsExactly(g: Graph, a: nat, b: nat, w: Note)
    requires a < b < |g.passes|
    ensures NoteOf(WindowCounts(g, a, b, true), w) == |NotedFrom(g, a, b, a + 1, w)|
    ensures NoteOf(WindowCounts(g, a, b, false), w) == 0
  {
    assert AllMove(g, a, b, a + 1);
    ScanCountsExactly(g, a, b, a + 1, NOTHING_SEEN, w);
    ScanSilent(g, a, b, a + 1, NOTHING_SEEN, w);
    hide ScanCounts, NotedFrom;
  }

  lemma {:induction false} ScanSilent(g: Graph, a: nat, b: nat, x: nat, scan: WindowScan, w: Note)
    requires b < |g.passes|
    ensures NoteOf(ScanCounts(g, a, b, x, false, scan), w) == NoteOf(scan, w)
    decreases b - x
  {
    if x < b {
      ScanSilent(g, a, b, x + 1, scan, w);
    }
  }

  /** The passes between the pair that carry commands and feed it, or do not; and those that carry none. */
  ghost function Carrying(g: Graph, a: nat, b: nat, feeds: bool): set<nat>
    requires b <= |g.passes|
  {
    set y: nat | a < y < b && g.passes[y].commands.count != 0 && Feeds(g, a, b, y) == feeds
  }

  ghost function Silent(g: Graph, a: nat, b: nat): set<nat>
    requires b <= |g.passes|
  {
    set y: nat | a < y < b && g.passes[y].commands.count == 0
  }

  /** The members of a list that carry commands. */
  ghost function BearingSet(g: Graph, moved: seq<nat>): (s: set<nat>)
    requires Bounded(moved, |g.passes|)
    ensures forall y: nat :: y in s <==> y in moved && g.passes[y].commands.count != 0
  {
    if moved == [] then {}
    else
      var init, last := moved[..|moved| - 1], moved[|moved| - 1];
      var before := BearingSet(g, init);
      if g.passes[last].commands.count == 0 then before else before + {last}
  }

  lemma {:induction false} BearingCounts(g: Graph, moved: seq<nat>)
    requires Bounded(moved, |g.passes|) && NoDuplicates(moved)
    ensures |BearingSet(g, moved)| == Bearing(g, moved)
  {
    if moved != [] {
      var init, last := moved[..|moved| - 1], moved[|moved| - 1];
      BearingCounts(g, init);
      assert last !in BearingSet(g, init);
    }
  }

  lemma MoversAre(g: Graph, a: nat, b: nat, y: nat)
    requires Mergeable(g, a, b) && a < y < b
    ensures y in Movers(g, a, b, Before, b) <==> Feeds(g, a, b, y)
    ensures y in Movers(g, a, b, After, b) <==> !Feeds(g, a, b, y)
  {
    InterveningNotBlocked(g, a, b);
    MoversPartition(g, a, b, b);
    assert Iota(a + 1, b)[y - a - 1] == y;
    assert y in multiset(Iota(a + 1, b));
    hide Reaches;
  }

  /** The shape of a merge counts the passes between the pair by whether they feed it and carry commands. */
  lemma ShapeExactly(g: Graph, a: nat, b: nat)
    requires Mergeable(g, a, b)
    ensures b <= |g.passes|
    ensures
      var merge := ShapeOf(g, a, b);
      && merge.distance == b - a
      && merge.commandBefore == |Carrying(g, a, b, true)| && merge.commandAfter == |Carrying(g, a, b, false)|
      && merge.empty == |Silent(g, a, b)|
  {
    hide Movers, Movable, Feeds, Bearing, ShapeOf;
    ShapeCounts(g, a, b);
    CarryingAre(g, a, b);
    BetweenSplits(g, a, b);
  }

  lemma CarryingAre(g: Graph, a: nat, b: nat)
    requires Mergeable(g, a, b)
    ensures b <= |g.passes|
    ensures Bounded(Movers(g, a, b, Before, b), |g.passes|) && Bounded(Movers(g, a, b, After, b), |g.passes|)
    ensures BearingSet(g, Movers(g, a, b, Before, b)) == Carrying(g, a, b, true)
    ensures BearingSet(g, Movers(g, a, b, After, b)) == Carrying(g, a, b, false)
  {
    hide Movers, Movable, Feeds, Classify;
    forall y: nat | a < y < b
      ensures y in Movers(g, a, b, Before, b) <==> Feeds(g, a, b, y)
      ensures y in Movers(g, a, b, After, b) <==> !Feeds(g, a, b, y)
    {
      MoversAre(g, a, b, y);
    }
  }

  lemma ShapeCounts(g: Graph, a: nat, b: nat)
    requires Mergeable(g, a, b)
    ensures Bounded(Movers(g, a, b, Before, b), |g.passes|) && Bounded(Movers(g, a, b, After, b), |g.passes|)
    ensures
      var merge := ShapeOf(g, a, b);
      && merge.commandBefore == |BearingSet(g, Movers(g, a, b, Before, b))|
      && merge.commandAfter == |BearingSet(g, Movers(g, a, b, After, b))|
      && merge.distance == b - a == 1 + merge.commandBefore + merge.commandAfter + merge.empty
  {
    hide Classify, Movable, BearingSet, Bearing;
    BearingCounts(g, Movers(g, a, b, Before, b));
    BearingCounts(g, Movers(g, a, b, After, b));
  }

  lemma BetweenSplits(g: Graph, a: nat, b: nat)
    requires a < b < |g.passes|
    ensures |Carrying(g, a, b, true)| + |Carrying(g, a, b, false)| + |Silent(g, a, b)| == b - a - 1
  {
    hide Carrying, Silent, Interval;
    CarryingSplits(g, a, b);
    CarryingApart(g, a, b);
    ThreeApart(Carrying(g, a, b, true), Carrying(g, a, b, false), Silent(g, a, b));
    IntervalSize(a + 1, b);
  }

  lemma CarryingSplits(g: Graph, a: nat, b: nat)
    requires a < b < |g.passes|
    ensures Interval(a + 1, b) == Carrying(g, a, b, true) + Carrying(g, a, b, false) + Silent(g, a, b)
  {
    hide Feeds;
  }

  lemma CarryingApart(g: Graph, a: nat, b: nat)
    requires a < b < |g.passes|
    ensures Carrying(g, a, b, true) !! Carrying(g, a, b, false)
    ensures (Carrying(g, a, b, true) + Carrying(g, a, b, false)) !! Silent(g, a, b)
  {
    hide Feeds;
  }

  lemma ThreeApart(t: set<nat>, f: set<nat>, s: set<nat>)
    requires t !! f && (t + f) !! s
    ensures |t + f + s| == |t| + |f| + |s|
  {
  }

  function One(when: bool): nat {
    if when then 1 else 0
  }

  /** Why a scanned window does not open. */
  datatype Reason = Wedged | NotRender | DeadOrBroken

  /** The first pass of the window that cannot move stops the scan for this reason. */
  ghost predicate StopsFor(g: Graph, a: nat, b: nat, reason: Reason) {
    exists x: nat :: a < x < b < |g.passes| && AllMove(g, a, b, x) && StopReason(g, a, b, x, reason)
  }

  ghost predicate StopReason(g: Graph, a: nat, b: nat, x: nat, reason: Reason)
    requires x < |g.passes|
  {
    match reason
    case NotRender => !g.passes[x].kind.Render?
    case DeadOrBroken => g.passes[x].kind.Render? && (g.passes[x].flags.dead || !ValidPass(g, g.passes[x]))
    case Wedged => LiveRender(g.passes[x]) && ValidPass(g, g.passes[x]) && !Movable(g, a, b, x)
  }

  lemma StopsForScan(g: Graph, a: nat, b: nat, collect: bool)
    requires a < b < |g.passes|
    ensures
      var scan := WindowCounts(g, a, b, collect);
      && (scan.blockedCycle <==> StopsFor(g, a, b, Wedged))
      && (scan.nonRender <==> StopsFor(g, a, b, NotRender))
      && (scan.missingInvariant <==> StopsFor(g, a, b, DeadOrBroken))
  {
    WindowCountsMeaning(g, a, b, collect);
    hide WindowCounts, Classify, ValidPass, DrawOnly;
    if AllMove(g, a, b, b) {
      forall reason ensures !StopsFor(g, a, b, reason) {
        NoStop(g, a, b, reason);
      }
    } else {
      var scan := WindowCounts(g, a, b, collect);
      var x: nat :|
        && a < x < b < |g.passes|
        && (forall y: nat :: a < y < x ==> Movable(g, a, b, y))
        && !Movable(g, a, b, x)
        && (scan.nonRender <==> !g.passes[x].kind.Render?)
        && (scan.missingInvariant <==> g.passes[x].kind.Render? && (g.passes[x].flags.dead || !ValidPass(g, g.passes[x])))
        && (scan.blockedCycle <==> LiveRender(g.passes[x]) && ValidPass(g, g.passes[x]));
      assert AllMove(g, a, b, x);
      forall reason ensures StopsFor(g, a, b, reason) <==> StopReason(g, a, b, x, reason) {
        OneStop(g, a, b, x, reason);
      }
    }
  }

  lemma NoStop(g: Graph, a: nat, b: nat, reason: Reason)
    requires a < b < |g.passes| && AllMove(g, a, b, b)
    ensures !StopsFor(g, a, b, reason)
  {
    hide Classify, ValidPass;
    forall x: nat | a < x < b ensures !StopReason(g, a, b, x, reason) {
      assert Movable(g, a, b, x);
    }
  }

  lemma OneStop(g: Graph, a: nat, b: nat, x: nat, reason: Reason)
    requires a < x < b < |g.passes| && AllMove(g, a, b, x) && !Movable(g, a, b, x)
    ensures StopsFor(g, a, b, reason) <==> StopReason(g, a, b, x, reason)
  {
    hide Classify, ValidPass;
    if StopsFor(g, a, b, reason) {
      var y: nat :| a < y < b < |g.passes| && AllMove(g, a, b, y) && StopReason(g, a, b, y, reason);
      assert !Movable(g, a, b, y);
      assert y == x;
    }
  }

  /**
    What meeting a pair of candidates adds to every counter, from the graph alone:
    which checks it fails, why its window stops, and what stands between.
   */
  lemma PairCountersExactly(g: Graph, a: nat, b: nat, collect: bool, c: Counters)
    requires a < b < |g.passes| && Candidates(g, a, b)
    ensures
      var r, seed := PairStats(g, a, b, collect, c), g.passes[a].flags.activeRenderSeed;
      var ends := ValidPass(g, g.passes[a]) && ValidPass(g, g.passes[b]);
      var drawn := ends && forall d :: d in Slice(g.commands, g.passes[b].commands) ==> d.kind.DrawRun?;
      var merges := Mergeable(g, a, b);
      && r.candidates == c.candidates + One(collect)
      && r.commandless == c.commandless + One(collect && ends && g.passes[b].commands.count == 0)
      && r.coalesced == c.coalesced + One(merges)
      && r.reorderDistanceMax == (if merges && c.reorderDistanceMax < b - a then b - a else c.reorderDistanceMax)
      && r.secondNonDraw == c.secondNonDraw + One(seed && ends && !drawn)
      && r.blockedCycle == c.blockedCycle + One(seed && drawn && StopsFor(g, a, b, Wedged))
      && r.buckets.merged == c.buckets.merged + One(collect && merges)
      && r.buckets.secondNonDraw == c.buckets.secondNonDraw + One(collect && ends && !drawn)
      && r.buckets.blockedCycle == c.buckets.blockedCycle + One(collect && drawn && StopsFor(g, a, b, Wedged))
      && r.buckets.nonRender == c.buckets.nonRender + One(collect && drawn && StopsFor(g, a, b, NotRender))
      && r.buckets.missingInvariant
           == c.buckets.missingInvariant + One(collect && (!ends || (drawn && StopsFor(g, a, b, DeadOrBroken))))
  {
    hide WindowCounts, Mergeable, StopsFor, ShapeOf, Slice, StopsAt, AllMove;
    DrawOnlyIs(g, b);
    if EndpointsValid(g, a, b) && DrawOnly(PassCommands(g)[b]) {
      StopsForScan(g, a, b, collect);
      WindowCountsMeaning(g, a, b, collect);
      MergeableOpens(g, a, b);
      if Mergeable(g, a, b) {
        ShapeExactly(g, a, b);
      }
    } else {
      NotMergeable(g, a, b);
    }
    hide DrawOnly, ValidPass;
  }

  lemma DrawOnlyIs(g: Graph, b: nat)
    requires b < |g.passes|
    ensures DrawOnly(PassCommands(g)[b]) <==> forall d :: d in Slice(g.commands, g.passes[b].commands) ==> d.kind.DrawRun?
  {
  }

  lemma NotMergeable(g: Graph, a: nat, b: nat)
    requires a < b < |g.passes| && !(EndpointsValid(g, a, b) && DrawOnly(PassCommands(g)[b]))
    ensures !Mergeable(g, a, b)
  {
  }

  function NoteIn(between: Interveners, w: Note): nat {
    match w
    case Semantic => between.semantic
    case Commandless => between.commandless
    case NonDraws => between.nonDraw
    case Early => between.moveBefore
    case Late => between.moveAfter
    case Kept => between.dependencyKept
  }

  /** And what it adds to the counters of what stands between. */
  lemma PairNotesExactly(g: Graph, a: nat, b: nat, collect: bool, c: Counters, w: Note)
    requires a < b < |g.passes| && Candidates(g, a, b)
    ensures NoteIn(PairStats(g, a, b, collect, c).between, w)
      == NoteIn(c.between, w)
         + if collect && EndpointsValid(g, a, b) && DrawOnly(PassCommands(g)[b]) then |NotedFrom(g, a, b, a + 1, w)| else 0
  {
    hide WindowCounts, Mergeable, ShapeOf, NotedFrom, DrawOnly, EndpointsValid;
    WindowCountsExactly(g, a, b, w);
    MergeableOnlyIf(g, a, b);
  }

  /** And to those of merges into a seeded pass. */
  lemma PairSeedsExactly(g: Graph, a: nat, b: nat, collect: bool, c: Counters)
    requires a < b < |g.passes| && Candidates(g, a, b)
    ensures
      var r := PairStats(g, a, b, collect, c).seeds;
      if Mergeable(g, a, b) && g.passes[a].flags.activeRenderSeed then
        && r.count == c.seeds.count + 1
        && r.distanceTotal == c.seeds.distanceTotal + (b - a)
        && r.distanceMax == (if c.seeds.distanceMax < b - a then b - a else c.seeds.distanceMax)
        && r.commandBefore == c.seeds.commandBefore + |Carrying(g, a, b, true)|
        && r.commandAfter == c.seeds.commandAfter + |Carrying(g, a, b, false)|
        && r.empty == c.seeds.empty + |Silent(g, a, b)|
      else r == c.seeds
  {
    hide WindowCounts, Mergeable, ShapeOf, Carrying, Silent, DrawOnly, EndpointsValid;
    MergeableOnlyIf(g, a, b);
    if Mergeable(g, a, b) {
      ShapeExactly(g, a, b);
    }
  }

  lemma MergeableOnlyIf(g: Graph, a: nat, b: nat)
    requires a < |g.passes| && b < |g.passes|
    ensures Mergeable(g, a, b) ==> EndpointsValid(g, a, b) && DrawOnly(PassCommands(g)[b])
  {
  }

  // ----- what every run's counts satisfy -----

  /** Every counted candidate is in one bucket, and the tracking names every pass. */
  ghost predicate Sound(l: Ledger, n: nat) {
    && (l.stats.Some? ==> l.stats.value.Balanced())
    && (l.tracking.Some? ==> l.tracking.value.Valid() && |l.tracking.value.ids| == n)
  }

  /** From l to r: as many merges as passes lost, and as many candidates as windows seen. */
  ghost predicate Advances(l: Ledger, r: Ledger, merges: int) {
    && (l.stats.Some? <==> r.stats.Some?) && (l.tracking.Some? <==> r.tracking.Some?)
    && (l.stats.Some? ==> r.stats.value.coalesced == l.stats.value.coalesced + merges)
    && (l.stats.Some? ==>
          r.stats.value.candidates - l.stats.value.candidates
            == if l.tracking.None? then 0 else |r.tracking.value.seen| - |l.tracking.value.seen|)
  }

  lemma MarkedOrderList(g: Graph, a: nat, b: nat)
    requires Mergeable(g, a, b) && |g.passes| <= NO_PASS
    ensures |MarkedOrder(g, a, b)| == |g.passes| - 1
    ensures OrderList(MarkedOrder(g, a, b), a + |Movers(g, a, b, Before, b)|, |g.passes|)
  {
    MergeShrinks(g, a, b);
    MarkedOrderDistinct(g, a, b);
    MergeGroupsMarked(g, a, b);
    var at := MarkerPosition(g, a, b);
    var order := MarkedOrder(g, a, b);
    hide MarkedOrder, MergeGroups, Mergeable, Movers;
    forall k | 0 <= k < |order| && k != at ensures order[k] < |g.passes| {
    }
  }

  lemma MergeableOpens(g: Graph, a: nat, b: nat)
    requires a < b < |g.passes| && Candidates(g, a, b) && EndpointsValid(g, a, b) && DrawOnly(PassCommands(g)[b])
    ensures Mergeable(g, a, b) <==> AllMove(g, a, b, b)
  {
    hide Movable, DrawOnly;
  }

  lemma ScreeningSettles(g: Graph, a: nat, b: nat, collect: bool, c: Counters)
    requires a < b < |g.passes| && Candidates(g, a, b) && c.Consistent()
    ensures
      var r := Screening(g, a, b, collect, c);
      && r.Consistent() && r.candidates == c.candidates
      && r.buckets.Total() == c.buckets.Total() + (if collect then 1 else 0)
      && r.coalesced == c.coalesced + (if Mergeable(g, a, b) then 1 else 0)
  {
    hide AllMove, StopsAt, WindowCounts;
    if EndpointsValid(g, a, b) && DrawOnly(PassCommands(g)[b]) {
      WindowCountsMeaning(g, a, b, collect);
      MergeableOpens(g, a, b);
      var seed, scan := g.passes[a].flags.activeRenderSeed, WindowCounts(g, a, b, collect);
      if Mergeable(g, a, b) {
        MergedSettles(c, collect, seed, scan, ShapeOf(g, a, b));
      } else {
        RejectedSettles(c, collect, seed, scan);
      }
    }
  }

  lemma MergeableCandidates(g: Graph, a: nat, b: nat)
    requires a < |g.passes| && b < |g.passes|
    ensures Mergeable(g, a, b) ==> Candidates(g, a, b)
  {
  }

  lemma PairStatsSound(g: Graph, a: nat, b: nat, collect: bool, c: Counters)
    requires a < b < |g.passes| && Candidates(g, a, b) && c.Balanced()
    ensures
      var r := PairStats(g, a, b, collect, c);
      && r.Balanced() && r.candidates == c.candidates + (if collect then 1 else 0)
      && r.coalesced == c.coalesced + (if Mergeable(g, a, b) then 1 else 0)
  {
    hide Screening, Mergeable, LiveRender, EndpointsValid;
    ScreeningSettles(g, a, b, collect, Opened(g, a, b, collect, c));
  }

  lemma PairTrackingSound(g: Graph, a: nat, b: nat, l: Ledger)
    requires a < b < |g.passes| <= NO_PASS && l.tracking.Some? && l.tracking.value.Valid()
    requires |l.tracking.value.ids| == |g.passes|
    ensures
      var r := PairTracking(g, a, b, l).value;
      && r.Valid() && |r.ids| == |g.passes| - (if Mergeable(g, a, b) then 1 else 0)
      && |r.seen| == |l.tracking.value.seen| + (if Collects(a, b, l) then 1 else 0)
  {
    hide Mergeable, MarkedOrder, Movers, OrderList, Tracking.Rebuilt, Tracking.Begun, Tracking.Valid;
    BegunValid(l.tracking.value, a, b);
    if Mergeable(g, a, b) {
      MarkedOrderList(g, a, b);
      RebuiltIsFresh(Met(a, b, l), MarkedOrder(g, a, b), a, b, a + |Movers(g, a, b, Before, b)|);
    }
  }

  lemma PairSound(g: Graph, a: nat, b: nat, l: Ledger)
    requires a < b < |g.passes| <= NO_PASS && Sound(l, |g.passes|)
    ensures
      var merges := if Mergeable(g, a, b) then 1 else 0;
      && Sound(PairCounted(g, a, b, l), |g.passes| - merges)
      && Advances(l, PairCounted(g, a, b, l), merges)
  {
    hide Mergeable, PairStats, LiveRender, MarkedOrder, Met, Tracking.Valid, Tracking.Rebuilt;
    MergeableCandidates(g, a, b);
    if Candidates(g, a, b) {
      if l.tracking.Some? {
        PairTrackingSound(g, a, b, l);
      }
      if l.stats.Some? {
        PairStatsSound(g, a, b, Collects(a, b, l), l.stats.value);
      }
    }
  }

  lemma {:induction false} SweptSound(g: Graph, a: nat, b: nat, l: Ledger)
    requires a < b && |g.passes| <= NO_PASS && Sound(l, |g.passes|) && NoneBefore(g, a, b)
    ensures
      var merges := if Stuck(g) then 0 else 1;
      && Sound(Swept(g, a, b, l), |g.passes| - merges)
      && Advances(l, Swept(g, a, b, l), merges)
    decreases |g.passes| - a, |g.passes| - b
  {
    hide Mergeable, PairCounted;
    if a < |g.passes| {
      if b >= |g.passes| {
        RowDone(g, a, b);
        SweptSound(g, a + 1, a + 2, l);
      } else {
        PairSound(g, a, b, l);
        if !Mergeable(g, a, b) {
          SweptSound(g, a, b + 1, PairCounted(g, a, b, l));
        }
      }
    } else {
      SweepDone(g, a, b);
    }
  }

  lemma NoneYet(g: Graph)
    ensures NoneBefore(g, 0, 1)
  {
  }

  lemma PairDone(g: Graph, a: nat, b: nat)
    requires NoneBefore(g, a, b) && !Mergeable(g, a, b)
    ensures NoneBefore(g, a, b + 1)
  {
  }

  lemma RowDone(g: Graph, a: nat, b: nat)
    requires NoneBefore(g, a, b) && (b >= |g.passes| || (a < |g.passes| && !LiveRender(g.passes[a])))
    ensures NoneBefore(g, a + 1, a + 2)
  {
  }

  lemma SweepDone(g: Graph, a: nat, b: nat)
    requires NoneBefore(g, a, b) && a >= |g.passes|
    ensures Stuck(g)
  {
  }

  /**
    Over a whole run every candidate ends in exactly one bucket, one candidate is
    counted for each distinct window seen, and one merge for each pass lost.
   */
  lemma {:induction false} TalliedSound(g: Graph, l: Ledger)
    requires |g.passes| <= NO_PASS && Sound(l, |g.passes|)
    ensures Sound(Tallied(g, l), |Coalesced(g).passes|)
    ensures Advances(l, Tallied(g, l), |g.passes| - |Coalesced(g).passes|)
    decreases |g.passes|
  {
    SweptSound(g, 0, 1, l);
    if Stuck(g) {
      TalliedStop(g, l);
      CoalescedStop(g);
    } else {
      var p: nat, q: nat :| Mergeable(g, p, q);
      var a, b := FirstMergeableExists(g, p, q);
      TalliedStep(g, a, b, l);
      CoalescedStep(g, a, b);
      MergeShrinks(g, a, b);
      TalliedSound(Merge(g, a, b), Swept(g, 0, 1, l));
    }
  }
}
