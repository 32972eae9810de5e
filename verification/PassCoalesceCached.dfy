/**
  The production form of the pass: reachability from the cache, one summary per
  pass, and prefix sums that skip windows holding a hard boundary. It ends with
  the same graph as the plain form.
 */
module PassCoalesceCached {
  import opened FrameGraphs
  import opened Coalescing
  import opened Fixpoint
  import opened CoalesceDiagnostics
  import opened CoalesceCounts
  import opened PassCoalesce
  import opened GraphQueries

  datatype Summary = Summary(valid: bool, drawOnly: bool)

  predicate HardBoundary(g: Graph, x: nat)
    requires x < |g.passes|
  {
    !g.passes[x].kind.Render? || g.passes[x].flags.dead || !ValidPass(g, g.passes[x])
  }

  function CountHard(g: Graph, lo: nat, hi: nat): nat
    requires lo <= hi <= |g.passes|
    decreases hi - lo
  {
    if lo == hi then 0 else CountHard(g, lo, hi - 1) + if HardBoundary(g, hi - 1) then 1 else 0
  }

  lemma {:induction false} CountHardSplit(g: Graph, mid: nat, hi: nat)
    requires mid <= hi <= |g.passes|
    ensures CountHard(g, 0, hi) == CountHard(g, 0, mid) + CountHard(g, mid, hi)
    decreases hi
  {
    if mid < hi {
      CountHardSplit(g, mid, hi - 1);
    }
  }

  /** A nonzero count names a boundary, and a boundary is never movable. */
  lemma {:induction false} HardInside(g: Graph, a: nat, b: nat, lo: nat, hi: nat) returns (x: nat)
    requires lo <= hi <= |g.passes| && CountHard(g, lo, hi) > 0
    ensures lo <= x < hi && HardBoundary(g, x) && !Movable(g, a, b, x)
    decreases hi
  {
    if HardBoundary(g, hi - 1) {
      x := hi - 1;
    } else {
      x := HardInside(g, a, b, lo, hi - 1);
    }
  }

  ghost predicate SummaryRight(g: Graph, i: nat, s: Summary) {
    && i < |g.passes|
    && s.valid == ValidPass(g, g.passes[i])
    && s.drawOnly == (s.valid && DrawOnly(PassCommands(g)[i]))
  }

  ghost predicate Summarizes(g: Graph, summaries: seq<Summary>, hard: seq<nat>) {
    && |summaries| == |g.passes|
    && |hard| == |g.passes| + 1
    && (forall i :: 0 <= i < |summaries| ==> SummaryRight(g, i, summaries[i]))
    && (forall i :: 0 <= i < |hard| ==> hard[i] == CountHard(g, 0, i))
  }

  lemma SummaryOf(g: Graph, summaries: seq<Summary>, hard: seq<nat>, x: nat)
    requires Summarizes(g, summaries, hard) && x < |g.passes|
    ensures x < |summaries|
    ensures summaries[x].valid == ValidPass(g, g.passes[x])
    ensures summaries[x].drawOnly == (summaries[x].valid && DrawOnly(PassCommands(g)[x]))
  {
    assert SummaryRight(g, x, summaries[x]);
  }

  method SummarizePass(g: Graph, i: nat) returns (summary: Summary)
    requires i < |g.passes|
    ensures SummaryRight(g, i, summary)
  {
    var p := g.passes[i];
    var valid := ValidCommandRange(g, p) && ValidDrawRange(g, p);
    var nonDraw := false;
    if valid {
      nonDraw := HasNonDrawCommand(g, p);
    }
    summary := Summary(valid, valid && !nonDraw);
  }

  method Summarize(g: Graph) returns (summaries: seq<Summary>, hard: seq<nat>)
    ensures Summarizes(g, summaries, hard)
  {
    summaries, hard := [], [0];
    for i := 0 to |g.passes|
      invariant |summaries| == i && |hard| == i + 1
      invariant forall j :: 0 <= j < i ==> SummaryRight(g, j, summaries[j])
      invariant forall j :: 0 <= j <= i ==> hard[j] == CountHard(g, 0, j)
    {
      var summary := SummarizePass(g, i);
      summaries := summaries + [summary];
      var p := g.passes[i];
      hard := hard + [hard[i] + if !p.kind.Render? || p.flags.dead || !summary.valid then 1 else 0];
      assert hard[i + 1] == CountHard(g, 0, i + 1);
    }
  }

  /** The cache, when it exists, answers for this graph. */
  ghost predicate Serves(q: Queries?, g: Graph)
    reads q
  {
    q != null ==> q.Valid() && q.graph == g
  }

  method ClassifyCached(q: Queries, g: Graph, a: nat, b: nat, x: nat) returns (m: Move)
    requires Serves(q, g) && a < |g.passes| && b < |g.passes| && x < |g.passes|
    modifies q`rows, q`ready
    ensures Serves(q, g)
    ensures m == Classify(g, a, b, x)
  {
    var pairFeeds := q.AnswerReaches(a, x);
    if !pairFeeds {
      pairFeeds := q.AnswerReaches(b, x);
    }
    var feedsPair := q.AnswerReaches(x, a);
    if !feedsPair {
      feedsPair := q.AnswerReaches(x, b);
    }
    if pairFeeds && feedsPair {
      return Blocked;
    }
    if !feedsPair {
      return After;
    }
    return Before;
  }

  /** Builds the cache on first use. */
  method ClassifyLazily(q0: Queries?, g: Graph, a: nat, b: nat, x: nat) returns (m: Move, q: Queries?)
    requires Serves(q0, g) && a < |g.passes| && b < |g.passes| && x < |g.passes|
    modifies q0
    ensures Serves(q, g) && (q == q0 || fresh(q))
    ensures m == Classify(g, a, b, x)
  {
    q := q0;
    if q == null {
      q := new Queries(g);
    }
    m := ClassifyCached(q, g, a, b, x);
  }

  /** The scan of one intervening pass, from summaries; `stop` when it cannot move. */
  method ExaminePassCached(g: Graph, a: nat, b: nat, x: nat, collect: bool, summaries: seq<Summary>, hard: seq<nat>,
                     s: ScanState, q0: Queries?)
    returns (stop: bool, t: ScanState, q: Queries?)
    requires a < x < b < |g.passes| && Summarizes(g, summaries, hard) && Serves(q0, g)
    requires Scanned(g, a, b, x, collect, s)
    modifies q0
    ensures Serves(q, g) && (q == q0 || fresh(q))
    ensures stop ==> ScanAnswer(g, a, b, collect, false, t)
    ensures !stop ==> Scanned(g, a, b, x + 1, collect, t)
  {
    hide Scanned, ScanAnswer, Classify, Serves, CountIntervener, CountMove, Summarizes, ValidPass;
    stop, t, q := true, s, q0;
    var px := g.passes[x];
    SummaryOf(g, summaries, hard, x);
    ScannedStop(g, a, b, x, collect, s);
    if !px.kind.Render? {
      t := s.(scan := s.scan.(nonRender := true));
      return;
    }
    if px.flags.dead || !summaries[x].valid {
      t := s.(scan := s.scan.(missingInvariant := true));
      return;
    }
    var nonDraw := !summaries[x].drawOnly;
    var counted := CountIntervener(g, x, collect, nonDraw, s.scan);
    var m;
    m, q := ClassifyLazily(q0, g, a, b, x);
    if m == Blocked {
      ScannedBlocked(g, a, b, x, collect, s, nonDraw);
      t := s.(scan := counted.(blockedCycle := true));
      return;
    }
    ScannedNext(g, a, b, x, collect, s, nonDraw);
    stop := false;
    t := ScanState(
      if m == Before then s.before + [x] else s.before,
      if m == Before then s.after else s.after + [x],
      CountMove(g, x, collect, m, counted));
  }

  method ScanWindowCached(g: Graph, a: nat, b: nat, collect: bool, summaries: seq<Summary>, hard: seq<nat>, q0: Queries?)
    returns (ok: bool, s: ScanState, q: Queries?)
    requires a < b < |g.passes| && Summarizes(g, summaries, hard) && Serves(q0, g)
    modifies q0
    ensures Serves(q, g) && (q == q0 || fresh(q))
    ensures ScanAnswer(g, a, b, collect, ok, s)
  {
    q := q0;
    s := SCAN_START;
    assert Scanned(g, a, b, a + 1, collect, s);
    hide Scanned, ScanAnswer, Serves, Summarizes;
    for x := a + 1 to b
      invariant Serves(q, g) && (q == q0 || fresh(q))
      invariant Scanned(g, a, b, x, collect, s)
    {
      var stop;
      stop, s, q := ExaminePassCached(g, a, b, x, collect, summaries, hard, s, q);
      if stop {
        return false, s, q;
      }
    }
    ScannedDone(g, a, b, collect, s);
    return true, s, q;
  }

  /** The checks of the plain form, from summaries, plus the early skip; the counters end as in the plain form. */
  method ScreenPairCached(g: Graph, a: nat, b: nat, collect: bool, tracking: bool, stats: OptimizerStats?,
                          summaries: seq<Summary>, hard: seq<nat>, q0: Queries?)
    returns (ok: bool, s: ScanState, q: Queries?)
    requires a < b < |g.passes| && Summarizes(g, summaries, hard) && Serves(q0, g)
    requires Candidates(g, a, b)
    requires collect ==> stats != null && tracking
    modifies stats, q0
    ensures Serves(q, g) && (q == q0 || fresh(q))
    ensures ok == Mergeable(g, a, b) && Screened(g, a, b, collect, ok, s)
    ensures stats != null ==>
      stats.Value() == if ok then old(stats.Value()) else Screening(g, a, b, collect, old(stats.Value()))
  {
    q := q0;
    ok, s := false, SCAN_START;
    SummaryOf(g, summaries, hard, a);
    SummaryOf(g, summaries, hard, b);
    HardSkips(g, a, b, summaries, hard);
    hide Screened, ScanAnswer, DrawOnly, Serves, Summarizes, Mergeable, WindowCounts;
    if !summaries[a].valid || !summaries[b].valid {
      ScreenedOut(g, a, b, collect, s);
      if collect {
        stats.CountMissing(collect);
      }
      return;
    }
    if !summaries[b].drawOnly {
      ScreenedOut(g, a, b, collect, s);
      if stats != null {
        stats.CountSecondNonDraw(collect, g.passes[a].flags.activeRenderSeed);
      }
      return;
    }
    if !tracking && !g.passes[a].flags.activeRenderSeed && hard[b] != hard[a + 1] {
      SkippedIsOut(g, a, b, s);
      if stats != null {
        SkipCountsNothing(g, a, b, stats.Value());
      }
      return;
    }
    ok, s, q := ScanWindowCached(g, a, b, collect, summaries, hard, q0);
    ScreenedByScan(g, a, b, collect, ok, s);
    if !ok && stats != null {
      RejectionCounted(g, a, b, collect, s, stats.Value());
      stats.CountRejected(collect, g.passes[a].flags.activeRenderSeed, s.scan);
    }
  }

  /** Boundaries between a and b show in the running counts, and then the pair cannot merge. */
  lemma HardSkips(g: Graph, a: nat, b: nat, summaries: seq<Summary>, hard: seq<nat>)
    requires a < b < |g.passes| && Summarizes(g, summaries, hard)
    ensures |hard| == |g.passes| + 1
    ensures hard[b] != hard[a + 1] ==> !Mergeable(g, a, b)
  {
    if hard[b] != hard[a + 1] {
      CountHardSplit(g, a + 1, b);
      var x := HardInside(g, a, b, a + 1, b);
    }
  }

  lemma SkippedIsOut(g: Graph, a: nat, b: nat, s: ScanState)
    requires !Mergeable(g, a, b)
    ensures Screened(g, a, b, false, false, s)
  {
  }

  /** The skip loses no count: without diagnostics and without the seed, rejecting a window changes nothing. */
  lemma SkipCountsNothing(g: Graph, a: nat, b: nat, c: Counters)
    requires a < b < |g.passes| && EndpointsValid(g, a, b) && DrawOnly(PassCommands(g)[b])
    requires !Mergeable(g, a, b) && !g.passes[a].flags.activeRenderSeed
    ensures Screening(g, a, b, false, c) == c
  {
    hide WindowCounts;
  }

  method TryPairCached(graph: FrameGraph, a: nat, b: nat, stats: OptimizerStats?, tracker: ReturnDiagnosticTracker?,
                       summaries: seq<Summary>, hard: seq<nat>, q0: Queries?)
    returns (merged: bool, q: Queries?)
    requires Admissible(graph.Value()) && a < b < |graph.passes|
    requires LiveRender(graph.passes[a])
    requires Summarizes(graph.Value(), summaries, hard) && Serves(q0, graph.Value())
    requires Tracks(tracker, |graph.passes|)
    modifies graph, stats, tracker, q0
    ensures merged == old(Mergeable(graph.Value(), a, b))
    ensures graph.Value() == if merged then Merge(old(graph.Value()), a, b) else old(graph.Value())
    ensures !merged ==> Serves(q, graph.Value()) && (q == q0 || fresh(q))
    ensures Tracks(tracker, |graph.passes|)
    ensures LedgerOf(stats, tracker) == PairCounted(old(graph.Value()), a, b, old(LedgerOf(stats, tracker)))
  {
    hide Mergeable, Merge, Movers, Rebuildable, Stuck, Serves, Summarizes, Screening, Screened;
    q := q0;
    var g := graph.Value();
    if !g.passes[b].kind.Render? || g.passes[b].flags.dead || g.passes[a].targets != g.passes[b].targets {
      ScreenedOut(g, a, b, false, SCAN_START);
      return false, q;
    }
    var collect := OpenCandidate(g, a, b, stats, tracker);
    var s;
    merged, s, q := ScreenPairCached(g, a, b, collect, tracker != null, stats, summaries, hard, q0);
    if merged {
      FinishMerge(graph, a, b, s, collect, stats, tracker);
    }
  }

  /** The production scan: the first mergeable pair and the same counts, as in the plain form. */
  method CoalesceOnceCached(graph: FrameGraph, stats: OptimizerStats?, tracker: ReturnDiagnosticTracker?)
    returns (merged: bool)
    requires Admissible(graph.Value()) && Tracks(tracker, |graph.passes|)
    modifies graph, stats, tracker
    ensures Admissible(graph.Value()) && Tracks(tracker, |graph.passes|)
    ensures !merged ==> Stuck(old(graph.Value())) && graph.Value() == old(graph.Value())
    ensures merged ==> exists a: nat, b: nat ::
      FirstMergeable(old(graph.Value()), a, b) && graph.Value() == Merge(old(graph.Value()), a, b)
    ensures LedgerOf(stats, tracker) == Swept(old(graph.Value()), 0, 1, old(LedgerOf(stats, tracker)))
  {
    hide PairCounted, Swept, LedgerOf, Tracks, Mergeable, Merge, Admissible, NoneBefore, Stuck, Serves, Summarizes;
    ghost var g := graph.Value();
    ghost var swept := Swept(g, 0, 1, LedgerOf(stats, tracker));
    NoneYet(g);
    var n := |graph.passes|;
    var q: Queries? := null;
    var summaries, hard := Summarize(graph.Value());
    ServesNone(g);
    var a := 0;
    while a < n
      invariant 0 <= a <= n
      invariant graph.Value() == g && NoneBefore(g, a, a + 1) && Tracks(tracker, n)
      invariant Serves(q, g) && (q == null || fresh(q))
      invariant Swept(g, a, a + 1, LedgerOf(stats, tracker)) == swept
    {
      var pa := graph.passes[a];
      if pa.kind.Render? && !pa.flags.dead {
        var b := a + 1;
        while b < n
          invariant a < b <= n
          invariant graph.Value() == g && NoneBefore(g, a, b) && Tracks(tracker, n)
          invariant Serves(q, g) && (q == null || fresh(q))
          invariant Swept(g, a, b, LedgerOf(stats, tracker)) == swept
        {
          SweptMeets(g, a, b, LedgerOf(stats, tracker));
          merged, q := TryPairCached(graph, a, b, stats, tracker, summaries, hard, q);
          if merged {
            assert FirstMergeable(g, a, b);
            MergeAdmissible(g, a, b);
            return true;
          }
          PairDone(g, a, b);
          b := b + 1;
        }
        RowDone(g, a, b);
        SweptRow(g, a, b, LedgerOf(stats, tracker));
      } else {
        RowDone(g, a, a + 1);
        SweptPast(g, a, a + 1, LedgerOf(stats, tracker));
      }
      a := a + 1;
    }
    SweepDone(g, a, a + 1);
    SweptOut(g, a, LedgerOf(stats, tracker));
    return false;
  }

  lemma ServesNone(g: Graph)
    ensures Serves(null, g)
  {
  }

  /**
    The production pass computes the very fixpoint the plain pass computes, and
    every counter ends at the value the plain pass gives it.
   */
  method RunPassCoalesceCached(graph: FrameGraph, stats: OptimizerStats?, collectReturnDiagnostics: bool)
    requires Admissible(graph.Value())
    modifies graph, stats
    ensures graph.Value() == Coalesced(old(graph.Value()))
    ensures Stuck(graph.Value()) && Admissible(graph.Value())
    ensures StatsOf(stats)
      == Tallied(old(graph.Value()), Opening(old(graph.Value()), old(StatsOf(stats)), collectReturnDiagnostics)).stats
    ensures stats != null && old(stats.Value().Balanced()) ==>
      && stats.Value().Balanced()
      && stats.coalesced + |graph.passes| == old(stats.coalesced + |graph.passes|)
      && (!collectReturnDiagnostics ==> stats.candidates == old(stats.candidates))
  {
    hide Tallied, Swept, Movable, Merge, Coalesced, Rebuildable;
    var tracker: ReturnDiagnosticTracker? := null;
    if collectReturnDiagnostics && stats != null {
      tracker := new ReturnDiagnosticTracker(graph.Value());
    }
    ghost var g0, opening := graph.Value(), LedgerOf(stats, tracker);
    if stats != null && stats.Value().Balanced() {
      OpeningSound(g0, StatsOf(stats), collectReturnDiagnostics);
    }
    var guard := |graph.passes|;
    var more := true;
    while guard > 0 && more
      invariant more ==> guard == |graph.passes|
      invariant !more ==> Stuck(graph.Value())
      invariant Admissible(graph.Value()) && Coalesced(graph.Value()) == Coalesced(g0)
      invariant tracker == null || fresh(tracker)
      invariant Tracks(tracker, |graph.passes|)
      invariant more ==> Tallied(graph.Value(), LedgerOf(stats, tracker)) == Tallied(g0, opening)
      invariant !more ==> LedgerOf(stats, tracker) == Tallied(g0, opening)
      decreases guard
    {
      ghost var g, l := graph.Value(), LedgerOf(stats, tracker);
      guard := guard - 1;
      more := CoalesceOnceCached(graph, stats, tracker);
      if more {
        ghost var a: nat, b: nat :| FirstMergeable(g, a, b) && graph.Value() == Merge(g, a, b);
        CoalescedStep(g, a, b);
        TalliedStep(g, a, b, l);
        MergeShrinks(g, a, b);
      } else {
        TalliedStop(g, l);
      }
    }
    if more {
      NoPasses(graph.Value(), LedgerOf(stats, tracker));
    }
    CoalescedStop(graph.Value());
  }
}
