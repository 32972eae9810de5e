/**
  What pass coalescing counts while it works: the optimizer statistics, and the
  tracker that gives every pass an identity independent of its index.
 */
module CoalesceDiagnostics {
  import opened Sequences
  import opened FrameGraphs

  /** Why a window was rejected, and what the scan saw before it stopped. */
  datatype WindowScan = WindowScan(
    missingInvariant: bool,
    nonRender: bool,
    blockedCycle: bool,
    dependencyKept: nat,
    moveBefore: nat,
    moveAfter: nat,
    nonDraw: nat,
    semantic: nat,
    commandless: nat)
  {
    /** Every counted intervener was then classified. */
    ghost predicate Consistent() {
      && dependencyKept <= moveBefore
      && commandless + nonDraw <= moveBefore + moveAfter + (if blockedCycle then 1 else 0)
      && semantic <= moveBefore + moveAfter + (if blockedCycle then 1 else 0)
    }

    ghost predicate NoReason() {
      !missingInvariant && !nonRender && !blockedCycle
    }

    ghost predicate OneReason() {
      || (missingInvariant && !nonRender && !blockedCycle)
      || (!missingInvariant && nonRender && !blockedCycle)
      || (!missingInvariant && !nonRender && blockedCycle)
    }
  }

  /** What collected scans saw of the passes between their endpoints. */
  datatype Interveners = Interveners(
    dependencyKept: nat,
    moveBefore: nat,
    moveAfter: nat,
    nonDraw: nat,
    semantic: nat,
    commandless: nat)
  {
    function Plus(scan: WindowScan): Interveners {
      Interveners(
        dependencyKept + scan.dependencyKept, moveBefore + scan.moveBefore, moveAfter + scan.moveAfter,
        nonDraw + scan.nonDraw, semantic + scan.semantic, commandless + scan.commandless)
    }
  }

  /** Where a collected candidate ends. */
  datatype Buckets = Buckets(
    merged: nat,
    blockedCycle: nat,
    secondNonDraw: nat,
    nonRender: nat,
    missingInvariant: nat)
  {
    function Total(): nat {
      merged + blockedCycle + secondNonDraw + nonRender + missingInvariant
    }

    /** A missing invariant outranks a non-render pass, which outranks a cycle. */
    function Stopped(scan: WindowScan): Buckets {
      if scan.missingInvariant then this.(missingInvariant := missingInvariant + 1)
      else if scan.nonRender then this.(nonRender := nonRender + 1)
      else if scan.blockedCycle then this.(blockedCycle := blockedCycle + 1)
      else this
    }
  }

  /** Merges into a pass with the active-render seed. */
  datatype SeedMerges = SeedMerges(
    count: nat,
    distanceTotal: nat,
    distanceMax: nat,
    commandBefore: nat,
    commandAfter: nat,
    empty: nat)
  {
    function Plus(merge: MergeShape): SeedMerges {
      SeedMerges(
        count + 1, distanceTotal + merge.distance, Larger(distanceMax, merge.distance),
        commandBefore + merge.commandBefore, commandAfter + merge.commandAfter, empty + merge.empty)
    }
  }

  /**
    The counters at one moment, and what each event of the pass makes of them.
    No decision reads them. The 32- and 64-bit fields are unbounded here.
   */
  datatype Counters = Counters(
    coalesced: nat,
    reorderDistanceMax: nat,
    blockedCycle: nat,
    secondNonDraw: nat,
    candidates: nat,
    commandless: nat,
    buckets: Buckets,
    between: Interveners,
    seeds: SeedMerges)
  {
    /** Every counted intervener was then classified, and the seed's distances are accounted for. */
    ghost predicate Consistent() {
      && between.dependencyKept <= between.moveBefore
      && between.commandless + between.nonDraw <= between.moveBefore + between.moveAfter + buckets.blockedCycle
      && between.semantic <= between.moveBefore + between.moveAfter + buckets.blockedCycle
      && commandless <= candidates
      && buckets.merged <= coalesced
      && seeds.distanceTotal == seeds.count + seeds.commandBefore + seeds.commandAfter + seeds.empty
      && seeds.distanceMax <= reorderDistanceMax
      && seeds.count <= coalesced
    }

    /** Every candidate landed in exactly one bucket. */
    ghost predicate Balanced() {
      candidates == buckets.Total() && Consistent()
    }

    /** A window not counted before: one more candidate, still without a bucket. */
    function Candidate(empty: bool): Counters {
      this.(candidates := candidates + 1, commandless := commandless + (if empty then 1 else 0))
    }

    /** An endpoint's range does not fit its array. */
    function Missing(collect: bool): Counters {
      if collect then this.(buckets := buckets.(missingInvariant := buckets.missingInvariant + 1)) else this
    }

    /** The second pass holds something other than draws. */
    function SecondNonDraw(collect: bool, seed: bool): Counters {
      this.(
        buckets := if collect then buckets.(secondNonDraw := buckets.secondNonDraw + 1) else buckets,
        secondNonDraw := secondNonDraw + (if seed then 1 else 0))
    }

    /** A window was rejected. */
    function Rejected(collect: bool, seed: bool, scan: WindowScan): Counters {
      this.(
        between := if collect then between.Plus(scan) else between,
        buckets := if collect then buckets.Stopped(scan) else buckets,
        blockedCycle := blockedCycle + (if scan.blockedCycle && seed then 1 else 0))
    }

    /** A pair was merged. */
    function Merged(collect: bool, seed: bool, scan: WindowScan, merge: MergeShape): Counters {
      this.(
        coalesced := coalesced + 1,
        buckets := if collect then buckets.(merged := buckets.merged + 1) else buckets,
        between := if collect then between.Plus(scan) else between,
        reorderDistanceMax := Larger(reorderDistanceMax, merge.distance),
        seeds := if seed then seeds.Plus(merge) else seeds)
    }
  }

  /** How far apart a merged pair stood, and what stood between. */
  datatype MergeShape = MergeShape(distance: nat, commandBefore: nat, commandAfter: nat, empty: nat)
  {
    ghost predicate Whole() {
      distance == 1 + commandBefore + commandAfter + empty
    }
  }

  function Larger(x: nat, y: nat): nat {
    if x < y then y else x
  }

  const NOTHING_COUNTED := Counters(0, 0, 0, 0, 0, 0,
    Buckets(0, 0, 0, 0, 0), Interveners(0, 0, 0, 0, 0, 0), SeedMerges(0, 0, 0, 0, 0, 0))

  /** Rejecting a collected window fills exactly one bucket, the one its scan names. */
  lemma RejectedSettles(c: Counters, collect: bool, seed: bool, scan: WindowScan)
    requires c.Consistent() && scan.Consistent() && scan.OneReason()
    ensures c.Rejected(collect, seed, scan).Consistent()
    ensures c.Rejected(collect, seed, scan).buckets.Total() == c.buckets.Total() + (if collect then 1 else 0)
  {
  }

  /** Merging fills the merged bucket, and the seed's distances stay accounted for. */
  lemma MergedSettles(c: Counters, collect: bool, seed: bool, scan: WindowScan, merge: MergeShape)
    requires c.Consistent() && scan.Consistent() && !scan.blockedCycle && (seed ==> merge.Whole())
    ensures c.Merged(collect, seed, scan, merge).Consistent()
    ensures c.Merged(collect, seed, scan, merge).buckets.Total() == c.buckets.Total() + (if collect then 1 else 0)
  {
  }

  /** The counters an optimizer run is handed; it may already hold earlier frames' counts. */
  class OptimizerStats {
    var coalesced: nat
    var reorderDistanceMax: nat
    var blockedCycle: nat
    var secondNonDraw: nat
    var candidates: nat
    var commandless: nat
    var buckets: Buckets
    var between: Interveners
    var seeds: SeedMerges

    function Value(): Counters
      reads this
    {
      Counters(coalesced, reorderDistanceMax, blockedCycle, secondNonDraw, candidates, commandless,
               buckets, between, seeds)
    }

    constructor ()
      ensures Value() == NOTHING_COUNTED
    {
      coalesced, reorderDistanceMax, blockedCycle, secondNonDraw, candidates, commandless := 0, 0, 0, 0, 0, 0;
      buckets := Buckets(0, 0, 0, 0, 0);
      between := Interveners(0, 0, 0, 0, 0, 0);
      seeds := SeedMerges(0, 0, 0, 0, 0, 0);
    }

    method CountCandidate(empty: bool)
      modifies this`candidates, this`commandless
      ensures Value() == old(Value()).Candidate(empty)
    {
      candidates := candidates + 1;
      if empty {
        commandless := commandless + 1;
      }
    }

    method CountMissing(collect: bool)
      modifies this`buckets
      ensures Value() == old(Value()).Missing(collect)
    {
      if collect {
        buckets := buckets.(missingInvariant := buckets.missingInvariant + 1);
      }
    }

    method CountSecondNonDraw(collect: bool, seed: bool)
      modifies this`buckets, this`secondNonDraw
      ensures Value() == old(Value()).SecondNonDraw(collect, seed)
    {
      if collect {
        buckets := buckets.(secondNonDraw := buckets.secondNonDraw + 1);
      }
      if seed {
        secondNonDraw := secondNonDraw + 1;
      }
    }

    method CountRejected(collect: bool, seed: bool, scan: WindowScan)
      modifies this`between, this`buckets, this`blockedCycle
      ensures Value() == old(Value()).Rejected(collect, seed, scan)
    {
      if collect {
        between := between.Plus(scan);
        if scan.missingInvariant {
          buckets := buckets.(missingInvariant := buckets.missingInvariant + 1);
        } else if scan.nonRender {
          buckets := buckets.(nonRender := buckets.nonRender + 1);
        } else if scan.blockedCycle {
          buckets := buckets.(blockedCycle := buckets.blockedCycle + 1);
        }
      }
      if scan.blockedCycle && seed {
        blockedCycle := blockedCycle + 1;
      }
    }

    method CountMerged(collect: bool, seed: bool, scan: WindowScan, merge: MergeShape)
      modifies this`coalesced, this`reorderDistanceMax, this`buckets, this`between, this`seeds
      ensures Value() == old(Value()).Merged(collect, seed, scan, merge)
    {
      coalesced := coalesced + 1;
      if collect {
        buckets := buckets.(merged := buckets.merged + 1);
        between := between.Plus(scan);
      }
      reorderDistanceMax := Larger(reorderDistanceMax, merge.distance);
      if seed {
        seeds := seeds.Plus(merge);
      }
    }
  }

  datatype PassIdentity = PassIdentity(incarnation: nat, sourceOwned: bool)

  function WindowOf(ids: seq<PassIdentity>): (w: seq<nat>)
    ensures |w| == |ids|
    ensures forall i :: 0 <= i < |w| ==> w[i] == ids[i].incarnation
  {
    seq(|ids|, i requires 0 <= i < |ids| => ids[i].incarnation)
  }

  /** A window holding a number no seen window may hold was not seen. */
  lemma NotSeen(seen: seq<seq<nat>>, bound: nat, w: seq<nat>, i: nat)
    requires forall k :: 0 <= k < |seen| ==> Bounded(seen[k], bound)
    requires i < |w| && w[i] >= bound
    ensures w !in seen
  {
    assert !Bounded(w, bound);
  }

  /** Identities of the passes by index, the windows already counted, and the next identity. */
  datatype Tracking = Tracking(ids: seq<PassIdentity>, seen: seq<seq<nat>>, next: nat)
  {
    ghost predicate Valid() {
      && (forall i :: 0 <= i < |ids| ==> ids[i].incarnation < next)
      && (forall i, j :: 0 <= i < j < |ids| ==> ids[i].incarnation != ids[j].incarnation)
      && NoDuplicates(seen)
      && (forall i :: 0 <= i < |seen| ==> Bounded(seen[i], next))
    }

    /** The identities of the passes from a to b. */
    function Window(a: nat, b: nat): (w: seq<nat>)
      requires a <= b < |ids|
      ensures |w| == b - a + 1
      ensures forall i :: 0 <= i < |w| ==> w[i] == ids[a + i].incarnation
    {
      WindowOf(ids[a..b + 1])
    }

    predicate IsNew(a: nat, b: nat) {
      a <= b < |ids| && ids[a].sourceOwned && Window(a, b) !in seen
    }

    function Begun(a: nat, b: nat): Tracking {
      if IsNew(a, b) then this.(seen := seen + [Window(a, b)]) else this
    }

    /** The identity standing at one entry of a merge's order list. */
    function Follow(src: nat, a: nat, b: nat): PassIdentity {
      if src == NO_PASS then
        PassIdentity(next, a < |ids| && b < |ids| && (ids[a].sourceOwned || ids[b].sourceOwned))
      else if src < |ids| then ids[src]
      else PassIdentity(0, false)
    }

    function Rebuilt(order: seq<nat>, a: nat, b: nat): Tracking {
      Tracking(seq(|order|, k requires 0 <= k < |order| => Follow(order[k], a, b)), seen, next + 1)
    }
  }

  function StartTracking(g: Graph): Tracking {
    Tracking(
      seq(|g.passes|, i requires 0 <= i < |g.passes| => PassIdentity(i + 1, !g.passes[i].flags.activeRenderSeed)),
      [], |g.passes| + 1)
  }

  lemma BegunValid(t: Tracking, a: nat, b: nat)
    requires t.Valid()
    ensures t.Begun(a, b).Valid() && t.Begun(a, b).ids == t.ids
    ensures |t.Begun(a, b).seen| == |t.seen| + (if t.IsNew(a, b) then 1 else 0)
  {
  }

  /** The order list of a merge: one marker, at `at`, and distinct passes that exist. */
  ghost predicate OrderList(order: seq<nat>, at: nat, n: nat) {
    && NoDuplicates(order) && at < |order| && order[at] == NO_PASS && n <= NO_PASS
    && (forall k :: 0 <= k < |order| && k != at ==> order[k] < n)
  }

  /**
    Passes keep their identities through a merge and the merged one was never
    used before, so every window over the merged pass is new.
   */
  lemma RebuiltIsFresh(t: Tracking, order: seq<nat>, a: nat, b: nat, at: nat)
    requires t.Valid() && OrderList(order, at, |t.ids|)
    ensures t.Rebuilt(order, a, b).Valid() && |t.Rebuilt(order, a, b).ids| == |order|
    ensures t.Rebuilt(order, a, b).seen == t.seen
    ensures a < |t.ids| && b < |t.ids| ==>
      t.Rebuilt(order, a, b).ids[at].sourceOwned == (t.ids[a].sourceOwned || t.ids[b].sourceOwned)
    ensures forall k :: 0 <= k < |order| && k != at ==> t.Rebuilt(order, a, b).ids[k] == t.ids[order[k]]
    ensures forall c: nat, d: nat :: c <= at <= d < |order| ==> t.Rebuilt(order, a, b).Window(c, d) !in t.seen
  {
    var r := t.Rebuilt(order, a, b);
    forall i, j | 0 <= i < j < |order| ensures r.ids[i].incarnation != r.ids[j].incarnation {
      assert order[i] != order[j];
    }
    forall c: nat, d: nat | c <= at <= d < |order| ensures r.Window(c, d) !in t.seen {
      assert r.Window(c, d)[at - c] == t.next;
      NotSeen(t.seen, t.next, r.Window(c, d), at - c);
    }
  }

  /** The numbers are the identities of the passes from a to b, one by one. */
  predicate Spells(numbers: seq<nat>, ids: seq<PassIdentity>, a: nat, b: nat)
    requires a <= b < |ids|
  {
    |numbers| == b - a + 1 && forall i :: 0 <= i < |numbers| ==> numbers[i] == ids[a + i].incarnation
  }

  lemma WindowSpells(t: Tracking, a: nat, b: nat)
    requires a <= b < |t.ids|
    ensures t.Window(a, b) in t.seen <==> exists k :: 0 <= k < |t.seen| && Spells(t.seen[k], t.ids, a, b)
  {
    forall k | 0 <= k < |t.seen| && Spells(t.seen[k], t.ids, a, b) ensures t.seen[k] == t.Window(a, b) {
    }
  }

  /** At the start every pass has an identity of its own, and those without the seed are source-owned. */
  lemma StartIsFresh(g: Graph)
    ensures StartTracking(g).Valid() && |StartTracking(g).ids| == |g.passes| && StartTracking(g).seen == []
    ensures forall i :: 0 <= i < |g.passes| ==> StartTracking(g).ids[i].sourceOwned == !g.passes[i].flags.activeRenderSeed
  {
  }

  /** Names passes independently of their changing indices, so a window is counted once. */
  class ReturnDiagnosticTracker {
    var passIdentities: seq<PassIdentity>
    var seenCandidates: seq<seq<nat>>
    var nextIdentity: nat

    function Value(): Tracking
      reads this
    {
      Tracking(passIdentities, seenCandidates, nextIdentity)
    }

    constructor (g: Graph)
      ensures Value() == StartTracking(g)
    {
      passIdentities := seq(|g.passes|, i requires 0 <= i < |g.passes| =>
        PassIdentity(i + 1, !g.passes[i].flags.activeRenderSeed));
      seenCandidates := [];
      nextIdentity := |g.passes| + 1;
    }

    /** True for a window of a source-owned pass not counted before; it then counts as seen. */
    method BeginCandidate(a: nat, b: nat) returns (isNew: bool)
      modifies this`seenCandidates
      ensures isNew == old(Value()).IsNew(a, b)
      ensures isNew <==>
        && a <= b < |passIdentities| && passIdentities[a].sourceOwned
        && !exists k :: 0 <= k < |old(seenCandidates)| && Spells(old(seenCandidates)[k], passIdentities, a, b)
      ensures seenCandidates == old(seenCandidates) || (isNew && |seenCandidates| == |old(seenCandidates)| + 1)
      ensures Value() == old(Value()).Begun(a, b)
    {
      if a > b || b >= |passIdentities| || !passIdentities[a].sourceOwned {
        return false;
      }
      WindowSpells(Value(), a, b);
      ghost var window := Value().Window(a, b);
      var count := b - a + 1;
      for k := 0 to |seenCandidates|
        invariant window !in seenCandidates[..k]
      {
        var candidate := seenCandidates[k];
        if |candidate| == count {
          var equal := true;
          var i := 0;
          while i < count && equal
            invariant 0 <= i <= count
            invariant equal ==> forall j :: 0 <= j < i ==> candidate[j] == window[j]
            invariant !equal ==> candidate != window
          {
            if candidate[i] != passIdentities[a + i].incarnation {
              assert candidate[i] != window[i];
              equal := false;
            }
            i := i + 1;
          }
          if equal {
            assert candidate == window;
            return false;
          }
        }
      }
      assert seenCandidates[..|seenCandidates|] == seenCandidates;
      var identity := [];
      for i := a to b + 1
        invariant identity == window[..i - a]
      {
        identity := identity + [passIdentities[i].incarnation];
      }
      assert identity == window;
      seenCandidates := seenCandidates + [identity];
      isNew := true;
    }

    /** Follow a merge: passes keep their identity, the merged one gets a fresh one. */
    method Rebuild(order: seq<nat>, a: nat, b: nat, ghost at: nat)
      requires OrderList(order, at, |passIdentities|)
      modifies this`passIdentities, this`nextIdentity
      ensures Value() == old(Value()).Rebuilt(order, a, b) && |passIdentities| == |order|
    {
      ghost var t := Value();
      var ids, next := passIdentities, nextIdentity;
      var mergedSourceOwned := a < |ids| && b < |ids| && (ids[a].sourceOwned || ids[b].sourceOwned);
      var rebuilt := [];
      for k := 0 to |order|
        invariant |rebuilt| == k
        invariant next == if k <= at then t.next else t.next + 1
        invariant forall i :: 0 <= i < k ==> rebuilt[i] == t.Follow(order[i], a, b)
      {
        if order[k] == NO_PASS {
          rebuilt := rebuilt + [PassIdentity(next, mergedSourceOwned)];
          next := next + 1;
        } else if order[k] < |ids| {
          rebuilt := rebuilt + [ids[order[k]]];
        }
      }
      passIdentities, nextIdentity := rebuilt, next;
    }
  }
}
