/**
  What the observation ledger keeps true of its history: the marks of each
  generation, the verdicts given at record time, and the counters.
 */
module ObserverHistory {
  import opened MutationIdentity
  import opened Composition
  import opened Options
  import Sequences

  datatype BarrierReason =
    | DrawBarrier | ProcessVertices | ReadLock | QueryReadback | UpdateCopy | CrossThread
    | DestroyReset | CaptureLease | FailureBarrier | UnknownBarrier

  datatype Generation = Generation(
    key: SourceIdentity,
    firstEvent: nat,
    lastEvent: nat,
    firstOrdinal: nat,
    mutationCount: nat,
    used: bool,
    barrierSinceLast: bool,
    firstDisposition: Disposition,
    lastDisposition: Disposition,
    finalized: bool)

  /** The six counters that a finalization recomputes from the history. */
  datatype Tally = Tally(pairs: nat, unionBytes: nat, overlapBytes: nat, calls: nat, bytes: nat, cpuNs: nat)

  /**
    A row of counters indexed by reason is the multiset of the reasons counted.
    The 64-bit counters are unbounded here.
   */
  datatype Snapshot = Snapshot(
    mutationCalls: nat,
    mutationBytes: nat,
    firstUseGpu: nat,
    firstUseCpu: nat,
    firstUseDistanceTotal: nat,
    firstUseDistanceMax: nat,
    tally: Tally,
    barriers: multiset<BarrierReason>,
    rejections: multiset<RejectionReason>,
    finalRejections: multiset<RejectionReason>,
    overflowEvents: nat,
    invalidOrDropped: nat,
    pending: nat,
    completed: nat,
    failed: nat,
    discarded: nat,
    zeroUse: nat,
    deadChains: nat)

  const EMPTY_TALLY := Tally(0, 0, 0, 0, 0, 0)
  const EMPTY_SNAPSHOT :=
    Snapshot(0, 0, 0, 0, 0, 0, EMPTY_TALLY, multiset{}, multiset{}, multiset{}, 0, 0, 0, 0, 0, 0, 0, 0)

  // ----- weights of a composed pair -----

  function UnionBytes(p: Event, c: Event): nat {
    var start := if p.byteOffset < c.byteOffset then p.byteOffset else c.byteOffset;
    var end := if p.End() > c.End() then p.End() else c.End();
    end - start
  }

  function OverlapBytes(p: Event, c: Event): nat {
    var start := if p.byteOffset > c.byteOffset then p.byteOffset else c.byteOffset;
    var end := if p.End() < c.End() then p.End() else c.End();
    if RangesOverlap(p, c) && end > start then end - start else 0
  }

  /** The bytes an event writes. */
  ghost function Bytes(e: Event): set<nat> {
    Sequences.Interval(e.byteOffset, e.byteOffset + e.byteSize)
  }

  /** The overlap counted is the number of bytes both events write. */
  lemma OverlapIsShared(p: Event, c: Event)
    ensures OverlapBytes(p, c) == |Bytes(p) * Bytes(c)|
  {
    var lo := if p.byteOffset > c.byteOffset then p.byteOffset else c.byteOffset;
    var hi := if p.End() < c.End() then p.End() else c.End();
    assert Bytes(p) * Bytes(c) == Sequences.Interval(lo, hi);
    if lo <= hi {
      Sequences.IntervalSize(lo, hi);
    }
  }

  /** The union counted is the least range that holds both, a gap between them included. */
  lemma UnionIsHull(p: Event, c: Event, lo: nat, hi: nat)
    requires lo <= p.byteOffset && lo <= c.byteOffset && p.byteOffset + p.byteSize <= hi && c.byteOffset + c.byteSize <= hi
    ensures UnionBytes(p, c) <= hi - lo
    ensures lo in {p.byteOffset, c.byteOffset} && hi in {p.byteOffset + p.byteSize, c.byteOffset + c.byteSize} ==>
      UnionBytes(p, c) == hi - lo
  {
  }

  function OneCall(p: Event, c: Event): nat {
    1
  }

  function SavedBytes(p: Event, c: Event): nat {
    c.byteSize
  }

  function SavedNs(p: Event, c: Event): nat {
    c.knownNs
  }

  /** The counters with one more composed pair. */
  function AddPair(t: Tally, p: Event, c: Event): Tally {
    Tally(t.pairs + 1, t.unionBytes + UnionBytes(p, c), t.overlapBytes + OverlapBytes(p, c),
          t.calls + 1, t.bytes + SavedBytes(p, c), t.cpuNs + SavedNs(p, c))
  }

  /** The exact counters of a history. */
  function ExactTally(events: seq<Event>): Tally {
    var n := |events|;
    Tally(Total(events, n, OneCall), Total(events, n, UnionBytes), Total(events, n, OverlapBytes),
          Total(events, n, OneCall), Total(events, n, SavedBytes), Total(events, n, SavedNs))
  }

  /** Counter by counter, at most. */
  predicate AtMost(s: Tally, t: Tally) {
    && s.pairs <= t.pairs && s.unionBytes <= t.unionBytes && s.overlapBytes <= t.overlapBytes
    && s.calls <= t.calls && s.bytes <= t.bytes && s.cpuNs <= t.cpuNs
  }

  lemma WeightsTimeless()
    ensures Timeless(OneCall) && Timeless(UnionBytes) && Timeless(OverlapBytes)
    ensures Timeless(SavedBytes) && Timeless(SavedNs)
  {
  }

  lemma ExactTallyAged(before: seq<Event>, after: seq<Event>)
    requires AgedHistory(before, after)
    ensures AtMost(ExactTally(before), ExactTally(after))
  {
    WeightsTimeless();
    var n := |before|;
    TotalAged(before, after, n, OneCall);
    TotalAged(before, after, n, UnionBytes);
    TotalAged(before, after, n, OverlapBytes);
    TotalAged(before, after, n, SavedBytes);
    TotalAged(before, after, n, SavedNs);
  }

  /** One more event adds its own pair, if it is a candidate, and nothing else. */
  lemma ExactTallySnoc(events: seq<Event>, e: Event)
    ensures
      var k := PreviousIndex(events, |events|, e.identity);
      ExactTally(events + [e]) ==
        if k >= 0 && Classify(events[k], e, e.barrierBefore) == Candidate then AddPair(ExactTally(events), events[k], e)
        else ExactTally(events)
  {
    var n, all := |events|, events + [e];
    TotalPrefix(events, [e], n, OneCall);
    TotalPrefix(events, [e], n, UnionBytes);
    TotalPrefix(events, [e], n, OverlapBytes);
    TotalPrefix(events, [e], n, SavedBytes);
    TotalPrefix(events, [e], n, SavedNs);
    LookupsPrefix(events, [e], n, e.identity);
  }

  function SumBytes(events: seq<Event>, n: nat): nat
    requires n <= |events|
  {
    if n == 0 then 0 else SumBytes(events, n - 1) + events[n - 1].byteSize
  }

  lemma {:induction false} CandidatesBounded(events: seq<Event>, n: nat)
    requires n <= |events|
    ensures Total(events, n, OneCall) <= n
    ensures Total(events, n, SavedBytes) <= SumBytes(events, n)
  {
    if n > 0 {
      CandidatesBounded(events, n - 1);
    }
  }

  lemma {:induction false} SumBytesPrefix(events: seq<Event>, e: Event, n: nat)
    requires n <= |events|
    ensures SumBytes(events + [e], n) == SumBytes(events, n)
  {
    if n > 0 {
      SumBytesPrefix(events, e, n - 1);
    }
  }

  lemma {:induction false} SumBytesAged(before: seq<Event>, after: seq<Event>, n: nat)
    requires AgedHistory(before, after) && n <= |before|
    ensures SumBytes(after, n) == SumBytes(before, n)
  {
    if n > 0 {
      assert Aged(before[n - 1], after[n - 1]);
      SumBytesAged(before, after, n - 1);
    }
  }

  function CompletionCount(events: seq<Event>, n: nat, c: Completion): nat
    requires n <= |events|
  {
    if n == 0 then 0 else CompletionCount(events, n - 1, c) + if events[n - 1].completion == c then 1 else 0
  }

  lemma {:induction false} CompletionPrefix(events: seq<Event>, e: Event, n: nat, c: Completion)
    requires n <= |events|
    ensures CompletionCount(events + [e], n, c) == CompletionCount(events, n, c)
  {
    if n > 0 {
      CompletionPrefix(events, e, n - 1, c);
    }
  }

  /** Changing one event's completion moves one count. */
  lemma {:induction false} CompletionUpdate(events: seq<Event>, i: nat, e: Event, n: nat, c: Completion)
    requires n <= |events| && i < |events|
    ensures
      var was, now := (if events[i].completion == c then 1 else 0), (if e.completion == c then 1 else 0);
      CompletionCount(events[i := e], n, c) + (if i < n then was else 0)
        == CompletionCount(events, n, c) + (if i < n then now else 0)
  {
    if n > 0 {
      CompletionUpdate(events, i, e, n - 1, c);
    }
  }

  lemma {:induction false} CompletionSame(before: seq<Event>, after: seq<Event>, n: nat, c: Completion)
    requires |before| == |after| && n <= |before|
    requires forall i :: 0 <= i < |before| ==> after[i].completion == before[i].completion
    ensures CompletionCount(after, n, c) == CompletionCount(before, n, c)
  {
    if n > 0 {
      CompletionSame(before, after, n - 1, c);
    }
  }

  lemma {:induction false} CompletionPartition(events: seq<Event>, n: nat)
    requires n <= |events|
    ensures n == CompletionCount(events, n, Pending) + CompletionCount(events, n, Completed)
               + CompletionCount(events, n, Failed) + CompletionCount(events, n, Discarded)
  {
    if n > 0 {
      CompletionPartition(events, n - 1);
    }
  }

  function UsedCount(generations: seq<Generation>): nat {
    if generations == [] then 0
    else UsedCount(generations[..|generations| - 1]) + if generations[|generations| - 1].used then 1 else 0
  }

  lemma {:induction false} UsedBounded(generations: seq<Generation>)
    ensures UsedCount(generations) <= |generations|
  {
    if generations != [] {
      UsedBounded(generations[..|generations| - 1]);
    }
  }

  lemma {:induction false} UsedUpdate(generations: seq<Generation>, i: nat, g: Generation)
    requires i < |generations|
    ensures UsedCount(generations[i := g]) + (if generations[i].used then 1 else 0)
         == UsedCount(generations) + (if g.used then 1 else 0)
  {
    var last := |generations| - 1;
    if i < last {
      UsedUpdate(generations[..last], i, g);
      assert generations[i := g][..last] == generations[..last][i := g];
    } else {
      assert generations[i := g][..last] == generations[..last];
    }
  }

  lemma {:induction false} UsedSame(before: seq<Generation>, after: seq<Generation>)
    requires |before| == |after| && forall i :: 0 <= i < |before| ==> after[i].used == before[i].used
    ensures UsedCount(after) == UsedCount(before)
  {
    if before != [] {
      UsedSame(before[..|before| - 1], after[..|after| - 1]);
    }
  }

  // ----- the history invariant -----

  function Keys(generations: seq<Generation>): (ks: seq<SourceIdentity>)
    ensures |ks| == |generations| && forall i :: 0 <= i < |ks| ==> ks[i] == generations[i].key
  {
    seq(|generations|, i requires 0 <= i < |generations| => generations[i].key)
  }

  /** A generation's marks agree with the events of its key. */
  ghost predicate MarksRight(events: seq<Event>, g: Generation) {
    && g.mutationCount > 0
    && g.lastEvent == LastWithKey(events, |events|, g.key)
    && (forall j :: 0 <= j < g.firstEvent && j < |events| ==> !HasKey(events[j], g.key))
    && EndsRight(events, g)
  }

  /** The first and the last event of the generation, and what the generation notes of them. */
  ghost predicate EndsRight(events: seq<Event>, g: Generation) {
    && g.firstEvent < |events| && HasKey(events[g.firstEvent], g.key)
    && g.firstOrdinal == events[g.firstEvent].identity.sourceOrdinal
    && g.firstDisposition == events[g.firstEvent].disposition
    && g.lastEvent < |events| && g.lastDisposition == events[g.lastEvent].disposition
  }

  ghost predicate Indexed(events: seq<Event>, generations: seq<Generation>) {
    && (forall i :: 0 <= i < |generations| ==> MarksRight(events, generations[i]))
    && (forall i, j :: 0 <= i < j < |generations| ==> !SameResourceGeneration(generations[i].key, generations[j].key))
    && (forall i :: 0 <= i < |events| ==> Listed(events[i], Keys(generations)))
    && |generations| <= |events|
  }

  /** Verdicts given at record time, against those the history gives now. */
  ghost predicate Settled(events: seq<Event>, recorded: seq<Option<Decision>>) {
    && |recorded| == |events|
    && forall i :: 0 <= i < |events| ==> Settles(recorded[i], Verdict(events, i))
  }

  function RecordedCount(recorded: seq<Option<Decision>>, v: Option<Decision>): nat {
    if recorded == [] then 0
    else RecordedCount(recorded[..|recorded| - 1], v) + Hit(recorded[|recorded| - 1], v)
  }

  /** The provisional rejection counters are the record-time verdicts. */
  ghost predicate ProvisionalRight(recorded: seq<Option<Decision>>, rejections: multiset<RejectionReason>) {
    forall d: Decision :: d != Candidate ==> rejections[ReasonOf(d)] == RecordedCount(recorded, Some(d))
  }

  /** The counter of each disposition counts the events that have it. */
  ghost predicate Conserved(events: seq<Event>, s: Snapshot) {
    && s.pending == CompletionCount(events, |events|, Pending)
    && s.completed == CompletionCount(events, |events|, Completed)
    && s.failed == CompletionCount(events, |events|, Failed)
    && s.discarded == CompletionCount(events, |events|, Discarded)
  }

  ghost predicate CountersRight(events: seq<Event>, generations: seq<Generation>, s: Snapshot) {
    && s.mutationCalls == |events|
    && s.mutationBytes == SumBytes(events, |events|)
    && s.tally.pairs == s.tally.calls
    && AtMost(s.tally, ExactTally(events))
    && s.firstUseGpu + s.firstUseCpu == UsedCount(generations)
  }

  // ----- what one more event does to the history -----

  /** The marks of a generation that is about to get its first event, at index n. */
  function FreshGeneration(e: Event, n: nat): Generation {
    Generation(e.identity, n, n, e.identity.sourceOrdinal, 0, false, false, Plain, Plain, false)
  }

  /** The marks of a generation with one more event, at index n. */
  function Extended(g: Generation, n: nat, d: Disposition): Generation {
    g.(lastEvent := n, mutationCount := g.mutationCount + 1, barrierSinceLast := false, lastDisposition := d,
       firstDisposition := if g.mutationCount == 0 then d else g.firstDisposition)
  }

  lemma IndexedSnocOld(events: seq<Event>, generations: seq<Generation>, e: Event, gi: nat, g: Generation)
    requires Indexed(events, generations) && gi < |generations| && HasKey(e, generations[gi].key)
    requires g == Extended(generations[gi], |events|, e.disposition)
    ensures Indexed(events + [e], generations[gi := g])
  {
    OldMarks(events, generations, e, gi, generations[gi := g]);
    OldKeys(events, generations, e, gi, g);
    hide MarksRight, Listed, Keys, HasKey, SameResourceGeneration;
  }

  lemma OldMarks(events: seq<Event>, generations: seq<Generation>, e: Event, gi: nat, next: seq<Generation>)
    requires Indexed(events, generations) && gi < |generations| && HasKey(e, generations[gi].key)
    requires next == generations[gi := Extended(generations[gi], |events|, e.disposition)]
    ensures forall i :: 0 <= i < |next| ==> MarksRight(events + [e], next[i])
  {
    forall i | 0 <= i < |next| ensures MarksRight(events + [e], next[i]) {
      assert MarksRight(events, generations[i]);
      hide MarksRight, Listed, Keys;
      if i == gi {
        MarksSnocOwn(events, generations[i], e);
      } else {
        assert i < gi ==> !SameResourceGeneration(generations[i].key, generations[gi].key);
        assert gi < i ==> !SameResourceGeneration(generations[gi].key, generations[i].key);
        MarksSnocOther(events, generations[i], e);
      }
    }
  }

  lemma OldKeys(events: seq<Event>, generations: seq<Generation>, e: Event, gi: nat, g: Generation)
    requires Indexed(events, generations) && gi < |generations| && HasKey(e, generations[gi].key)
    requires g.key == generations[gi].key
    ensures
      var all, next := events + [e], generations[gi := g];
      && (forall i, j :: 0 <= i < j < |next| ==> !SameResourceGeneration(next[i].key, next[j].key))
      && (forall i :: 0 <= i < |all| ==> Listed(all[i], Keys(next)))
  {
    hide MarksRight, SameResourceGeneration;
    var all, next := events + [e], generations[gi := g];
    assert Keys(next) == Keys(generations);
    assert HasKey(e, Keys(next)[gi]);
    hide HasKey;
    forall i | 0 <= i < |all| ensures Listed(all[i], Keys(next)) {
      if i < |events| {
        assert Listed(events[i], Keys(generations));
      }
    }
  }

  lemma MarksSnocOther(events: seq<Event>, g: Generation, e: Event)
    requires MarksRight(events, g) && !HasKey(e, g.key)
    ensures MarksRight(events + [e], g)
  {
    LookupsPrefix(events, [e], |events|, g.key);
  }

  lemma MarksSnocOwn(events: seq<Event>, g: Generation, e: Event)
    requires MarksRight(events, g) && HasKey(e, g.key)
    ensures MarksRight(events + [e], Extended(g, |events|, e.disposition))
  {
    LookupsPrefix(events, [e], |events|, g.key);
  }

  lemma IndexedSnocNew(events: seq<Event>, generations: seq<Generation>, e: Event, g: Generation)
    requires Indexed(events, generations) && HasKey(e, g.key)
    requires forall i :: 0 <= i < |generations| ==> !HasKey(e, generations[i].key)
    requires g.firstEvent == g.lastEvent == |events| && g.mutationCount == 1
    requires g.firstOrdinal == e.identity.sourceOrdinal && g.firstDisposition == g.lastDisposition == e.disposition
    ensures Indexed(events + [e], generations + [g])
  {
    hide MarksRight, LastWithKey;
    var all, next := events + [e], generations + [g];
    assert Keys(next) == Keys(generations) + [g.key];
    assert Keys(next)[|generations|] == g.key;
    NewKey(events, generations, e, g);
    forall i | 0 <= i < |next| ensures MarksRight(all, next[i]) {
      if i < |generations| {
        assert !HasKey(e, generations[i].key);
        hide Listed, Keys;
        MarksSnocOther(events, generations[i], e);
      } else {
        MarksOfFirst(events, g, e);
      }
    }
    forall i | 0 <= i < |all| ensures Listed(all[i], Keys(next)) {
      if i < |events| {
        assert Listed(events[i], Keys(generations));
        hide MarksRight, Keys;
        ListedMore(events[i], Keys(generations), g.key);
      }
    }
    hide MarksRight, Listed, Keys, HasKey;
  }

  lemma MarksOfFirst(events: seq<Event>, g: Generation, e: Event)
    requires HasKey(e, g.key) && forall j :: 0 <= j < |events| ==> !HasKey(events[j], g.key)
    requires g.firstEvent == g.lastEvent == |events| && g.mutationCount == 1
    requires g.firstOrdinal == e.identity.sourceOrdinal && g.firstDisposition == g.lastDisposition == e.disposition
    ensures MarksRight(events + [e], g)
  {
    LookupsPrefix(events, [e], |events|, g.key);
  }

  lemma ListedMore(e: Event, keys: seq<SourceIdentity>, key: SourceIdentity)
    requires Listed(e, keys)
    ensures Listed(e, keys + [key])
  {
    var k :| 0 <= k < |keys| && HasKey(e, keys[k]);
    assert (keys + [key])[k] == keys[k];
  }

  lemma NewKey(events: seq<Event>, generations: seq<Generation>, e: Event, g: Generation)
    requires Indexed(events, generations) && HasKey(e, g.key)
    requires forall i :: 0 <= i < |generations| ==> !HasKey(e, generations[i].key)
    ensures forall j :: 0 <= j < |events| ==> !HasKey(events[j], g.key)
    ensures forall i :: 0 <= i < |generations| ==> !SameResourceGeneration(generations[i].key, g.key)
  {
    forall j | 0 <= j < |events| ensures !HasKey(events[j], g.key) {
      assert Listed(events[j], Keys(generations));
      var k :| 0 <= k < |Keys(generations)| && HasKey(events[j], Keys(generations)[k]);
      assert !HasKey(e, generations[k].key);
    }
  }

  lemma SettledSnoc(events: seq<Event>, recorded: seq<Option<Decision>>, e: Event)
    requires Settled(events, recorded)
    ensures Settled(events + [e], recorded + [Verdict(events + [e], |events|)])
  {
    forall i | 0 <= i < |events| ensures Settles(recorded[i], Verdict(events + [e], i)) {
      VerdictPrefix(events, [e], i);
    }
  }

  /** Settlements and uses keep the record-time verdicts settled. */
  lemma SettledAged(before: seq<Event>, after: seq<Event>, recorded: seq<Option<Decision>>)
    requires AgedHistory(before, after) && Settled(before, recorded)
    ensures Settled(after, recorded)
  {
    forall i | 0 <= i < |after| ensures Settles(recorded[i], Verdict(after, i)) {
      VerdictAged(before, after, i);
      SettlesTransitive(recorded[i], Verdict(before, i), Verdict(after, i));
    }
  }

  lemma SettlesTransitive(a: Option<Decision>, b: Option<Decision>, c: Option<Decision>)
    requires Settles(a, b) && Settles(b, c)
    ensures Settles(a, c)
  {
  }

  lemma IndexedAged(before: seq<Event>, after: seq<Event>, generations: seq<Generation>)
    requires AgedHistory(before, after) && Indexed(before, generations)
    ensures Indexed(after, generations)
  {
    forall i | 0 <= i < |generations| ensures MarksRight(after, generations[i]) {
      assert MarksRight(before, generations[i]);
      AgedLookups(before, after, |before|, generations[i].key);
      forall j | 0 <= j < generations[i].firstEvent && j < |after| ensures !HasKey(after[j], generations[i].key) {
        assert Aged(before[j], after[j]);
      }
    }
    forall i | 0 <= i < |after| ensures Listed(after[i], Keys(generations)) {
      assert Aged(before[i], after[i]) && Listed(before[i], Keys(generations));
    }
  }

  /** At most the barrier, use and closing marks differ. */
  predicate SameMarks(g: Generation, h: Generation) {
    h == g.(barrierSinceLast := h.barrierSinceLast, used := h.used, finalized := h.finalized)
  }

  lemma MarksSame(events: seq<Event>, g: Generation, h: Generation)
    requires MarksRight(events, g) && SameMarks(g, h)
    ensures MarksRight(events, h)
  {
  }

  /** Barrier, use and closing marks do not matter to the index. */
  lemma IndexedSameMarks(events: seq<Event>, before: seq<Generation>, after: seq<Generation>)
    requires Indexed(events, before) && |before| == |after|
    requires forall i :: 0 <= i < |before| ==> SameMarks(before[i], after[i])
    ensures Indexed(events, after)
  {
    hide MarksRight, Listed, SameResourceGeneration;
    assert Keys(after) == Keys(before);
    forall i | 0 <= i < |after| ensures MarksRight(events, after[i]) {
      MarksSame(events, before[i], after[i]);
    }
  }

  // ----- reports -----

  /** What the report audit demands of the counters of a closed window, in the parts that are laws. */
  ghost predicate PassesAudit(s: Snapshot) {
    && s.mutationCalls == s.pending + s.completed + s.failed + s.discarded
    && s.tally.pairs == s.tally.calls
    && s.tally.calls <= s.mutationCalls
    && s.tally.bytes <= s.mutationBytes
    && s.firstUseGpu + s.firstUseCpu <= s.mutationCalls
  }

  /** Every reachable conserved state passes it. */
  lemma CountersPassAudit(events: seq<Event>, generations: seq<Generation>, s: Snapshot)
    requires Indexed(events, generations) && CountersRight(events, generations, s) && Conserved(events, s)
    ensures PassesAudit(s)
  {
    CompletionPartition(events, |events|);
    CandidatesBounded(events, |events|);
    UsedBounded(generations);
  }

  // ----- the exact rejection view -----

  function FinalRejections(events: seq<Event>, n: nat): multiset<RejectionReason>
    requires n <= |events|
  {
    if n == 0 then multiset{}
    else
      var prev := FinalRejections(events, n - 1);
      match Verdict(events, n - 1)
      case None => prev
      case Some(d) => if d == Candidate then prev else prev + multiset{ReasonOf(d)}
  }

  lemma VerdictAt(events: seq<Event>, i: nat)
    requires i < |events|
    ensures
      var k := PreviousIndex(events, i, events[i].identity);
      Verdict(events, i) == if k < 0 then None else Some(Classify(events[k], events[i], events[i].barrierBefore))
  {
  }

  lemma {:induction false} CandidatesCounted(events: seq<Event>, n: nat)
    requires n <= |events|
    ensures Total(events, n, OneCall) == Count(events, n, Some(Candidate))
  {
    if n > 0 {
      CandidatesCounted(events, n - 1);
    }
  }

  lemma {:induction false} FinalSize(events: seq<Event>, n: nat)
    requires n <= |events|
    ensures |FinalRejections(events, n)| + Count(events, n, Some(Candidate)) + Count(events, n, None) == n
  {
    hide Verdict, ReasonOf;
    if n > 0 {
      FinalSize(events, n - 1);
      var v := Verdict(events, n - 1);
      if v.Some? && v.value != Candidate {
        OneMore(FinalRejections(events, n - 1), ReasonOf(v.value));
      }
    }
  }

  lemma OneMore(counts: multiset<RejectionReason>, r: RejectionReason)
    ensures |counts + multiset{r}| == |counts| + 1
  {
  }

  lemma {:induction false} FinalCount(events: seq<Event>, n: nat, d: Decision)
    requires n <= |events| && d != Candidate
    ensures FinalRejections(events, n)[ReasonOf(d)] == Count(events, n, Some(d))
  {
    hide Verdict;
    if n > 0 {
      FinalCount(events, n - 1, d);
      match Verdict(events, n - 1) {
        case None =>
        case Some(c) => ReasonsDistinct(c, d);
      }
    }
  }

  lemma ReasonsDistinct(c: Decision, d: Decision)
    requires d != Candidate
    ensures ReasonOf(c) == ReasonOf(d) <==> c == d
  {
    match d {
      case OtherResource => case OtherGeneration => case OtherTape => case WrongOrder =>
      case Barred => case NotSuccessful => case NotCompleted => case Discarding => case Overlapping =>
    }
  }

  /**
    The exact view covers every recorded event once: candidates, rejections, and
    one first event per resource. None is rejected for its resource or its order.
   */
  lemma FinalPartition(events: seq<Event>)
    requires Ordered(events)
    ensures ExactTally(events).calls + |FinalRejections(events, |events|)| + |Resources(events, |events|)| == |events|
    ensures DifferentResource !in FinalRejections(events, |events|)
    ensures SourceOrder !in FinalRejections(events, |events|)
  {
    var n := |events|;
    CandidatesCounted(events, n);
    FinalSize(events, n);
    CountFirsts(events, n);
    NoOrderRejections(events, n);
    FinalCount(events, n, OtherResource);
    FinalCount(events, n, WrongOrder);
  }

  /** How a count may move after record time: completion only falls, anything else only rises. */
  predicate Moved(d: Decision, was: nat, now: nat) {
    if d == NotCompleted then now <= was else was <= now
  }

  /** An event still rejected for completion was so at record time; every other count can only rise. */
  lemma {:induction false} FinalAgainstProvisional(events: seq<Event>, recorded: seq<Option<Decision>>, n: nat, d: Decision)
    requires Settled(events, recorded) && n <= |events|
    ensures Moved(d, RecordedCount(recorded[..n], Some(d)), Count(events, n, Some(d)))
  {
    hide Verdict, Hit, Settles, RecordedCount, Count;
    if n > 0 {
      SettledHit(recorded[n - 1], Verdict(events, n - 1), d);
      CountNext(events, n - 1, Some(d));
      FinalAgainstProvisional(events, recorded, n - 1, d);
      RecordedNext(recorded, n - 1, Some(d));
    } else {
      NothingCounted(events, recorded, Some(d));
    }
  }

  lemma NothingCounted(events: seq<Event>, recorded: seq<Option<Decision>>, v: Option<Decision>)
    ensures RecordedCount(recorded[..0], v) == 0 && Count(events, 0, v) == 0
  {
  }

  lemma CountNext(events: seq<Event>, n: nat, v: Option<Decision>)
    requires n < |events|
    ensures Count(events, n + 1, v) == Count(events, n, v) + Hit(Verdict(events, n), v)
  {
  }

  lemma RecordedNext(recorded: seq<Option<Decision>>, n: nat, v: Option<Decision>)
    requires n < |recorded|
    ensures RecordedCount(recorded[..n + 1], v) == RecordedCount(recorded[..n], v) + Hit(recorded[n], v)
  {
    assert recorded[..n + 1][..n] == recorded[..n];
  }

  lemma SettledHit(r: Option<Decision>, v: Option<Decision>, d: Decision)
    requires Settles(r, v)
    ensures Moved(d, Hit(r, Some(d)), Hit(v, Some(d)))
  {
  }

  // ----- steps of the ledger, on values -----

  /** Every event carries an identity issued in the present generation, in rising order. */
  ghost predicate IssuedHere(events: seq<Event>, generation: nat, nextOrdinal: nat) {
    && generation != 0
    && Ordered(events)
    && forall i :: 0 <= i < |events| ==>
      events[i].ordering.generation == generation && 0 < events[i].ordering.ordinal < nextOrdinal
  }

  lemma IssuedLater(events: seq<Event>, generation: nat, o: nat, later: nat)
    requires IssuedHere(events, generation, o) && o <= later
    ensures IssuedHere(events, generation, later)
  {
  }

  function Dropped(s: Snapshot, capacity: bool): Snapshot {
    if capacity then
      s.(invalidOrDropped := s.invalidOrDropped + 1, overflowEvents := s.overflowEvents + 1,
         rejections := s.rejections + multiset{Capacity})
    else s.(invalidOrDropped := s.invalidOrDropped + 1)
  }

  lemma ProvisionalKeeps(recorded: seq<Option<Decision>>, before: multiset<RejectionReason>, after: multiset<RejectionReason>)
    requires ProvisionalRight(recorded, before)
    requires after == before || after == before + multiset{Capacity} || after == before + multiset{Invalid}
    ensures ProvisionalRight(recorded, after)
  {
  }

  lemma ProvisionalSnoc(recorded: seq<Option<Decision>>, before: multiset<RejectionReason>,
                        after: multiset<RejectionReason>, v: Option<Decision>)
    requires ProvisionalRight(recorded, before)
    requires after == if v.Some? && v.value != Candidate then before + multiset{ReasonOf(v.value)} else before
    ensures ProvisionalRight(recorded + [v], after)
  {
    forall d: Decision | d != Candidate ensures after[ReasonOf(d)] == RecordedCount(recorded + [v], Some(d)) {
      assert (recorded + [v])[..|recorded|] == recorded;
      if v.Some? {
        ReasonsDistinct(v.value, d);
      }
    }
  }

  /** The counters of an accepted event, candidates and rejections aside. */
  function Counted(s: Snapshot, e: Event): Snapshot {
    s.(mutationCalls := s.mutationCalls + 1,
       mutationBytes := s.mutationBytes + e.byteSize,
       completed := s.completed + (if e.completion == Completed then 1 else 0),
       pending := s.pending + (if e.completion == Pending then 1 else 0),
       failed := s.failed + (if e.completion == Failed then 1 else 0),
       discarded := s.discarded + (if e.completion == Discarded then 1 else 0))
  }

  lemma {:induction false} LastWithKeySame(events: seq<Event>, n: nat, a: SourceIdentity, b: SourceIdentity)
    requires n <= |events| && SameResourceGeneration(a, b)
    ensures LastWithKey(events, n, a) == LastWithKey(events, n, b)
  {
    if n > 0 {
      LastWithKeySame(events, n - 1, a, b);
    }
  }

  lemma NoKeyYet(events: seq<Event>, generations: seq<Generation>, id: SourceIdentity)
    requires Indexed(events, generations)
    requires forall k :: 0 <= k < |generations| ==> !SameResourceGeneration(generations[k].key, id)
    ensures LastWithKey(events, |events|, id) < 0
  {
    forall j | 0 <= j < |events| ensures !HasKey(events[j], id) {
      assert Listed(events[j], Keys(generations));
      var k :| 0 <= k < |Keys(generations)| && HasKey(events[j], Keys(generations)[k]);
      assert !SameResourceGeneration(generations[k].key, id);
    }
  }

  lemma VerdictOfNew(events: seq<Event>, stored: Event, observed: Event, previous: int)
    requires stored == observed.(barrierBefore := stored.barrierBefore)
    requires previous == PreviousIndex(events, |events|, observed.identity)
    ensures Verdict(events + [stored], |events|)
      == if previous < 0 then None else Some(Classify(events[previous], observed, stored.barrierBefore))
  {
    LookupsPrefix(events, [stored], |events|, stored.identity);
  }

  /** The provisional tally stays below the exact one. */
  lemma TallySnoc(events: seq<Event>, stored: Event, observed: Event, previous: int, s: Tally)
    requires stored == observed.(barrierBefore := stored.barrierBefore) && AtMost(s, ExactTally(events))
    requires previous == PreviousIndex(events, |events|, observed.identity)
    ensures AtMost(s, ExactTally(events + [stored]))
    ensures previous >= 0 && Classify(events[previous], observed, stored.barrierBefore) == Candidate ==>
      AtMost(AddPair(s, events[previous], observed), ExactTally(events + [stored]))
  {
    ExactTallySnoc(events, stored);
    hide ExactTally;
    assert previous >= 0 ==> AddPair(s, events[previous], observed) == AddPair(s, events[previous], stored);
  }

  lemma IssuedSnoc(events: seq<Event>, e: Event, generation: nat, nextOrdinal: nat)
    requires nextOrdinal > 0 && IssuedHere(events, generation, nextOrdinal - 1)
    requires e.ordering.IsValid() && e.ordering.generation == generation && e.ordering.ordinal == nextOrdinal - 1
    ensures IssuedHere(events + [e], generation, nextOrdinal)
  {
  }

  lemma CountersSnoc(events: seq<Event>, e: Event, before: seq<Generation>, after: seq<Generation>, s: Snapshot, t: Tally)
    requires CountersRight(events, before, s) && UsedCount(after) == UsedCount(before)
    requires t.pairs == t.calls && AtMost(t, ExactTally(events + [e]))
    ensures CountersRight(events + [e], after, Counted(s, e).(tally := t))
    ensures Conserved(events, s) ==> Conserved(events + [e], Counted(s, e).(tally := t))
  {
    SumBytesPrefix(events, e, |events|);
    CompletionPrefix(events, e, |events|, Pending);
    CompletionPrefix(events, e, |events|, Completed);
    CompletionPrefix(events, e, |events|, Failed);
    CompletionPrefix(events, e, |events|, Discarded);
    hide ExactTally;
  }

  lemma UsedSnoc(generations: seq<Generation>, g: Generation)
    ensures UsedCount(generations + [g]) == UsedCount(generations) + (if g.used then 1 else 0)
  {
    assert (generations + [g])[..|generations|] == generations;
  }

  // ----- settlements and uses, on values -----

  predicate IsPendingFor(e: Event, id: SourceIdentity) {
    HasKey(e, id) && e.identity.sourceOrdinal == id.sourceOrdinal && e.completion == Pending
  }

  function PendingIndex(events: seq<Event>, n: nat, id: SourceIdentity): (k: int)
    requires n <= |events|
    ensures -1 <= k < n
    ensures k >= 0 ==> IsPendingFor(events[k], id)
    ensures forall j :: k < j < n ==> !IsPendingFor(events[j], id)
  {
    if n == 0 then -1
    else if IsPendingFor(events[n - 1], id) then n - 1
    else PendingIndex(events, n - 1, id)
  }

  function SettledEvent(e: Event, d: Completion): Event {
    e.(completion := d, successful := e.successful && d != Failed)
  }

  function SettledSnapshot(s: Snapshot, d: Completion): Snapshot {
    s.(pending := if s.pending != 0 then s.pending - 1 else 0,
       completed := s.completed + (if d == Completed then 1 else 0),
       failed := s.failed + (if d == Failed then 1 else 0),
       discarded := s.discarded + (if d == Discarded then 1 else 0))
  }

  lemma AgedReflexive(events: seq<Event>)
    ensures AgedHistory(events, events)
  {
  }

  lemma AgedOne(events: seq<Event>, k: nat, e: Event)
    requires k < |events| && Aged(events[k], e)
    ensures AgedHistory(events, events[k := e])
  {
  }

  /** Settling keeps the dispositions conserved exactly when it settles to something. */
  lemma SettleConserves(events: seq<Event>, k: nat, s: Snapshot, d: Completion)
    requires k < |events| && events[k].completion == Pending && Conserved(events, s)
    ensures Conserved(events[k := SettledEvent(events[k], d)], SettledSnapshot(s, d)) <==> d != Pending
  {
    var e, n := SettledEvent(events[k], d), |events|;
    CompletionUpdate(events, k, e, n, Pending);
    CompletionUpdate(events, k, e, n, Completed);
    CompletionUpdate(events, k, e, n, Failed);
    CompletionUpdate(events, k, e, n, Discarded);
    PendingPresent(events, n, k);
  }

  lemma {:induction false} PendingPresent(events: seq<Event>, n: nat, k: nat)
    requires k < n <= |events| && events[k].completion == Pending
    ensures CompletionCount(events, n, Pending) > 0
  {
    if k < n - 1 {
      PendingPresent(events, n - 1, k);
    }
  }

  lemma UseConserves(before: seq<Event>, after: seq<Event>, s: Snapshot)
    requires |before| == |after| && forall i :: 0 <= i < |before| ==> after[i].completion == before[i].completion
    ensures Conserved(after, s) == Conserved(before, s)
  {
    CompletionSame(before, after, |before|, Pending);
    CompletionSame(before, after, |before|, Completed);
    CompletionSame(before, after, |before|, Failed);
    CompletionSame(before, after, |before|, Discarded);
  }

  // ----- the invariant of the ledger, on values -----

  ghost predicate Right(events: seq<Event>, generations: seq<Generation>, recorded: seq<Option<Decision>>,
                        s: Snapshot, generation: nat, nextOrdinal: nat) {
    && Indexed(events, generations)
    && Settled(events, recorded)
    && ProvisionalRight(recorded, s.rejections)
    && CountersRight(events, generations, s)
    && IssuedHere(events, generation, nextOrdinal)
  }

  lemma IssuedNone(generation: nat, nextOrdinal: nat)
    requires generation != 0
    ensures IssuedHere([], generation, nextOrdinal)
  {
    assert Ordered([]);
  }

  lemma NothingRecorded()
    ensures Indexed([], []) && Settled([], []) && CountersRight([], [], EMPTY_SNAPSHOT) && Conserved([], EMPTY_SNAPSHOT)
  {
  }

  lemma NothingRejected()
    ensures ProvisionalRight([], EMPTY_SNAPSHOT.rejections)
  {
  }

  lemma RightEmpty(generation: nat, nextOrdinal: nat)
    requires generation != 0
    ensures Right([], [], [], EMPTY_SNAPSHOT, generation, nextOrdinal) && Conserved([], EMPTY_SNAPSHOT)
  {
    hide Indexed, Settled, CountersRight, ProvisionalRight, IssuedHere, Conserved;
    IssuedNone(generation, nextOrdinal);
    NothingRecorded();
    NothingRejected();
  }

  lemma RightIssued(events: seq<Event>, generations: seq<Generation>, recorded: seq<Option<Decision>>,
                    s: Snapshot, generation: nat, nextOrdinal: nat)
    requires Right(events, generations, recorded, s, generation, nextOrdinal)
    ensures IssuedHere(events, generation, nextOrdinal) && AtMost(s.tally, ExactTally(events)) && s.tally.pairs == s.tally.calls
  {
    hide Indexed, Settled, ProvisionalRight, IssuedHere, ExactTally;
  }

  lemma RightIndexed(events: seq<Event>, generations: seq<Generation>, recorded: seq<Option<Decision>>,
                     s: Snapshot, generation: nat, nextOrdinal: nat)
    requires Right(events, generations, recorded, s, generation, nextOrdinal)
    ensures Indexed(events, generations)
  {
    hide Indexed, Settled, ProvisionalRight, CountersRight, IssuedHere;
  }

  lemma OneIndexed(events: seq<Event>, generations: seq<Generation>, k: nat)
    requires Indexed(events, generations) && k < |generations|
    ensures MarksRight(events, generations[k])
  {
  }

  lemma RightPrevious(events: seq<Event>, generations: seq<Generation>, recorded: seq<Option<Decision>>,
                      s: Snapshot, generation: nat, nextOrdinal: nat, e: Event)
    requires Right(events, generations, recorded, s, generation, nextOrdinal)
    ensures
      var g := MarksBefore(generations, e, |events|);
      PreviousIndex(events, |events|, e.identity)
        == if g.mutationCount != 0 then g.lastEvent else LastWithResource(events, |events|, e.identity.resource)
  {
    hide Indexed, Settled, ProvisionalRight, CountersRight, IssuedHere;
    PreviousByMarks(events, generations, e);
  }

  /** Snapshot fields the invariant does not speak of may change freely. */
  lemma RightOtherCounters(events: seq<Event>, generations: seq<Generation>, recorded: seq<Option<Decision>>,
                           s: Snapshot, t: Snapshot, generation: nat, o: nat, later: nat)
    requires Right(events, generations, recorded, s, generation, o) && o <= later
    requires t.mutationCalls == s.mutationCalls && t.mutationBytes == s.mutationBytes
    requires t.firstUseGpu == s.firstUseGpu && t.firstUseCpu == s.firstUseCpu && t.tally == s.tally
    requires t.rejections == s.rejections || t.rejections == s.rejections + multiset{Capacity}
          || t.rejections == s.rejections + multiset{Invalid}
    ensures Right(events, generations, recorded, t, generation, later)
  {
    ProvisionalKeeps(recorded, s.rejections, t.rejections);
    IssuedLater(events, generation, o, later);
    hide Indexed, Settled, ProvisionalRight, IssuedHere, ExactTally;
  }

  lemma ConservedOther(events: seq<Event>, s: Snapshot, t: Snapshot)
    requires t.pending == s.pending && t.completed == s.completed && t.failed == s.failed && t.discarded == s.discarded
    ensures Conserved(events, t) == Conserved(events, s)
  {
  }

  lemma CountersAged(before: seq<Event>, after: seq<Event>, generations: seq<Generation>, s: Snapshot)
    requires AgedHistory(before, after) && CountersRight(before, generations, s)
    ensures CountersRight(after, generations, s)
  {
    SumBytesAged(before, after, |before|);
    ExactTallyAged(before, after);
    hide ExactTally;
  }

  lemma IssuedAged(before: seq<Event>, after: seq<Event>, generation: nat, nextOrdinal: nat)
    requires AgedHistory(before, after) && IssuedHere(before, generation, nextOrdinal)
    ensures IssuedHere(after, generation, nextOrdinal)
  {
    assert forall i :: 0 <= i < |before| ==> Aged(before[i], after[i]);
  }

  /** Everything the invariant says of the history survives aging. */
  lemma RightAged(before: seq<Event>, after: seq<Event>, generations: seq<Generation>, recorded: seq<Option<Decision>>,
                  s: Snapshot, generation: nat, nextOrdinal: nat)
    requires AgedHistory(before, after) && Right(before, generations, recorded, s, generation, nextOrdinal)
    ensures Right(after, generations, recorded, s, generation, nextOrdinal)
  {
    IndexedAged(before, after, generations);
    SettledAged(before, after, recorded);
    CountersAged(before, after, generations, s);
    IssuedAged(before, after, generation, nextOrdinal);
    hide Indexed, Settled, ProvisionalRight, CountersRight, IssuedHere, AgedHistory;
  }

  /** Barrier and use marks of the generations may change, uses with their counter. */
  lemma RightMarks(events: seq<Event>, before: seq<Generation>, after: seq<Generation>, recorded: seq<Option<Decision>>,
                   s: Snapshot, t: Snapshot, generation: nat, nextOrdinal: nat)
    requires Right(events, before, recorded, s, generation, nextOrdinal) && |before| == |after|
    requires forall i :: 0 <= i < |before| ==> SameMarks(before[i], after[i])
    requires t.mutationCalls == s.mutationCalls && t.mutationBytes == s.mutationBytes && t.tally == s.tally
    requires t.rejections == s.rejections
    requires t.firstUseGpu + t.firstUseCpu + UsedCount(before) == s.firstUseGpu + s.firstUseCpu + UsedCount(after)
    ensures Right(events, after, recorded, t, generation, nextOrdinal)
  {
    IndexedSameMarks(events, before, after);
    hide Indexed, Settled, ProvisionalRight, IssuedHere, ExactTally;
  }

  lemma RightTally(events: seq<Event>, generations: seq<Generation>, recorded: seq<Option<Decision>>,
                   s: Snapshot, final: multiset<RejectionReason>, generation: nat, nextOrdinal: nat)
    requires Right(events, generations, recorded, s, generation, nextOrdinal)
    ensures AtMost(s.tally, ExactTally(events))
    ensures Right(events, generations, recorded, s.(tally := ExactTally(events), finalRejections := final), generation, nextOrdinal)
  {
    hide Indexed, Settled, ProvisionalRight, IssuedHere;
  }

  // ----- recomputation, generation by generation -----

  function KeyTally(events: seq<Event>, n: nat, keys: seq<SourceIdentity>): Tally
    requires n <= |events|
  {
    Tally(KeyTotal(events, n, keys, OneCall), KeyTotal(events, n, keys, UnionBytes), KeyTotal(events, n, keys, OverlapBytes),
          KeyTotal(events, n, keys, OneCall), KeyTotal(events, n, keys, SavedBytes), KeyTotal(events, n, keys, SavedNs))
  }

  function Plus(s: Tally, t: Tally): Tally {
    Tally(s.pairs + t.pairs, s.unionBytes + t.unionBytes, s.overlapBytes + t.overlapBytes,
          s.calls + t.calls, s.bytes + t.bytes, s.cpuNs + t.cpuNs)
  }

  lemma KeysNone(events: seq<Event>)
    ensures KeyTally(events, |events|, []) == EMPTY_TALLY
  {
    KeyTotalNone(events, |events|, OneCall);
    KeyTotalNone(events, |events|, UnionBytes);
    KeyTotalNone(events, |events|, OverlapBytes);
    KeyTotalNone(events, |events|, SavedBytes);
    KeyTotalNone(events, |events|, SavedNs);
  }

  lemma KeysSnoc(events: seq<Event>, generations: seq<Generation>, k: nat)
    requires Indexed(events, generations) && k < |generations|
    ensures KeyTally(events, |events|, Keys(generations)[..k + 1])
         == Plus(KeyTally(events, |events|, Keys(generations)[..k]), KeyTally(events, |events|, [generations[k].key]))
  {
    hide KeyTotal;
    KeysDistinct(events, generations, k);
    hide Indexed, Keys;
    var keys, key, n := Keys(generations)[..k], generations[k].key, |events|;
    KeyTotalSnoc(events, n, keys, key, OneCall);
    KeyTotalSnoc(events, n, keys, key, UnionBytes);
    KeyTotalSnoc(events, n, keys, key, OverlapBytes);
    KeyTotalSnoc(events, n, keys, key, SavedBytes);
    KeyTotalSnoc(events, n, keys, key, SavedNs);
  }

  lemma KeysDistinct(events: seq<Event>, generations: seq<Generation>, k: nat)
    requires Indexed(events, generations) && k < |generations|
    ensures Keys(generations)[..k + 1] == Keys(generations)[..k] + [generations[k].key]
    ensures forall i :: 0 <= i < k ==> !SameResourceGeneration(Keys(generations)[..k][i], generations[k].key)
  {
    hide MarksRight, Listed, SameResourceGeneration;
  }

  lemma KeysAll(events: seq<Event>, generations: seq<Generation>)
    requires Indexed(events, generations)
    ensures KeyTally(events, |events|, Keys(generations)) == ExactTally(events)
  {
    var keys, n := Keys(generations), |events|;
    KeyTotalAll(events, n, keys, OneCall);
    KeyTotalAll(events, n, keys, UnionBytes);
    KeyTotalAll(events, n, keys, OverlapBytes);
    KeyTotalAll(events, n, keys, SavedBytes);
    KeyTotalAll(events, n, keys, SavedNs);
  }

  /** Nothing of a key is counted before its first event. */
  lemma {:induction false} SkipBefore(events: seq<Event>, key: SourceIdentity, n: nat)
    requires n <= |events| && forall j :: 0 <= j < n ==> !HasKey(events[j], key)
    ensures KeyTally(events, n, [key]) == EMPTY_TALLY
    ensures LastWithKey(events, n, key) == -1
  {
    if n > 0 {
      SkipBefore(events, key, n - 1);
      NotListed(events[n - 1], key);
    }
  }

  lemma NotListed(e: Event, key: SourceIdentity)
    ensures Listed(e, [key]) <==> HasKey(e, key)
  {
    assert [key][0] == key;
  }

  lemma CandidateRanges(p: Event, c: Event, barrier: bool)
    ensures Classify(p, c, barrier) == Candidate ==>
      !(p.disposition == NoOverwrite && c.disposition == NoOverwrite && RangesOverlap(p, c))
  {
  }

  lemma KeyStep(events: seq<Event>, i: nat, key: SourceIdentity)
    requires i < |events|
    ensures !HasKey(events[i], key) ==> KeyTally(events, i + 1, [key]) == KeyTally(events, i, [key])
    ensures
      var k := LastWithKey(events, i, key);
      HasKey(events[i], key) ==>
        KeyTally(events, i + 1, [key]) ==
          if k >= 0 && Classify(events[k], events[i], events[i].barrierBefore) == Candidate then
            AddPair(KeyTally(events, i, [key]), events[k], events[i])
          else KeyTally(events, i, [key])
  {
    NotListed(events[i], key);
    if HasKey(events[i], key) {
      LastWithKeySame(events, i, key, events[i].identity);
      OnlyOwnGeneration(events, i);
    }
    hide Classify;
  }

  /** An event whose predecessor is of another generation is no candidate. */
  lemma OnlyOwnGeneration(events: seq<Event>, i: nat)
    requires i < |events|
    ensures LastWithKey(events, i, events[i].identity) < 0 ==> Verdict(events, i) != Some(Candidate)
  {
  }

  // ----- one recorded mutation, on values -----

  /** Index of the generation with this key, or the number of generations. */
  function FindKey(generations: seq<Generation>, i: nat, id: SourceIdentity): (k: nat)
    requires i <= |generations|
    ensures i <= k <= |generations|
    ensures k < |generations| ==> SameResourceGeneration(generations[k].key, id)
    ensures forall j :: i <= j < k ==> !SameResourceGeneration(generations[j].key, id)
    decreases |generations| - i
  {
    if i == |generations| || SameResourceGeneration(generations[i].key, id) then i
    else FindKey(generations, i + 1, id)
  }

  /** The marks of the event's generation before it is recorded. */
  function MarksBefore(generations: seq<Generation>, e: Event, n: nat): Generation {
    var k := FindKey(generations, 0, e.identity);
    if k < |generations| then generations[k]
    else FreshGeneration(e, n)
  }

  /** The event as the history keeps it: barred if its generation was, since the event before. */
  function StoredEvent(generations: seq<Generation>, e: Event, n: nat): Event {
    e.(barrierBefore := MarksBefore(generations, e, n).barrierSinceLast)
  }

  function MarksAfter(generations: seq<Generation>, e: Event, n: nat): Generation {
    var g := MarksBefore(generations, e, n);
    Extended(g, n, e.disposition)
  }

  function GenerationsAfter(generations: seq<Generation>, e: Event, n: nat): seq<Generation> {
    var k := FindKey(generations, 0, e.identity);
    if k < |generations| then generations[k := MarksAfter(generations, e, n)]
    else generations + [MarksAfter(generations, e, n)]
  }

  /** The provisional counters: the new event's verdict adds its pair or its rejection. */
  function SnapshotAfter(s: Snapshot, events: seq<Event>, stored: Event): Snapshot {
    var v := Verdict(events + [stored], |events|);
    Counted(s, stored).(
      tally := if v == Some(Candidate) then AddPair(s.tally, events[PreviousIndex(events, |events|, stored.identity)], stored) else s.tally,
      rejections := if v.Some? && v.value != Candidate then s.rejections + multiset{ReasonOf(v.value)} else s.rejections)
  }

  /** What the comparison at record time may do to the counters. */
  predicate Compared(s: Snapshot, previous: Option<Event>, e: Event, barrier: bool, tally: Tally, rejections: multiset<RejectionReason>) {
    match previous
    case None => tally == s.tally && rejections == s.rejections
    case Some(p) =>
      var d := Classify(p, e, barrier);
      && tally == (if d == Candidate then AddPair(s.tally, p, e) else s.tally)
      && rejections == (if d == Candidate then s.rejections else s.rejections + multiset{ReasonOf(d)})
  }

  lemma CompareAfter(events: seq<Event>, s: Snapshot, observed: Event, stored: Event, previous: int,
                     tally: Tally, rejections: multiset<RejectionReason>)
    requires stored == observed.(barrierBefore := stored.barrierBefore)
    requires previous == PreviousIndex(events, |events|, observed.identity)
    requires Compared(s, if previous >= 0 then Some(events[previous]) else None, observed, stored.barrierBefore, tally, rejections)
    ensures Counted(s, stored).(tally := tally, rejections := rejections) == SnapshotAfter(s, events, stored)
  {
    VerdictOfNew(events, stored, observed, previous);
    hide Verdict, Classify, ReasonOf, Counted;
  }

  /** A mutation keeps the whole invariant, and the dispositions conserved. */
  lemma RightRecorded(events: seq<Event>, generations: seq<Generation>, recorded: seq<Option<Decision>>,
                      s: Snapshot, generation: nat, nextOrdinal: nat, e: Event)
    requires nextOrdinal > 0 && Right(events, generations, recorded, s, generation, nextOrdinal)
    requires IssuedHere(events, generation, nextOrdinal - 1)
    requires e.ordering.IsValid() && e.ordering.generation == generation && e.ordering.ordinal == nextOrdinal - 1
    ensures
      var stored := StoredEvent(generations, e, |events|);
      && Right(events + [stored], GenerationsAfter(generations, e, |events|),
               recorded + [Verdict(events + [stored], |events|)], SnapshotAfter(s, events, stored), generation, nextOrdinal)
      && (Conserved(events, s) ==> Conserved(events + [stored], SnapshotAfter(s, events, stored)))
  {
    var n, stored := |events|, StoredEvent(generations, e, |events|);
    var after := SnapshotAfter(s, events, stored);
    TallyAfter(events, s, stored);
    GenerationsRecorded(events, generations, e);
    SettledSnoc(events, recorded, stored);
    ProvisionalSnoc(recorded, s.rejections, after.rejections, Verdict(events + [stored], n));
    IssuedSnoc(events, stored, generation, nextOrdinal);
    CountersSnoc(events, stored, generations, GenerationsAfter(generations, e, n), s, after.tally);
    CountersIgnore(events + [stored], GenerationsAfter(generations, e, n), Counted(s, stored).(tally := after.tally), after);
    ConservedOther(events + [stored], Counted(s, stored).(tally := after.tally), after);
    hide Indexed, Settled, ProvisionalRight, CountersRight, IssuedHere, Conserved, Verdict, AddPair, ExactTally, UsedCount,
      GenerationsAfter, StoredEvent;
  }

  lemma CountersIgnore(events: seq<Event>, generations: seq<Generation>, s: Snapshot, t: Snapshot)
    requires CountersRight(events, generations, s)
    requires t == s.(rejections := t.rejections)
    ensures CountersRight(events, generations, t)
  {
  }

  lemma TallyAfter(events: seq<Event>, s: Snapshot, stored: Event)
    requires AtMost(s.tally, ExactTally(events)) && s.tally.pairs == s.tally.calls
    ensures AtMost(SnapshotAfter(s, events, stored).tally, ExactTally(events + [stored]))
    ensures SnapshotAfter(s, events, stored).tally.pairs == SnapshotAfter(s, events, stored).tally.calls
  {
    var previous := PreviousIndex(events, |events|, stored.identity);
    TallySnoc(events, stored, stored, previous, s.tally);
    VerdictOfNew(events, stored, stored, previous);
    hide Verdict, ExactTally, Classify;
  }

  lemma GenerationsRecorded(events: seq<Event>, generations: seq<Generation>, e: Event)
    requires Indexed(events, generations)
    ensures Indexed(events + [StoredEvent(generations, e, |events|)], GenerationsAfter(generations, e, |events|))
    ensures UsedCount(GenerationsAfter(generations, e, |events|)) == UsedCount(generations)
  {
    hide Indexed, UsedCount;
    var k, stored, next := FindKey(generations, 0, e.identity), StoredEvent(generations, e, |events|), MarksAfter(generations, e, |events|);
    if k < |generations| {
      IndexedSnocOld(events, generations, stored, k, next);
      UsedUpdate(generations, k, next);
    } else {
      IndexedSnocNew(events, generations, stored, next);
      UsedSnoc(generations, next);
    }
  }

  /** The index names the event a new one is compared with. */
  lemma PreviousByMarks(events: seq<Event>, generations: seq<Generation>, e: Event)
    requires Indexed(events, generations)
    ensures
      var g := MarksBefore(generations, e, |events|);
      PreviousIndex(events, |events|, e.identity)
        == if g.mutationCount != 0 then g.lastEvent else LastWithResource(events, |events|, e.identity.resource)
  {
    var k := FindKey(generations, 0, e.identity);
    if k < |generations| {
      assert MarksRight(events, generations[k]);
      LastWithKeySame(events, |events|, generations[k].key, e.identity);
    } else {
      NoKeyYet(events, generations, e.identity);
    }
  }

  // ----- uses and barriers, on values -----

  /** The events of one generation marked with its first use. */
  function UseNoted(events: seq<Event>, id: SourceIdentity, distance: nat, kind: ObserverKind): (r: seq<Event>)
    ensures |r| == |events|
    ensures AgedHistory(events, r)
    ensures forall i :: 0 <= i < |r| ==> r[i].completion == events[i].completion
    ensures forall i :: 0 <= i < |r| ==>
      r[i] == if HasKey(events[i], id) then events[i].(firstUseDistance := distance, firstUseKind := kind) else events[i]
  {
    seq(|events|, i requires 0 <= i < |events| =>
      if HasKey(events[i], id) then events[i].(firstUseDistance := distance, firstUseKind := kind) else events[i])
  }

  function UseDistance(g: Generation, id: SourceIdentity): nat {
    if id.sourceOrdinal >= g.firstOrdinal then id.sourceOrdinal - g.firstOrdinal else 0
  }

  function UseCounted(s: Snapshot, distance: nat, kind: ObserverKind): Snapshot {
    s.(firstUseDistanceTotal := s.firstUseDistanceTotal + distance,
       firstUseDistanceMax := if distance > s.firstUseDistanceMax then distance else s.firstUseDistanceMax,
       firstUseGpu := s.firstUseGpu + (if kind == GpuUse then 1 else 0),
       firstUseCpu := s.firstUseCpu + (if kind == GpuUse then 0 else 1))
  }

  // ----- closing a window -----

  function Finalized(g: Generation): Generation {
    if g.mutationCount == 0 then g else g.(finalized := true)
  }

  function AllFinalized(generations: seq<Generation>): (r: seq<Generation>)
    ensures |r| == |generations| && forall i :: 0 <= i < |r| ==> r[i] == Finalized(generations[i])
  {
    seq(|generations|, i requires 0 <= i < |generations| => Finalized(generations[i]))
  }

  /** How many of the first n generations a closing finds unused that no earlier closing has seen. */
  function NewlyUnused(generations: seq<Generation>, n: nat): nat
    requires n <= |generations|
  {
    if n == 0 then 0
    else
      var g := generations[n - 1];
      NewlyUnused(generations, n - 1) + if g.mutationCount != 0 && !g.finalized && !g.used then 1 else 0
  }

  /** After a closing there are none. */
  lemma {:induction false} NothingNewlyUnused(generations: seq<Generation>, n: nat)
    requires n <= |generations|
    ensures NewlyUnused(AllFinalized(generations), n) == 0
  {
    if n > 0 {
      NothingNewlyUnused(generations, n - 1);
    }
  }

  /** Of the first n generations of the same resource that began before g, the one that began last. */
  function Prior(generations: seq<Generation>, n: nat, g: Generation): (p: Option<nat>)
    requires n <= |generations|
    ensures p.Some? ==> p.value < n
  {
    if n == 0 then None
    else
      var p, c := Prior(generations, n - 1, g), generations[n - 1];
      if c.key.resource != g.key.resource || c.firstEvent >= g.firstEvent then p
      else if p == None || c.firstEvent > generations[p.value].firstEvent then Some(n - 1)
      else p
  }

  lemma {:induction false} PriorIsLatest(generations: seq<Generation>, n: nat, g: Generation, k: nat)
    requires n <= |generations|
    ensures
      var p := Prior(generations, n, g);
      && (p.Some? ==>
            generations[p.value].key.resource == g.key.resource && generations[p.value].firstEvent < g.firstEvent)
      && (k < n && generations[k].key.resource == g.key.resource && generations[k].firstEvent < g.firstEvent ==>
            p.Some? && generations[k].firstEvent <= generations[p.value].firstEvent)
  {
    if n > 0 {
      PriorIsLatest(generations, n - 1, g, k);
    }
  }

  /** A generation begun by a discard that follows one ended by a discard, neither ever read. */
  predicate DeadChain(generations: seq<Generation>, k: nat)
    requires k < |generations|
  {
    var current, p := generations[k], Prior(generations, |generations|, generations[k]);
    && p.Some? && generations[p.value].lastDisposition == Discard && current.firstDisposition == Discard
    && !generations[p.value].used && !current.used
  }

  function DeadChains(generations: seq<Generation>, n: nat): nat
    requires n <= |generations|
  {
    if n == 0 then 0 else DeadChains(generations, n - 1) + if DeadChain(generations, n - 1) then 1 else 0
  }

  lemma {:induction false} PriorFinalized(generations: seq<Generation>, n: nat, g: Generation)
    requires n <= |generations|
    ensures Prior(AllFinalized(generations), n, Finalized(g)) == Prior(generations, n, g)
  {
    hide AllFinalized;
    if n > 0 {
      PriorFinalized(generations, n - 1, g);
    }
  }

  /** Being finalized makes no difference to them. */
  lemma {:induction false} ChainsFinalized(generations: seq<Generation>, n: nat)
    requires n <= |generations|
    ensures DeadChains(AllFinalized(generations), n) == DeadChains(generations, n)
  {
    if n > 0 {
      ChainsFinalized(generations, n - 1);
      ChainFinalized(generations, n - 1);
      hide DeadChain, AllFinalized;
    }
  }

  lemma ChainFinalized(generations: seq<Generation>, k: nat)
    requires k < |generations|
    ensures DeadChain(AllFinalized(generations), k) == DeadChain(generations, k)
  {
    PriorFinalized(generations, |generations|, generations[k]);
    hide Prior, AllFinalized;
  }

  /** The counters a closing leaves. */
  function ClosedSnapshot(s: Snapshot, events: seq<Event>, generations: seq<Generation>, counted: bool): Snapshot {
    s.(tally := ExactTally(events), finalRejections := FinalRejections(events, |events|),
       zeroUse := s.zeroUse + NewlyUnused(generations, |generations|),
       deadChains := s.deadChains + if counted then 0 else DeadChains(generations, |generations|))
  }

  lemma RightClosed(events: seq<Event>, generations: seq<Generation>, recorded: seq<Option<Decision>>,
                    s: Snapshot, counted: bool, generation: nat, nextOrdinal: nat)
    requires Right(events, generations, recorded, s, generation, nextOrdinal)
    ensures AtMost(s.tally, ExactTally(events)) && Ordered(events)
    ensures Right(events, AllFinalized(generations), recorded, ClosedSnapshot(s, events, generations, counted), generation, nextOrdinal)
  {
    var exact := s.(tally := ExactTally(events), finalRejections := FinalRejections(events, |events|));
    hide ExactTally, FinalRejections, Indexed, Settled, ProvisionalRight, NewlyUnused, DeadChains;
    RightTally(events, generations, recorded, s, FinalRejections(events, |events|), generation, nextOrdinal);
    UsedSame(generations, AllFinalized(generations));
    hide CountersRight, Right, UsedCount;
    RightMarks(events, generations, AllFinalized(generations), recorded, exact,
               ClosedSnapshot(s, events, generations, counted), generation, nextOrdinal);
    RightOrdered(events, generations, recorded, s, generation, nextOrdinal);
  }

  lemma RightOrdered(events: seq<Event>, generations: seq<Generation>, recorded: seq<Option<Decision>>,
                     s: Snapshot, generation: nat, nextOrdinal: nat)
    requires Right(events, generations, recorded, s, generation, nextOrdinal)
    ensures Ordered(events)
  {
    hide Indexed, Settled, ProvisionalRight, CountersRight;
  }

  // ----- what the closing counters count -----

  /** The counter under which each verdict is reported. */
  predicate Reported(d: Decision, r: RejectionReason) {
    || (d == OtherResource && r == DifferentResource) || (d == OtherGeneration && r == DifferentGeneration)
    || (d == OtherTape && r == RenderTape) || (d == WrongOrder && r == SourceOrder)
    || (d == Barred && r == Barrier) || (d == NotSuccessful && r == Failure)
    || (d == NotCompleted && r == CompletionReason) || (d == Discarding && r == DispositionReason)
    || (d == Overlapping && r == RangeOverlap)
  }

  /** Each final rejection counter counts the events with the verdict of that name. */
  lemma RejectionsByVerdict(events: seq<Event>, d: Decision, r: RejectionReason)
    requires Reported(d, r)
    ensures FinalRejections(events, |events|)[r] == Count(events, |events|, Some(d))
  {
    FinalCount(events, |events|, d);
  }

  /** Never read, and not closed before. */
  predicate NeverRead(g: Generation) {
    g.mutationCount != 0 && !g.finalized && !g.used
  }

  /** The generations a closing counts as never used: those below n that were never read and not closed before. */
  ghost function UnreadBelow(generations: seq<Generation>, n: nat): (s: set<nat>)
    requires n <= |generations|
    ensures forall i: nat :: i in s <==> i < n && NeverRead(generations[i])
    ensures |s| == NewlyUnused(generations, n)
  {
    if n == 0 then {}
    else
      var before := UnreadBelow(generations, n - 1);
      if NeverRead(generations[n - 1]) then before + {n - 1} else before
  }

  /** The generations a closing counts as dead chains. */
  ghost function ChainsBelow(generations: seq<Generation>, n: nat): set<nat>
    requires n <= |generations|
  {
    set k: nat | k < n && DeadChain(generations, k)
  }

  lemma {:induction false} ChainsAreCounted(generations: seq<Generation>, n: nat)
    requires n <= |generations|
    ensures |ChainsBelow(generations, n)| == DeadChains(generations, n)
  {
    hide DeadChain;
    if n > 0 {
      ChainsAreCounted(generations, n - 1);
      var before := ChainsBelow(generations, n - 1);
      assert ChainsBelow(generations, n) == if DeadChain(generations, n - 1) then before + {n - 1} else before;
    } else {
      assert ChainsBelow(generations, n) == {};
    }
  }

  /** g is of the same resource as h and began before it. */
  predicate Begins(g: Generation, h: Generation) {
    g.key.resource == h.key.resource && g.firstEvent < h.firstEvent
  }

  /** Generation p of the resource is the latest that began before generation k. */
  ghost predicate Before(generations: seq<Generation>, p: nat, k: nat)
    requires k < |generations|
  {
    && p < |generations| && Begins(generations[p], generations[k])
    && forall q: nat :: q < |generations| && Begins(generations[q], generations[k]) ==>
         generations[q].firstEvent <= generations[p].firstEvent
  }

  /**
    A dead chain, from the events: the generation begins with a discard, the one of its
    resource before it ends with one, and neither was ever read.
   */
  lemma DeadChainExactly(events: seq<Event>, generations: seq<Generation>, k: nat)
    requires Indexed(events, generations) && k < |generations|
    ensures generations[k].firstEvent < |events|
    ensures DeadChain(generations, k) <==>
      && events[generations[k].firstEvent].disposition == Discard && !generations[k].used
      && exists p: nat :: Before(generations, p, k) && !generations[p].used
           && generations[p].lastEvent < |events| && events[generations[p].lastEvent].disposition == Discard
  {
    hide Prior, Listed, Keys, LastWithKey;
    assert forall i :: 0 <= i < |generations| ==> MarksRight(events, generations[i]);
    var prior := Prior(generations, |generations|, generations[k]);
    forall q: nat | q < |generations| && Begins(generations[q], generations[k])
      ensures prior.Some? && generations[q].firstEvent <= generations[prior.value].firstEvent
    {
      PriorIsLatest(generations, |generations|, generations[k], q);
    }
    PriorIsLatest(generations, |generations|, generations[k], 0);
    if prior.Some? {
      assert Before(generations, prior.value, k);
    }
    forall p: nat | Before(generations, p, k) ensures prior == Some(p) {
      OneBegins(events, generations, p, prior.value);
    }
  }

  /** No two generations begin with the same event. */
  lemma OneBegins(events: seq<Event>, generations: seq<Generation>, p: nat, q: nat)
    requires Indexed(events, generations) && p < |generations| && q < |generations|
    requires generations[p].firstEvent == generations[q].firstEvent
    ensures p == q
  {
    hide Listed, Keys, LastWithKey;
    assert MarksRight(events, generations[p]) && MarksRight(events, generations[q]);
    assert SameResourceGeneration(generations[p].key, generations[q].key)
        && SameResourceGeneration(generations[q].key, generations[p].key);
  }
}
