/**
  The observation ledger: it records mutations, settlements, uses and barriers,
  keeps provisional counters as it goes, and recomputes exact ones when a window
  closes. Every public method is one step under the ledger's mutex.
 */
module CompositionObserver {
  import opened MutationIdentity
  import opened Composition
  import opened Options
  import opened ObserverHistory
  import Runs = ObserverRuns

  class Observer {
    const maxGenerations: nat
    const maxEvents: nat
    const policy: OrderingPolicy
    var events: seq<Event>
    var generations: seq<Generation>
    var snapshot: Snapshot
    var chainsCounted: bool
    /** What each event's verdict was when it was recorded. */
    ghost var recorded: seq<Option<Decision>>

    ghost predicate Valid()
      reads this, policy
    {
      && policy.Valid() && |events| <= maxEvents && |generations| <= maxGenerations
      && Right(events, generations, recorded, snapshot, policy.generation, policy.nextOrdinal)
    }

    /** The ledger as runs of calls see it. */
    ghost function Log(): Runs.Ledger
      reads this, policy
    {
      Runs.Ledger(events, generations, policy.generation, policy.nextOrdinal, policy.valid)
    }

    ghost function Bounds(): Runs.Limits {
      Runs.Limits(maxEvents, maxGenerations)
    }

    constructor (maxGenerations: nat, maxEvents: nat)
      ensures Log() == Runs.NOTHING_OBSERVED
      ensures Valid() && fresh(policy) && events == [] && Conserved(events, snapshot)
    {
      hide Right, Conserved;
      RightEmpty(1, 1);
      this.maxGenerations, this.maxEvents := maxGenerations, maxEvents;
      policy := new OrderingPolicy();
      events, generations, snapshot, recorded, chainsCounted := [], [], EMPTY_SNAPSHOT, [], false;
    }

    method FindGeneration(id: SourceIdentity) returns (i: nat)
      ensures i == FindKey(generations, 0, id)
    {
      i := 0;
      while i < |generations|
        invariant i <= |generations|
        invariant FindKey(generations, 0, id) == FindKey(generations, i, id)
      {
        if SameResourceGeneration(generations[i].key, id) {
          return;
        }
        i := i + 1;
      }
    }

    method LatestResourceEvent(resource: nat) returns (k: int)
      ensures k == LastWithResource(events, |events|, resource)
    {
      k := |events| - 1;
      while k >= 0
        invariant -1 <= k < |events|
        invariant LastWithResource(events, |events|, resource) == LastWithResource(events, k + 1, resource)
      {
        if events[k].identity.resource == resource {
          return;
        }
        k := k - 1;
      }
    }

    /** Notes an unusable observation. */
    method Drop(capacity: bool)
      requires Valid()
      modifies this`snapshot
      ensures Valid() && snapshot == Dropped(old(snapshot), capacity)
      ensures Conserved(events, snapshot) == old(Conserved(events, snapshot))
    {
      hide Right, Conserved;
      RightOtherCounters(events, generations, recorded, snapshot, Dropped(snapshot, capacity),
                         policy.generation, policy.nextOrdinal, policy.nextOrdinal);
      ConservedOther(events, snapshot, Dropped(snapshot, capacity));
      snapshot := Dropped(snapshot, capacity);
    }

    /** An ordering identity for an event or a use; the invariant does not mind one more being spent. */
    method IssueOrdering(source: SourceKind) returns (id: OrderingIdentity)
      requires Valid()
      modifies policy
      ensures Valid()
      ensures policy.generation == old(policy.generation) && policy.valid == old(policy.valid)
      ensures id.IsValid() <==> policy.valid && old(policy.nextOrdinal) < U64_MAX
      ensures id.IsValid() ==>
        && id == OrderingIdentity(policy.generation, old(policy.nextOrdinal), source)
        && policy.nextOrdinal == old(policy.nextOrdinal) + 1
        && IssuedHere(events, policy.generation, old(policy.nextOrdinal))
      ensures !id.IsValid() ==> policy.nextOrdinal == old(policy.nextOrdinal)
    {
      hide Right, IssuedHere, ExactTally;
      RightIssued(events, generations, recorded, snapshot, policy.generation, policy.nextOrdinal);
      id := policy.Issue(source);
      if id.IsValid() {
        RightOtherCounters(events, generations, recorded, snapshot, snapshot,
                           policy.generation, old(policy.nextOrdinal), policy.nextOrdinal);
      }
    }

    /**
      Records one mutation. It is refused, and counted as dropped, if it names no
      resource, its range overflows, no ordering identity is left, or a table is full.
     */
    method RecordMutation(event: Event) returns (ok: bool)
      requires Valid()
      modifies this, policy
      ensures Valid()
      ensures ok <==>
        && event.identity.IsValid() && event.End() <= U64_MAX
        && old(policy.valid && policy.nextOrdinal < U64_MAX)
        && |old(events)| != maxEvents
        && (old(|generations|) != maxGenerations || old(FindKey(generations, 0, event.identity) < |generations|))
      ensures ok ==>
        var observed := event.(ordering := OrderingIdentity(old(policy.generation), old(policy.nextOrdinal), event.sourceKind));
        AppendedHere(old(events), old(generations), old(recorded), old(snapshot), observed)
      ensures !ok ==>
        && events == old(events) && generations == old(generations) && recorded == old(recorded)
        && snapshot == Dropped(old(snapshot),
             event.identity.IsValid() && event.End() <= U64_MAX && old(policy.valid && policy.nextOrdinal < U64_MAX))
      ensures !ok ==>
        var full := event.identity.IsValid() && event.End() <= U64_MAX && old(policy.valid && policy.nextOrdinal < U64_MAX);
        && snapshot.invalidOrDropped == old(snapshot.invalidOrDropped) + 1
        && snapshot.overflowEvents == old(snapshot.overflowEvents) + (if full then 1 else 0)
        && snapshot.rejections == old(snapshot.rejections) + (if full then multiset{Capacity} else multiset{})
      ensures Log() == Runs.Next(old(Log()), Bounds(), Runs.Record(event))
      ensures old(Conserved(events, snapshot)) ==> Conserved(events, snapshot)
    {
      hide Right, Conserved, IssuedHere;
      if !event.identity.IsValid() || event.byteOffset + event.byteSize > U64_MAX {
        Drop(false);
        return false;
      }
      var ordering := IssueOrdering(event.sourceKind);
      if !ordering.IsValid() {
        Drop(false);
        return false;
      }
      if |events| == maxEvents {
        Drop(true);
        return false;
      }
      var observed := event.(ordering := ordering);
      var gi := FindGeneration(observed.identity);
      if gi == |generations| && |generations| == maxGenerations {
        Drop(true);
        return false;
      }
      Append(observed);
      ok := true;
    }

    /** The ledger is what it was, with this event recorded. */
    ghost predicate AppendedHere(was: seq<Event>, gens: seq<Generation>, verdicts: seq<Option<Decision>>, s: Snapshot, observed: Event)
      reads this
    {
      var stored := StoredEvent(gens, observed, |was|);
      && events == was + [stored]
      && generations == GenerationsAfter(gens, observed, |was|)
      && recorded == verdicts + [Verdict(events, |was|)]
      && snapshot == SnapshotAfter(s, was, stored)
      && !chainsCounted
    }

    /** Appends an accepted event, after comparing it with the one before it. */
    method Append(observed: Event)
      requires Valid()
      requires observed.ordering.IsValid() && observed.ordering.generation == policy.generation
      requires observed.ordering.ordinal == policy.nextOrdinal - 1
      requires IssuedHere(events, policy.generation, policy.nextOrdinal - 1)
      requires |events| < maxEvents
      requires FindKey(generations, 0, observed.identity) < |generations| || |generations| < maxGenerations
      modifies this
      ensures Valid()
      ensures AppendedHere(old(events), old(generations), old(recorded), old(snapshot), observed)
      ensures old(Conserved(events, snapshot)) ==> Conserved(events, snapshot)
    {
      hide Right, Conserved, IssuedHere, ExactTally, Verdict, FindKey, SnapshotAfter;
      var n := |events|;
      var gi := FindGeneration(observed.identity);
      var g := if gi < |generations| then generations[gi]
               else FreshGeneration(observed, n);
      var stored := observed.(barrierBefore := g.barrierSinceLast);
      var next := g.(lastEvent := n, mutationCount := g.mutationCount + 1, barrierSinceLast := false,
                     lastDisposition := observed.disposition,
                     firstDisposition := if g.mutationCount == 0 then observed.disposition else g.firstDisposition);
      var after := if gi < |generations| then generations[gi := next] else generations + [next];
      assert g == MarksBefore(generations, observed, n) && stored == StoredEvent(generations, observed, n);
      assert after == GenerationsAfter(generations, observed, n);
      hide MarksBefore, StoredEvent, GenerationsAfter;
      RightRecorded(events, generations, recorded, snapshot, policy.generation, policy.nextOrdinal, observed);
      var compared := CompareWithPrevious(observed, g);
      recorded := recorded + [Verdict(events + [stored], n)];
      events := events + [stored];
      generations := after;
      snapshot := compared;
      chainsCounted := false;
    }

    /** The counters with this event recorded; g holds the marks of its generation before it. */
    method CompareWithPrevious(observed: Event, g: Generation) returns (counted: Snapshot)
      requires Valid() && g == MarksBefore(generations, observed, |events|)
      ensures counted == SnapshotAfter(snapshot, events, StoredEvent(generations, observed, |events|))
    {
      hide Right, PreviousIndex, Verdict, Classify, LastWithResource, SnapshotAfter, MarksBefore;
      var stored := observed.(barrierBefore := g.barrierSinceLast);
      RightPrevious(events, generations, recorded, snapshot, policy.generation, policy.nextOrdinal, observed);
      var previous: int;
      if g.mutationCount != 0 {
        previous := g.lastEvent;
      } else {
        previous := LatestResourceEvent(observed.identity.resource);
      }
      var tally, rejections := ComparePair(observed, previous, g.barrierSinceLast);
      CompareAfter(events, snapshot, observed, stored, previous, tally, rejections);
      counted := Counted(snapshot, stored).(tally := tally, rejections := rejections);
    }

    /** The provisional comparison with the event at `previous`, if there is one. */
    method ComparePair(observed: Event, previous: int, barrier: bool)
      returns (tally: Tally, rejections: multiset<RejectionReason>)
      requires -1 <= previous < |events|
      ensures Compared(snapshot, if previous >= 0 then Some(events[previous]) else None, observed, barrier, tally, rejections)
    {
      tally, rejections := snapshot.tally, snapshot.rejections;
      if previous >= 0 {
        var p := events[previous];
        var decision := Classify(p, observed, barrier);
        if decision == Candidate && p.successful && observed.successful
           && observed.completion == Completed && p.completion == Completed
           && p.disposition != Discard && observed.disposition != Discard
           && !(p.disposition == NoOverwrite && observed.disposition == NoOverwrite && RangesOverlap(p, observed)) {
          tally := AddPair(tally, p, observed);
        } else if decision != Candidate {
          rejections := rejections + multiset{ReasonOf(decision)};
        }
      }
    }

    /** The newest pending event with this exact identity takes the given disposition. */
    method SettleMutation(identity: SourceIdentity, disposition: Completion)
      requires Valid()
      modifies this`events, this`snapshot
      ensures Valid()
      ensures Log() == Runs.Next(old(Log()), Bounds(), Runs.Settle(identity, disposition))
      ensures AgedHistory(old(events), events)
      ensures
        var k := PendingIndex(old(events), |old(events)|, identity);
        if k < 0 then events == old(events) && snapshot == old(snapshot).(invalidOrDropped := old(snapshot).invalidOrDropped + 1)
        else events == old(events)[k := SettledEvent(old(events)[k], disposition)] && snapshot == SettledSnapshot(old(snapshot), disposition)
      ensures
        var k := PendingIndex(old(events), |old(events)|, identity);
        k >= 0 ==>
          && events[k].completion == disposition
          && (events[k].successful <==> old(events)[k].successful && disposition != Failed)
      ensures old(Conserved(events, snapshot)) ==>
        (Conserved(events, snapshot) <==> disposition != Pending || PendingIndex(old(events), |old(events)|, identity) < 0)
    {
      hide Right, Conserved, AgedHistory;
      var i := |events|;
      while i > 0
        invariant 0 <= i <= |events| && events == old(events) && snapshot == old(snapshot)
        invariant PendingIndex(events, |events|, identity) == PendingIndex(events, i, identity)
      {
        if IsPendingFor(events[i - 1], identity) {
          SettleAt(i - 1, disposition);
          return;
        }
        i := i - 1;
      }
      AgedReflexive(events);
      Drop(false);
    }

    method SettleAt(k: nat, disposition: Completion)
      requires Valid() && k < |events| && events[k].completion == Pending
      modifies this`events, this`snapshot
      ensures Valid()
      ensures AgedHistory(old(events), events)
      ensures events == old(events)[k := SettledEvent(old(events)[k], disposition)]
      ensures snapshot == SettledSnapshot(old(snapshot), disposition)
      ensures old(Conserved(events, snapshot)) ==> (Conserved(events, snapshot) <==> disposition != Pending)
    {
      hide Right, Conserved, AgedHistory;
      var settled := SettledEvent(events[k], disposition);
      AgedOne(events, k, settled);
      if Conserved(events, snapshot) {
        SettleConserves(events, k, snapshot, disposition);
      }
      RightAged(events, events[k := settled], generations, recorded, snapshot, policy.generation, policy.nextOrdinal);
      RightOtherCounters(events[k := settled], generations, recorded, snapshot, SettledSnapshot(snapshot, disposition),
                         policy.generation, policy.nextOrdinal, policy.nextOrdinal);
      events := events[k := settled];
      snapshot := SettledSnapshot(snapshot, disposition);
    }

    /** The first known reader of a generation closes it to composition and is counted once. */
    method ObserveUse(identity: SourceIdentity, kind: ObserverKind)
      requires Valid()
      modifies this, policy
      ensures Valid() && AgedHistory(old(events), events) && recorded == old(recorded)
      ensures Log() == Runs.Next(old(Log()), Bounds(), Runs.Use(identity, kind))
      ensures Conserved(events, snapshot) == old(Conserved(events, snapshot))
      ensures
        var k := old(FindKey(generations, 0, identity));
        if !identity.IsValid() || (k < old(|generations|) && !old(policy.valid && policy.nextOrdinal < U64_MAX)) then
          events == old(events) && generations == old(generations) && snapshot == Dropped(old(snapshot), false)
        else if k == old(|generations|) then
          events == old(events) && generations == old(generations) && snapshot == old(snapshot)
        else
          var g := old(generations)[k];
          && generations == old(generations)[k := g.(barrierSinceLast := true, used := true)]
          && snapshot == (if g.used then old(snapshot) else UseCounted(old(snapshot), UseDistance(g, identity), kind))
          && events == (if g.used then old(events) else UseNoted(old(events), identity, UseDistance(g, identity), kind))
      ensures
        var k := old(FindKey(generations, 0, identity));
        generations != old(generations) && k < old(|generations|) && !old(generations[k].used) ==>
          var first := old(generations[k].firstOrdinal);
          var distance := if identity.sourceOrdinal < first then 0 else identity.sourceOrdinal - first;
          && snapshot.firstUseGpu == old(snapshot.firstUseGpu) + (if kind == GpuUse then 1 else 0)
          && snapshot.firstUseCpu == old(snapshot.firstUseCpu) + (if kind == CpuObserver then 1 else 0)
          && snapshot.firstUseDistanceTotal == old(snapshot.firstUseDistanceTotal) + distance
          && snapshot.firstUseDistanceMax >= distance
          && snapshot.firstUseDistanceMax in {old(snapshot.firstUseDistanceMax), distance}
          && snapshot.firstUseDistanceMax >= old(snapshot.firstUseDistanceMax)
          && forall i :: 0 <= i < |events| ==>
               events[i] == if SameResourceGeneration(old(events)[i].identity, identity)
                            then old(events)[i].(firstUseDistance := distance, firstUseKind := kind) else old(events)[i]
    {
      hide Right, Conserved, AgedHistory, IssuedHere, FindKey, UseNoted;
      AgedReflexive(events);
      if !identity.IsValid() {
        Drop(false);
        return;
      }
      var gi := FindGeneration(identity);
      if gi == |generations| {
        return;
      }
      var ordering := IssueOrdering(ReplayUse);
      if !ordering.IsValid() {
        Drop(false);
        return;
      }
      if generations[gi].used {
        Mark(gi, generations[gi].(barrierSinceLast := true), snapshot);
      } else {
        var distance := UseDistance(generations[gi], identity);
        NoteUse(identity, distance, kind);
        Mark(gi, generations[gi].(barrierSinceLast := true, used := true), UseCounted(snapshot, distance, kind));
      }
    }

    /** Replaces one generation's marks, and the counters that go with them. */
    method Mark(gi: nat, g: Generation, t: Snapshot)
      requires Valid() && gi < |generations|
      requires g == generations[gi].(barrierSinceLast := g.barrierSinceLast, used := g.used)
      requires t == snapshot.(
        firstUseGpu := t.firstUseGpu, firstUseCpu := t.firstUseCpu, barriers := t.barriers,
        firstUseDistanceTotal := t.firstUseDistanceTotal, firstUseDistanceMax := t.firstUseDistanceMax)
      requires t.firstUseGpu + t.firstUseCpu + (if generations[gi].used then 1 else 0)
            == snapshot.firstUseGpu + snapshot.firstUseCpu + (if g.used then 1 else 0)
      modifies this`generations, this`snapshot
      ensures Valid() && Conserved(events, snapshot) == old(Conserved(events, snapshot))
      ensures generations == old(generations)[gi := g] && snapshot == t
    {
      hide Right, Conserved, UsedCount;
      UsedUpdate(generations, gi, g);
      RightMarks(events, generations, generations[gi := g], recorded, snapshot, t, policy.generation, policy.nextOrdinal);
      ConservedOther(events, snapshot, t);
      generations := generations[gi := g];
      snapshot := t;
    }

    /** Writes the first-use marks on the events of one generation. */
    method NoteUse(identity: SourceIdentity, distance: nat, kind: ObserverKind)
      requires Valid()
      modifies this`events
      ensures Valid() && AgedHistory(old(events), events)
      ensures events == UseNoted(old(events), identity, distance, kind)
      ensures Conserved(events, snapshot) == old(Conserved(events, snapshot))
    {
      hide Right, Conserved;
      var marked := events;
      ghost var noted := UseNoted(events, identity, distance, kind);
      for i := 0 to |events|
        invariant |marked| == |events|
        invariant forall j :: 0 <= j < i ==> marked[j] == noted[j]
        invariant forall j :: i <= j < |events| ==> marked[j] == events[j]
      {
        if HasKey(marked[i], identity) {
          marked := marked[i := marked[i].(firstUseDistance := distance, firstUseKind := kind)];
        }
      }
      assert marked == noted;
      RightAged(events, marked, generations, recorded, snapshot, policy.generation, policy.nextOrdinal);
      UseConserves(events, marked, snapshot);
      events := marked;
    }

    /** A barrier on one generation; on an unknown one it is only counted as a rejection. */
    method ObserveBarrier(identity: SourceIdentity, reason: BarrierReason)
      requires Valid()
      modifies this`generations, this`snapshot
      ensures Log() == Runs.Next(old(Log()), Bounds(), Runs.Bar(identity, reason))
      ensures Valid() && Conserved(events, snapshot) == old(Conserved(events, snapshot))
      ensures !identity.IsValid() ==> generations == old(generations) && snapshot == Dropped(old(snapshot), false)
      ensures
        var k := old(FindKey(generations, 0, identity));
        identity.IsValid() && k < old(|generations|) ==>
        && generations == old(generations)[k := old(generations)[k].(barrierSinceLast := true)]
        && snapshot == old(snapshot).(barriers := old(snapshot).barriers + multiset{reason})
      ensures identity.IsValid() && old(FindKey(generations, 0, identity) == |generations|) ==>
        generations == old(generations) &&
        snapshot == old(snapshot).(rejections := old(snapshot).rejections + multiset{Invalid})
    {
      hide Right, Conserved;
      if !identity.IsValid() {
        Drop(false);
        return;
      }
      var gi := FindGeneration(identity);
      if gi == |generations| {
        var t := snapshot.(rejections := snapshot.rejections + multiset{Invalid});
        RightOtherCounters(events, generations, recorded, snapshot, t,
                           policy.generation, policy.nextOrdinal, policy.nextOrdinal);
        ConservedOther(events, snapshot, t);
        snapshot := t;
        return;
      }
      Mark(gi, generations[gi].(barrierSinceLast := true), snapshot.(barriers := snapshot.barriers + multiset{reason}));
    }

    method ObserveGlobalBarrier(reason: BarrierReason)
      requires Valid()
      modifies this`generations, this`snapshot
      ensures Log() == Runs.Next(old(Log()), Bounds(), Runs.BarAll(reason))
      ensures Valid() && Conserved(events, snapshot) == old(Conserved(events, snapshot))
      ensures snapshot == old(snapshot).(barriers := old(snapshot).barriers + multiset{reason})
      ensures |generations| == |old(generations)|
      ensures forall i :: 0 <= i < |generations| ==> generations[i] == old(generations)[i].(barrierSinceLast := true)
    {
      hide Right, Conserved;
      var marked := generations;
      for i := 0 to |generations|
        invariant |marked| == |generations|
        invariant forall j :: 0 <= j < i ==> marked[j] == generations[j].(barrierSinceLast := true)
        invariant forall j :: i <= j < |generations| ==> marked[j] == generations[j]
      {
        marked := marked[i := marked[i].(barrierSinceLast := true)];
      }
      var t := snapshot.(barriers := snapshot.barriers + multiset{reason});
      UsedSame(generations, marked);
      RightMarks(events, generations, marked, recorded, snapshot, t, policy.generation, policy.nextOrdinal);
      ConservedOther(events, snapshot, t);
      generations, snapshot := marked, t;
      assert generations == Runs.AllBarred(old(generations));
    }

    /**
      Closes the window: the candidate counters and the rejections become exact, and
      no candidate is lost. Dead chains are counted again after every record, so their
      counter is exact exactly when it was before, or was still zero.
     */
    method Close()
      requires Valid()
      modifies this`snapshot, this`generations, this`chainsCounted
      ensures Log() == Runs.Next(old(Log()), Bounds(), Runs.CloseWindow)
      ensures Valid() && Conserved(events, snapshot) == old(Conserved(events, snapshot))
      ensures generations == AllFinalized(old(generations)) && chainsCounted
      ensures snapshot == ClosedSnapshot(old(snapshot), events, old(generations), old(chainsCounted))
      ensures AtMost(old(snapshot.tally), snapshot.tally)
      ensures snapshot.tally.calls + |snapshot.finalRejections| + |Resources(events, |events|)| == |events|
      ensures DifferentResource !in snapshot.finalRejections && SourceOrder !in snapshot.finalRejections
      ensures snapshot.deadChains == DeadChains(generations, |generations|) <==>
        if old(chainsCounted) then old(snapshot.deadChains) == old(DeadChains(generations, |generations|))
        else old(snapshot.deadChains) == 0
    {
      hide Right, Conserved, ExactTally, FinalRejections, NewlyUnused, DeadChains;
      RightClosed(events, generations, recorded, snapshot, chainsCounted, policy.generation, policy.nextOrdinal);
      FinalPartition(events);
      ChainsFinalized(generations, |generations|);
      var marked, unused := FinalizeGenerations();
      var tally := RecomputeCandidates();
      var final := RecomputeFinalRejections();
      var chains := 0;
      if !chainsCounted {
        chains := CountChains(marked);
      }
      var t := snapshot.(tally := tally, finalRejections := final,
                         zeroUse := snapshot.zeroUse + unused, deadChains := snapshot.deadChains + chains);
      ConservedOther(events, snapshot, t);
      generations, snapshot, chainsCounted := marked, t, true;
    }

    /** Marks every generation closed, counting those not closed before that were never read. */
    method FinalizeGenerations() returns (marked: seq<Generation>, unused: nat)
      ensures marked == AllFinalized(generations) && unused == NewlyUnused(generations, |generations|)
    {
      marked, unused := generations, 0;
      for i := 0 to |generations|
        invariant |marked| == |generations| && unused == NewlyUnused(generations, i)
        invariant forall j :: 0 <= j < i ==> marked[j] == Finalized(generations[j])
        invariant forall j :: i <= j < |generations| ==> marked[j] == generations[j]
      {
        var g := marked[i];
        if g.mutationCount != 0 && !g.finalized {
          marked := marked[i := g.(finalized := true)];
          if !g.used {
            unused := unused + 1;
          }
        }
      }
    }

    static method CountChains(generations: seq<Generation>) returns (chains: nat)
      ensures chains == DeadChains(generations, |generations|)
    {
      chains := 0;
      for k := 0 to |generations|
        invariant chains == DeadChains(generations, k)
      {
        var prior := PreviousGeneration(generations, generations[k]);
        if prior.Some? && generations[prior.value].lastDisposition == Discard
           && generations[k].firstDisposition == Discard && !generations[prior.value].used && !generations[k].used {
          chains := chains + 1;
        }
      }
    }

    static method PreviousGeneration(generations: seq<Generation>, current: Generation) returns (prior: Option<nat>)
      ensures prior == Prior(generations, |generations|, current)
    {
      prior := None;
      for i := 0 to |generations|
        invariant prior == Prior(generations, i, current)
      {
        var c := generations[i];
        if c.key.resource == current.key.resource && c.firstEvent < current.firstEvent {
          if prior == None || c.firstEvent > generations[prior.value].firstEvent {
            prior := Some(i);
          }
        }
      }
    }

    /** Walks the history generation by generation, each event against the one before it in its generation. */
    method RecomputeCandidates() returns (tally: Tally)
      requires Valid()
      ensures tally == ExactTally(events)
    {
      hide Right, KeyTally, ExactTally, MarksRight, Keys;
      RightIndexed(events, generations, recorded, snapshot, policy.generation, policy.nextOrdinal);
      hide Indexed;
      tally := EMPTY_TALLY;
      ghost var keys := Keys(generations);
      KeysNone(events);
      for k := 0 to |generations|
        invariant tally == KeyTally(events, |events|, keys[..k])
      {
        OneIndexed(events, generations, k);
        var mine := RecomputeGeneration(generations[k]);
        KeysSnoc(events, generations, k);
        tally := Plus(tally, mine);
      }
      assert keys[..|generations|] == keys;
      KeysAll(events, generations);
    }

    method RecomputeGeneration(g: Generation) returns (tally: Tally)
      requires MarksRight(events, g)
      ensures tally == KeyTally(events, |events|, [g.key])
    {
      assert g.firstEvent <= |events|;
      hide Classify, KeyTally, AddPair;
      tally := EMPTY_TALLY;
      var previous := -1;
      SkipBefore(events, g.key, g.firstEvent);
      for i := g.firstEvent to |events|
        invariant g.firstEvent <= |events|
        invariant previous == LastWithKey(events, i, g.key)
        invariant tally == KeyTally(events, i, [g.key])
      {
        KeyStep(events, i, g.key);
        if HasKey(events[i], g.key) {
          if previous >= 0 {
            var p, c := events[previous], events[i];
            CandidateRanges(p, c, c.barrierBefore);
            if Classify(p, c, c.barrierBefore) == Candidate
               && !(p.disposition == NoOverwrite && c.disposition == NoOverwrite && RangesOverlap(p, c)) {
              tally := AddPair(tally, p, c);
            }
          }
          previous := i;
        }
      }
    }

    method PreviousForEvent(i: nat) returns (k: int)
      requires i < |events|
      ensures k == PreviousIndex(events, i, events[i].identity)
    {
      k := i - 1;
      while k >= 0
        invariant -1 <= k < i
        invariant LastWithKey(events, i, events[i].identity) == LastWithKey(events, k + 1, events[i].identity)
      {
        if SameResourceGeneration(events[k].identity, events[i].identity) {
          return;
        }
        k := k - 1;
      }
      k := i - 1;
      while k >= 0
        invariant -1 <= k < i
        invariant LastWithResource(events, i, events[i].identity.resource) == LastWithResource(events, k + 1, events[i].identity.resource)
      {
        if events[k].identity.resource == events[i].identity.resource {
          return;
        }
        k := k - 1;
      }
    }

    method RecomputeFinalRejections() returns (counts: multiset<RejectionReason>)
      ensures counts == FinalRejections(events, |events|)
    {
      counts := multiset{};
      hide Classify, Verdict, ReasonOf;
      for i := 0 to |events|
        invariant counts == FinalRejections(events, i)
      {
        VerdictAt(events, i);
        var k := PreviousForEvent(i);
        if k >= 0 {
          var d := Classify(events[k], events[i], events[i].barrierBefore);
          if d != Candidate {
            counts := counts + multiset{ReasonOf(d)};
          }
        }
      }
    }

    /** Starts a new window; identities issued before it are never issued again. */
    method Reset()
      requires Valid()
      modifies this, policy
      ensures Log() == Runs.Next(old(Log()), Bounds(), Runs.ResetWindow)
      ensures Valid() && events == [] && generations == [] && snapshot == EMPTY_SNAPSHOT && !chainsCounted
      ensures Conserved(events, snapshot)
      ensures forall g: nat, o: nat :: old(policy.Spent(g, o)) ==> policy.Spent(g, o)
    {
      hide Right, Conserved;
      var ok := policy.Reset();
      events, generations, snapshot, recorded, chainsCounted := [], [], EMPTY_SNAPSHOT, [], false;
      RightEmpty(policy.generation, policy.nextOrdinal);
    }

    /** A closed or open ledger whose dispositions were conserved passes the audit's laws. */
    lemma AuditHolds()
      requires Valid() && Conserved(events, snapshot)
      ensures PassesAudit(snapshot)
    {
      CountersPassAudit(events, generations, snapshot);
    }

    /** An event's verdict differs from its record-time verdict only if that one waited for completion. */
    lemma VerdictStable(i: nat)
      requires Valid() && i < |events|
      ensures i < |recorded|
      ensures Verdict(events, i) != recorded[i] ==> recorded[i] == Some(NotCompleted)
      ensures recorded[i] == Some(Candidate) ==> Verdict(events, i) == Some(Candidate)
    {
      assert Settles(recorded[i], Verdict(events, i));
    }
  }
}
