/**
  Runs of the observation ledger as lists of calls, and what the marks it keeps mean
  in terms of those calls: when an event is stored as barred, and when a generation
  counts as used.
 */
module ObserverRuns {
  import opened MutationIdentity
  import opened Composition
  import opened Options
  import opened ObserverHistory

  datatype Limits = Limits(maxEvents: nat, maxGenerations: nat)

  /** The history, the marks of its generations, and the ordering identities still to come. */
  datatype Ledger = Ledger(
    events: seq<Event>, generations: seq<Generation>, generation: nat, nextOrdinal: nat, policyValid: bool)

  datatype Call =
    | Record(event: Event)
    | Settle(identity: SourceIdentity, disposition: Completion)
    | Use(identity: SourceIdentity, kind: ObserverKind)
    | Bar(identity: SourceIdentity, reason: BarrierReason)
    | BarAll(reason: BarrierReason)
    | CloseWindow
    | ResetWindow

  const NOTHING_OBSERVED := Ledger([], [], 1, 1, true)

  predicate CanIssue(l: Ledger) {
    l.policyValid && l.nextOrdinal < U64_MAX
  }

  predicate Wellformed(e: Event) {
    e.identity.IsValid() && e.End() <= U64_MAX
  }

  predicate Known(l: Ledger, id: SourceIdentity) {
    FindKey(l.generations, 0, id) < |l.generations|
  }

  /** Whether a mutation offered now would be recorded. */
  predicate Takes(l: Ledger, limits: Limits, e: Event) {
    && Wellformed(e) && CanIssue(l) && |l.events| != limits.maxEvents
    && (|l.generations| != limits.maxGenerations || Known(l, e.identity))
  }

  function Issued(l: Ledger): Ledger {
    l.(nextOrdinal := l.nextOrdinal + 1)
  }

  function Recorded(l: Ledger, e: Event): Ledger {
    var observed := e.(ordering := OrderingIdentity(l.generation, l.nextOrdinal, e.sourceKind));
    Issued(l).(
      events := l.events + [StoredEvent(l.generations, observed, |l.events|)],
      generations := GenerationsAfter(l.generations, observed, |l.events|))
  }

  function UsedBy(l: Ledger, id: SourceIdentity, kind: ObserverKind): Ledger
    requires Known(l, id)
  {
    var k := FindKey(l.generations, 0, id);
    var g := l.generations[k];
    Issued(l).(
      generations := l.generations[k := g.(barrierSinceLast := true, used := true)],
      events := if g.used then l.events else UseNoted(l.events, id, UseDistance(g, id), kind))
  }

  function AllBarred(generations: seq<Generation>): (r: seq<Generation>)
    ensures |r| == |generations| && forall i :: 0 <= i < |r| ==> r[i] == generations[i].(barrierSinceLast := true)
  {
    seq(|generations|, i requires 0 <= i < |generations| => generations[i].(barrierSinceLast := true))
  }

  /** One call on the ledger. */
  function Next(l: Ledger, limits: Limits, c: Call): Ledger {
    match c
    case Record(e) =>
      if !Wellformed(e) || !CanIssue(l) then l
      else if Takes(l, limits, e) then Recorded(l, e)
      else Issued(l)
    case Settle(id, d) =>
      var k := PendingIndex(l.events, |l.events|, id);
      if k < 0 then l else l.(events := l.events[k := SettledEvent(l.events[k], d)])
    case Use(id, kind) =>
      if id.IsValid() && Known(l, id) && CanIssue(l) then UsedBy(l, id, kind) else l
    case Bar(id, _) =>
      if id.IsValid() && Known(l, id) then
        var k := FindKey(l.generations, 0, id);
        l.(generations := l.generations[k := l.generations[k].(barrierSinceLast := true)])
      else l
    case BarAll(_) => l.(generations := AllBarred(l.generations))
    case CloseWindow => l.(generations := AllFinalized(l.generations))
    case ResetWindow =>
      if l.policyValid && l.generation < U64_MAX then Ledger([], [], l.generation + 1, 1, true)
      else Ledger([], [], l.generation, l.nextOrdinal, false)
  }

  function After(limits: Limits, cs: seq<Call>): Ledger {
    if cs == [] then NOTHING_OBSERVED else Next(After(limits, cs[..|cs| - 1]), limits, cs[|cs| - 1])
  }

  lemma AfterNext(limits: Limits, cs: seq<Call>, n: nat)
    requires n < |cs|
    ensures After(limits, cs[..n + 1]) == Next(After(limits, cs[..n]), limits, cs[n])
  {
    assert cs[..n + 1][..n] == cs[..n];
  }

  // ----- what a call did, from the list of calls -----

  /** Call c recorded an event of the generation that `id` names. */
  predicate RecordsAt(limits: Limits, cs: seq<Call>, c: nat, id: SourceIdentity)
    requires c < |cs|
  {
    cs[c].Record? && Takes(After(limits, cs[..c]), limits, cs[c].event) && HasKey(cs[c].event, id)
  }

  /** Call c was a global barrier, a barrier on that generation, or a use of it while identities were left. */
  predicate BarsAt(limits: Limits, cs: seq<Call>, c: nat, id: SourceIdentity)
    requires c < |cs|
  {
    || cs[c].BarAll?
    || (cs[c].Bar? && cs[c].identity.IsValid() && SameResourceGeneration(cs[c].identity, id))
    || UsesAt(limits, cs, c, id)
  }

  predicate UsesAt(limits: Limits, cs: seq<Call>, c: nat, id: SourceIdentity)
    requires c < |cs|
  {
    cs[c].Use? && cs[c].identity.IsValid() && SameResourceGeneration(cs[c].identity, id) && CanIssue(After(limits, cs[..c]))
  }

  /** The last event of the generation before call n was recorded at p, in the window of call n. */
  ghost predicate LastRecord(limits: Limits, cs: seq<Call>, n: nat, p: nat, id: SourceIdentity)
    requires n <= |cs|
  {
    && p < n && RecordsAt(limits, cs, p, id)
    && forall q: nat :: p < q < n ==> !cs[q].ResetWindow? && !RecordsAt(limits, cs, q, id)
  }

  /** Before call n and after the last event of the generation something barred it. */
  ghost predicate BarredSince(limits: Limits, cs: seq<Call>, n: nat, id: SourceIdentity)
    requires n <= |cs|
  {
    exists p: nat, b: nat :: p < b < n && LastRecord(limits, cs, n, p, id) && BarsAt(limits, cs, b, id)
  }

  ghost predicate RecordedSince(limits: Limits, cs: seq<Call>, n: nat, id: SourceIdentity)
    requires n <= |cs|
  {
    exists p: nat :: p < n && RecordsAt(limits, cs, p, id) && NoReset(cs, p, n)
  }

  ghost predicate NoReset(cs: seq<Call>, from: nat, to: nat)
    requires to <= |cs|
  {
    forall q: nat :: from < q < to ==> !cs[q].ResetWindow?
  }

  /** In the window of call n the generation was recorded, and used after that. */
  ghost predicate UsedSince(limits: Limits, cs: seq<Call>, n: nat, id: SourceIdentity)
    requires n <= |cs|
  {
    exists p: nat, u: nat ::
      p < u < n && RecordsAt(limits, cs, p, id) && UsesAt(limits, cs, u, id) && NoReset(cs, p, n)
  }

  // ----- the marks say exactly that -----

  /** Distinct generations, each with a last record, each barred and used exactly as the calls say. */
  ghost predicate MarksMean(limits: Limits, cs: seq<Call>, n: nat)
    requires n <= |cs|
  {
    var gs := After(limits, cs[..n]).generations;
    && (forall i, j :: 0 <= i < j < |gs| ==> !SameResourceGeneration(gs[i].key, gs[j].key))
    && AllMean(limits, cs, n, gs)
    && (forall id :: RecordedSince(limits, cs, n, id) ==> Listing(gs, id))
  }

  ghost predicate Listing(gs: seq<Generation>, id: SourceIdentity) {
    exists i :: 0 <= i < |gs| && SameResourceGeneration(gs[i].key, id)
  }

  ghost predicate AllMean(limits: Limits, cs: seq<Call>, n: nat, gs: seq<Generation>)
    requires n <= |cs|
  {
    forall i :: 0 <= i < |gs| ==> MarkMeans(limits, cs, n, gs[i])
  }

  ghost predicate MarkMeans(limits: Limits, cs: seq<Call>, n: nat, g: Generation)
    requires n <= |cs|
  {
    && (exists p: nat :: LastRecord(limits, cs, n, p, g.key))
    && (g.barrierSinceLast <==> BarredSince(limits, cs, n, g.key))
    && (g.used <==> UsedSince(limits, cs, n, g.key))
  }

  /** Call n neither records the generation nor resets: its last record stays. */
  lemma LastStays(limits: Limits, cs: seq<Call>, n: nat, id: SourceIdentity, p: nat)
    requires n < |cs| && !cs[n].ResetWindow? && !RecordsAt(limits, cs, n, id)
    ensures LastRecord(limits, cs, n + 1, p, id) <==> LastRecord(limits, cs, n, p, id)
  {
  }

  lemma QuietMark(limits: Limits, cs: seq<Call>, n: nat, g: Generation, h: Generation)
    requires n < |cs| && !cs[n].ResetWindow? && !RecordsAt(limits, cs, n, g.key)
    requires MarkMeans(limits, cs, n, g) && h.key == g.key
    requires h.barrierSinceLast <==> g.barrierSinceLast || BarsAt(limits, cs, n, g.key)
    requires h.used <==> g.used || UsesAt(limits, cs, n, g.key)
    ensures MarkMeans(limits, cs, n + 1, h)
  {
    hide RecordsAt, BarsAt, UsesAt, LastRecord, BarredSince, UsedSince;
    var p: nat :| LastRecord(limits, cs, n, p, g.key);
    LastStays(limits, cs, n, g.key, p);
    BarredQuiet(limits, cs, n, g.key, p);
    UsedQuiet(limits, cs, n, g.key, p);
  }

  lemma BarredQuiet(limits: Limits, cs: seq<Call>, n: nat, id: SourceIdentity, p: nat)
    requires n < |cs| && !cs[n].ResetWindow? && !RecordsAt(limits, cs, n, id) && LastRecord(limits, cs, n, p, id)
    ensures BarredSince(limits, cs, n + 1, id) <==> BarredSince(limits, cs, n, id) || BarsAt(limits, cs, n, id)
  {
    LastStays(limits, cs, n, id, p);
    assert p < n;
    hide RecordsAt, BarsAt, UsesAt, LastRecord;
    if BarredSince(limits, cs, n, id) {
      var p1: nat, b: nat :| p1 < b < n && LastRecord(limits, cs, n, p1, id) && BarsAt(limits, cs, b, id);
      LastStays(limits, cs, n, id, p1);
    }
    if BarredSince(limits, cs, n + 1, id) {
      var p1: nat, b: nat :| p1 < b < n + 1 && LastRecord(limits, cs, n + 1, p1, id) && BarsAt(limits, cs, b, id);
      LastStays(limits, cs, n, id, p1);
    }
  }

  lemma UsedQuiet(limits: Limits, cs: seq<Call>, n: nat, id: SourceIdentity, p: nat)
    requires n < |cs| && !cs[n].ResetWindow? && LastRecord(limits, cs, n, p, id)
    ensures UsedSince(limits, cs, n + 1, id) <==> UsedSince(limits, cs, n, id) || UsesAt(limits, cs, n, id)
  {
    hide RecordsAt, UsesAt, UsedSince;
    if UsedSince(limits, cs, n, id) {
      UsedStays(limits, cs, n, id);
    }
    if UsesAt(limits, cs, n, id) {
      UsedNow(limits, cs, n, id, p);
    } else if UsedSince(limits, cs, n + 1, id) {
      UsedWas(limits, cs, n, id);
    }
  }

  lemma UsedNow(limits: Limits, cs: seq<Call>, n: nat, id: SourceIdentity, p: nat)
    requires n < |cs| && !cs[n].ResetWindow? && LastRecord(limits, cs, n, p, id) && UsesAt(limits, cs, n, id)
    ensures UsedSince(limits, cs, n + 1, id)
  {
    hide RecordsAt, UsesAt;
    assert NoReset(cs, p, n + 1);
  }

  /** The marks of the generation that call n records into. */
  lemma RecordedMark(limits: Limits, cs: seq<Call>, n: nat, h: Generation)
    requires n < |cs| && RecordsAt(limits, cs, n, h.key) && !h.barrierSinceLast
    requires h.used <==> UsedSince(limits, cs, n, h.key)
    ensures MarkMeans(limits, cs, n + 1, h)
  {
    var id := h.key;
    assert LastRecord(limits, cs, n + 1, n, id);
    RecordedUsed(limits, cs, n, id);
    RecordedUnbarred(limits, cs, n, id);
    hide RecordsAt, BarsAt, UsesAt, LastRecord, BarredSince, UsedSince;
  }

  lemma RecordedUsed(limits: Limits, cs: seq<Call>, n: nat, id: SourceIdentity)
    requires n < |cs| && RecordsAt(limits, cs, n, id)
    ensures UsedSince(limits, cs, n + 1, id) <==> UsedSince(limits, cs, n, id)
  {
    hide UsedSince;
    assert cs[n].Record?;
    assert !UsesAt(limits, cs, n, id);
    if UsedSince(limits, cs, n, id) {
      UsedStays(limits, cs, n, id);
    }
    if UsedSince(limits, cs, n + 1, id) {
      UsedWas(limits, cs, n, id);
    }
  }

  lemma UsedStays(limits: Limits, cs: seq<Call>, n: nat, id: SourceIdentity)
    requires n < |cs| && !cs[n].ResetWindow? && UsedSince(limits, cs, n, id)
    ensures UsedSince(limits, cs, n + 1, id)
  {
    hide RecordsAt, UsesAt;
    var p: nat, u: nat :|
      p < u < n && RecordsAt(limits, cs, p, id) && UsesAt(limits, cs, u, id) && NoReset(cs, p, n);
    assert NoReset(cs, p, n + 1);
  }

  lemma UsedWas(limits: Limits, cs: seq<Call>, n: nat, id: SourceIdentity)
    requires n < |cs| && UsedSince(limits, cs, n + 1, id) && !UsesAt(limits, cs, n, id)
    ensures UsedSince(limits, cs, n, id)
  {
    hide RecordsAt, UsesAt;
    var p: nat, u: nat :|
      p < u < n + 1 && RecordsAt(limits, cs, p, id) && UsesAt(limits, cs, u, id) && NoReset(cs, p, n + 1);
    assert NoReset(cs, p, n);
  }

  lemma RecordedUnbarred(limits: Limits, cs: seq<Call>, n: nat, id: SourceIdentity)
    requires n < |cs| && RecordsAt(limits, cs, n, id)
    ensures !BarredSince(limits, cs, n + 1, id)
  {
    hide RecordsAt, BarsAt;
  }

  /** Names of one generation say the same. */
  lemma SameNames(limits: Limits, cs: seq<Call>, n: nat, a: SourceIdentity, b: SourceIdentity)
    requires n <= |cs| && SameResourceGeneration(a, b)
    ensures BarredSince(limits, cs, n, a) <==> BarredSince(limits, cs, n, b)
    ensures UsedSince(limits, cs, n, a) <==> UsedSince(limits, cs, n, b)
    ensures RecordedSince(limits, cs, n, a) <==> RecordedSince(limits, cs, n, b)
  {
    hide Takes, After, CanIssue;
    assert forall c: nat :: c < |cs| ==> (RecordsAt(limits, cs, c, a) <==> RecordsAt(limits, cs, c, b));
    assert forall c: nat :: c < |cs| ==> (UsesAt(limits, cs, c, a) <==> UsesAt(limits, cs, c, b));
    assert forall c: nat :: c < |cs| ==> (BarsAt(limits, cs, c, a) <==> BarsAt(limits, cs, c, b));
    assert forall p: nat :: LastRecord(limits, cs, n, p, a) <==> LastRecord(limits, cs, n, p, b) by {
      hide RecordsAt, UsesAt, BarsAt;
    }
    hide RecordsAt, UsesAt, BarsAt, LastRecord;
  }

  lemma KnownIsListed(l: Ledger, id: SourceIdentity)
    ensures Known(l, id) <==> Listing(l.generations, id)
  {
  }

  // ----- one call keeps the meaning -----

  /** Call n records nothing and does not reset: every mark changes exactly as the call says. */
  ghost predicate Quiet(limits: Limits, cs: seq<Call>, n: nat, gs: seq<Generation>, next: seq<Generation>)
    requires n < |cs|
  {
    && !cs[n].ResetWindow?
    && (cs[n].Record? ==> !Takes(After(limits, cs[..n]), limits, cs[n].event))
    && |next| == |gs|
    && forall i :: 0 <= i < |gs| ==>
      && next[i].key == gs[i].key
      && (next[i].barrierSinceLast <==> gs[i].barrierSinceLast || BarsAt(limits, cs, n, gs[i].key))
      && (next[i].used <==> gs[i].used || UsesAt(limits, cs, n, gs[i].key))
  }

  lemma QuietStep(limits: Limits, cs: seq<Call>, n: nat)
    requires n < |cs| && MarksMean(limits, cs, n)
    requires Quiet(limits, cs, n, After(limits, cs[..n]).generations, After(limits, cs[..n + 1]).generations)
    ensures MarksMean(limits, cs, n + 1)
  {
    hide MarkMeans, BarsAt, UsesAt, After, Takes, RecordedSince;
    QuietMarks(limits, cs, n);
    QuietLists(limits, cs, n);
  }

  lemma QuietMarks(limits: Limits, cs: seq<Call>, n: nat)
    requires n < |cs| && MarksMean(limits, cs, n)
    requires Quiet(limits, cs, n, After(limits, cs[..n]).generations, After(limits, cs[..n + 1]).generations)
    ensures AllMean(limits, cs, n + 1, After(limits, cs[..n + 1]).generations)
  {
    hide MarkMeans, BarsAt, UsesAt, After, Takes, RecordedSince, Listing;
    var gs, next := After(limits, cs[..n]).generations, After(limits, cs[..n + 1]).generations;
    forall i | 0 <= i < |next| ensures MarkMeans(limits, cs, n + 1, next[i]) {
      QuietMark(limits, cs, n, gs[i], next[i]);
    }
  }

  lemma QuietLists(limits: Limits, cs: seq<Call>, n: nat)
    requires n < |cs| && MarksMean(limits, cs, n)
    requires Quiet(limits, cs, n, After(limits, cs[..n]).generations, After(limits, cs[..n + 1]).generations)
    ensures
      var next := After(limits, cs[..n + 1]).generations;
      forall id :: RecordedSince(limits, cs, n + 1, id) ==> Listing(next, id)
  {
    hide MarkMeans, BarsAt, UsesAt, After, Takes;
    var gs, next := After(limits, cs[..n]).generations, After(limits, cs[..n + 1]).generations;
    forall id | RecordedSince(limits, cs, n + 1, id) ensures Listing(next, id) {
      QuietRecorded(limits, cs, n, id);
      var i :| 0 <= i < |gs| && SameResourceGeneration(gs[i].key, id);
      assert SameResourceGeneration(next[i].key, id);
    }
  }

  lemma QuietRecorded(limits: Limits, cs: seq<Call>, n: nat, id: SourceIdentity)
    requires n < |cs| && RecordedSince(limits, cs, n + 1, id) && !RecordsAt(limits, cs, n, id)
    ensures RecordedSince(limits, cs, n, id)
  {
    hide RecordsAt;
    var p: nat :| p < n + 1 && RecordsAt(limits, cs, p, id) && NoReset(cs, p, n + 1);
    assert NoReset(cs, p, n);
  }

  /** Call n records an event of the k-th generation, or of a new one behind the others. */
  ghost predicate RecordedInto(limits: Limits, cs: seq<Call>, n: nat, gs: seq<Generation>, next: seq<Generation>, k: nat, id: SourceIdentity)
    requires n < |cs|
  {
    && !cs[n].ResetWindow? && k < |next| && k == FindKey(gs, 0, id)
    && |next| == (if k < |gs| then |gs| else |gs| + 1)
    && (forall i :: 0 <= i < |next| && i != k ==> next[i] == gs[i])
    && (forall j :: RecordsAt(limits, cs, n, j) <==> SameResourceGeneration(id, j))
    && (forall j :: !BarsAt(limits, cs, n, j)) && (forall j :: !UsesAt(limits, cs, n, j))
    && SameResourceGeneration(next[k].key, id)
    && !next[k].barrierSinceLast && (next[k].used <==> k < |gs| && gs[k].used)
    && (k < |gs| ==> next[k].key == gs[k].key)
  }

  lemma RecordShape(limits: Limits, cs: seq<Call>, n: nat) returns (k: nat)
    requires n < |cs| && cs[n].Record? && Takes(After(limits, cs[..n]), limits, cs[n].event)
    ensures RecordedInto(limits, cs, n, After(limits, cs[..n]).generations, After(limits, cs[..n + 1]).generations, k, cs[n].event.identity)
  {
    hide After;
    AfterNext(limits, cs, n);
    k := FindKey(After(limits, cs[..n]).generations, 0, cs[n].event.identity);
  }

  lemma RecordStep(limits: Limits, cs: seq<Call>, n: nat)
    requires n < |cs| && MarksMean(limits, cs, n)
    requires cs[n].Record? && Takes(After(limits, cs[..n]), limits, cs[n].event)
    ensures MarksMean(limits, cs, n + 1)
  {
    var k := RecordShape(limits, cs, n);
    RecordMarks(limits, cs, n, k);
    RecordLists(limits, cs, n, k);
    hide After, Takes, RecordsAt, BarsAt, UsesAt, FindKey, MarkMeans;
  }

  lemma RecordMarks(limits: Limits, cs: seq<Call>, n: nat, k: nat)
    requires n < |cs| && MarksMean(limits, cs, n) && cs[n].Record?
    requires RecordedInto(limits, cs, n, After(limits, cs[..n]).generations, After(limits, cs[..n + 1]).generations, k, cs[n].event.identity)
    ensures AllMean(limits, cs, n + 1, After(limits, cs[..n + 1]).generations)
  {
    hide After, Takes, RecordsAt, BarsAt, UsesAt, FindKey, MarkMeans;
    var gs, next := After(limits, cs[..n]).generations, After(limits, cs[..n + 1]).generations;
    forall i | 0 <= i < |next| ensures MarkMeans(limits, cs, n + 1, next[i]) {
      if i == k {
        RecordedOwn(limits, cs, n, gs, k, cs[n].event.identity, next[k]);
      } else {
        OthersApart(gs, k, cs[n].event.identity, i);
        QuietMark(limits, cs, n, gs[i], next[i]);
      }
    }
  }

  lemma OthersApart(gs: seq<Generation>, k: nat, id: SourceIdentity, i: nat)
    requires forall i, j :: 0 <= i < j < |gs| ==> !SameResourceGeneration(gs[i].key, gs[j].key)
    requires k == FindKey(gs, 0, id) && i < |gs| && i != k
    ensures !SameResourceGeneration(id, gs[i].key)
  {
  }

  lemma RecordLists(limits: Limits, cs: seq<Call>, n: nat, k: nat)
    requires n < |cs| && MarksMean(limits, cs, n) && cs[n].Record?
    requires RecordedInto(limits, cs, n, After(limits, cs[..n]).generations, After(limits, cs[..n + 1]).generations, k, cs[n].event.identity)
    ensures
      var next := After(limits, cs[..n + 1]).generations;
      && (forall i, j :: 0 <= i < j < |next| ==> !SameResourceGeneration(next[i].key, next[j].key))
      && (forall id :: RecordedSince(limits, cs, n + 1, id) ==> Listing(next, id))
  {
    hide After, Takes, RecordsAt, BarsAt, UsesAt, MarkMeans;
    var gs, next, e := After(limits, cs[..n]).generations, After(limits, cs[..n + 1]).generations, cs[n].event;
    forall id | RecordedSince(limits, cs, n + 1, id) ensures Listing(next, id) {
      if SameResourceGeneration(e.identity, id) {
        assert SameResourceGeneration(next[k].key, id);
      } else {
        var p: nat :| p < n + 1 && RecordsAt(limits, cs, p, id) && NoReset(cs, p, n + 1);
        assert p < n && NoReset(cs, p, n);
        assert RecordedSince(limits, cs, n, id);
        var i :| 0 <= i < |gs| && SameResourceGeneration(gs[i].key, id);
        assert next[i].key == gs[i].key;
      }
    }
  }

  /** The generation an accepted event belongs to, after it. */
  lemma RecordedOwn(limits: Limits, cs: seq<Call>, n: nat, gs: seq<Generation>, k: nat, id: SourceIdentity, h: Generation)
    requires n < |cs| && MarksMean(limits, cs, n) && gs == After(limits, cs[..n]).generations
    requires k == FindKey(gs, 0, id) && RecordsAt(limits, cs, n, h.key) && SameResourceGeneration(h.key, id)
    requires !h.barrierSinceLast && (h.used <==> k < |gs| && gs[k].used)
    ensures MarkMeans(limits, cs, n + 1, h)
  {
    hide After, RecordsAt, FindKey;
    SameNames(limits, cs, n, h.key, id);
    if k < |gs| {
      SameNames(limits, cs, n, gs[k].key, id);
      assert MarkMeans(limits, cs, n, gs[k]);
    } else if UsedSince(limits, cs, n, id) {
      UsedWasRecorded(limits, cs, n, id);
    }
    hide MarkMeans, MarksMean, UsedSince, BarredSince;
    RecordedMark(limits, cs, n, h);
  }

  lemma UsedWasRecorded(limits: Limits, cs: seq<Call>, n: nat, id: SourceIdentity)
    requires n <= |cs| && UsedSince(limits, cs, n, id)
    ensures RecordedSince(limits, cs, n, id)
  {
    hide RecordsAt, UsesAt, NoReset;
  }

  lemma ResetStep(limits: Limits, cs: seq<Call>, n: nat)
    requires n < |cs| && cs[n].ResetWindow?
    ensures MarksMean(limits, cs, n + 1)
  {
    AfterNext(limits, cs, n);
    assert After(limits, cs[..n + 1]).generations == [];
    hide After;
    forall id ensures RecordedSince(limits, cs, n + 1, id) ==> Listing([], id) {
      NothingSince(limits, cs, n, id);
    }
  }

  lemma NothingSince(limits: Limits, cs: seq<Call>, n: nat, id: SourceIdentity)
    requires n < |cs| && cs[n].ResetWindow?
    ensures !RecordedSince(limits, cs, n + 1, id)
  {
    assert !RecordsAt(limits, cs, n, id);
  }

  /** A call on one generation, or on none, marks that one only. */
  lemma OneMarked(limits: Limits, cs: seq<Call>, n: nat)
    requires n < |cs| && MarksMean(limits, cs, n) && !cs[n].ResetWindow?
    requires cs[n].Record? ==> !Takes(After(limits, cs[..n]), limits, cs[n].event)
    ensures Quiet(limits, cs, n, After(limits, cs[..n]).generations, After(limits, cs[..n + 1]).generations)
  {
    hide After, MarkMeans, UseNoted, UseDistance, Next, AllMean;
    AfterNext(limits, cs, n);
    var l := After(limits, cs[..n]);
    var next := Next(l, limits, cs[n]);
    OneChanges(l, limits, cs[n]);
    forall i | 0 <= i < |l.generations| ensures
      && next.generations[i].key == l.generations[i].key
      && (next.generations[i].barrierSinceLast <==> l.generations[i].barrierSinceLast || BarsAt(limits, cs, n, l.generations[i].key))
      && (next.generations[i].used <==> l.generations[i].used || UsesAt(limits, cs, n, l.generations[i].key))
    {
      assert Changes(l, cs[n], i, l.generations[i], next.generations[i]);
    }
  }

  /** The call bars, or uses, the generation with this key. */
  predicate BarsKey(l: Ledger, c: Call, key: SourceIdentity) {
    c.BarAll? || (c.Bar? && c.identity.IsValid() && SameResourceGeneration(c.identity, key)) || UsesKey(l, c, key)
  }

  predicate UsesKey(l: Ledger, c: Call, key: SourceIdentity) {
    c.Use? && c.identity.IsValid() && SameResourceGeneration(c.identity, key) && CanIssue(l)
  }

  ghost predicate Changes(l: Ledger, c: Call, i: nat, g: Generation, h: Generation) {
    && h.key == g.key
    && (h.barrierSinceLast <==> g.barrierSinceLast || BarsKey(l, c, g.key))
    && (h.used <==> g.used || UsesKey(l, c, g.key))
  }

  lemma OneChanges(l: Ledger, limits: Limits, c: Call)
    requires !c.ResetWindow? && (c.Record? ==> !Takes(l, limits, c.event))
    requires forall i, j :: 0 <= i < j < |l.generations| ==> !SameResourceGeneration(l.generations[i].key, l.generations[j].key)
    ensures |Next(l, limits, c).generations| == |l.generations|
    ensures forall i: nat :: i < |l.generations| ==> Changes(l, c, i, l.generations[i], Next(l, limits, c).generations[i])
  {
    hide UseNoted, UseDistance, StoredEvent, GenerationsAfter, PendingIndex;
    if c.Use? || c.Bar? {
      var k := FindKey(l.generations, 0, c.identity);
      forall i: nat | i < |l.generations| && i != k ensures !SameResourceGeneration(c.identity, l.generations[i].key) {
        if k < |l.generations| {
          OthersApart(l.generations, k, c.identity, i);
        }
      }
      hide FindKey;
    }
  }

  lemma {:induction false} MarksAlwaysMean(limits: Limits, cs: seq<Call>, n: nat)
    requires n <= |cs|
    ensures MarksMean(limits, cs, n)
  {
    if n > 0 {
      MarksAlwaysMean(limits, cs, n - 1);
      var c := cs[n - 1];
      hide MarksMean, After, Takes, Quiet;
      if c.ResetWindow? {
        ResetStep(limits, cs, n - 1);
      } else if c.Record? && Takes(After(limits, cs[..n - 1]), limits, c.event) {
        RecordStep(limits, cs, n - 1);
      } else {
        OneMarked(limits, cs, n - 1);
        QuietStep(limits, cs, n - 1);
      }
    }
  }

  // ----- what an event is stored with -----

  /**
    An accepted event is stored as barred exactly when, after the previous accepted
    event of its generation and before it, that generation was used or barred or
    everything was.
   */
  lemma BarredExactly(limits: Limits, cs: seq<Call>, c: nat)
    requires c < |cs| && cs[c].Record? && Takes(After(limits, cs[..c]), limits, cs[c].event)
    ensures
      var events := After(limits, cs[..c + 1]).events;
      && |events| == |After(limits, cs[..c]).events| + 1
      && (events[|events| - 1].barrierBefore <==> BarredSince(limits, cs, c, cs[c].event.identity))
  {
    AfterNext(limits, cs, c);
    MarksAlwaysMean(limits, cs, c);
    var l, id := After(limits, cs[..c]), cs[c].event.identity;
    var k := FindKey(l.generations, 0, id);
    if k < |l.generations| {
      assert MarkMeans(limits, cs, c, l.generations[k]);
      SameNames(limits, cs, c, l.generations[k].key, id);
    } else if BarredSince(limits, cs, c, id) {
      BarredWasRecorded(limits, cs, c, id);
      KnownIsListed(l, id);
    }
    hide After, MarkMeans, MarksMean, BarredSince, UsedSince;
  }

  /** A generation counts as used exactly when it was used after its first event of the window. */
  lemma UsedExactly(limits: Limits, cs: seq<Call>, n: nat, i: nat)
    requires n <= |cs| && i < |After(limits, cs[..n]).generations|
    ensures
      var g := After(limits, cs[..n]).generations[i];
      && (g.used <==> UsedSince(limits, cs, n, g.key))
      && (g.barrierSinceLast <==> BarredSince(limits, cs, n, g.key))
  {
    MarksAlwaysMean(limits, cs, n);
    assert MarkMeans(limits, cs, n, After(limits, cs[..n]).generations[i]);
  }

  lemma BarredWasRecorded(limits: Limits, cs: seq<Call>, n: nat, id: SourceIdentity)
    requires n <= |cs| && BarredSince(limits, cs, n, id)
    ensures RecordedSince(limits, cs, n, id)
  {
    hide RecordsAt, BarsAt;
    var p: nat, b: nat :| p < b < n && LastRecord(limits, cs, n, p, id) && BarsAt(limits, cs, b, id);
    assert NoReset(cs, p, n);
  }

  /** And it stays so: until the window is reset, no call changes a stored mark, an identity or a range. */
  lemma {:induction false} StoredStays(limits: Limits, cs: seq<Call>, m: nat, n: nat, i: nat)
    requires m <= n <= |cs| && i < |After(limits, cs[..m]).events|
    requires forall q: nat :: m <= q < n ==> !cs[q].ResetWindow?
    ensures i < |After(limits, cs[..n]).events| && Aged(After(limits, cs[..m]).events[i], After(limits, cs[..n]).events[i])
    decreases n
  {
    hide After, Next, Aged;
    if m == n {
      AgedItself(After(limits, cs[..m]).events[i]);
    } else {
      StoredStays(limits, cs, m, n - 1, i);
      AfterNext(limits, cs, n - 1);
      var before, after := After(limits, cs[..n - 1]), After(limits, cs[..n]);
      NextAges(before, limits, cs[n - 1], i);
      AgedTransitive(After(limits, cs[..m]).events[i], before.events[i], after.events[i]);
    }
  }

  lemma NextAges(l: Ledger, limits: Limits, c: Call, i: nat)
    requires !c.ResetWindow? && i < |l.events|
    ensures i < |Next(l, limits, c).events| && Aged(l.events[i], Next(l, limits, c).events[i])
  {
    hide GenerationsAfter, StoredEvent, UseDistance;
  }

  lemma AgedItself(e: Event)
    ensures Aged(e, e)
  {
  }

  lemma AgedTransitive(a: Event, b: Event, c: Event)
    requires Aged(a, b) && Aged(b, c)
    ensures Aged(a, c)
  {
  }
}
