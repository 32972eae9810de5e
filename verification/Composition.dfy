/**
  Whether two adjacent buffer mutations could be composed into one, decided on the
  events alone; and what the whole event history decides.
 */
module Composition {
  import opened MutationIdentity
  import opened Options

  datatype Disposition = Plain | NoOverwrite | Discard

  datatype ObserverKind = GpuUse | CpuObserver

  datatype Completion = Completed | Pending | Failed | Discarded

  datatype RejectionReason =
    | DifferentResource | DifferentGeneration | RenderTape | DispositionReason | RangeOverlap
    | Barrier | Failure | SourceOrder | Capacity | Invalid | CompletionReason

  datatype Decision =
    | Candidate | OtherResource | OtherGeneration | OtherTape | WrongOrder
    | Barred | NotSuccessful | NotCompleted | Discarding | Overlapping

  datatype TapeIdentity = TapeIdentity(kind: nat, reserved: nat, generation: nat, objectId: nat) {
    predicate IsValid() {
      kind != 0 && generation != 0 && objectId != 0
    }
  }

  /** `knownNs` is the sum of the measured phases. */
  datatype Event = Event(
    identity: SourceIdentity,
    ordering: OrderingIdentity,
    sourceKind: SourceKind,
    tape: TapeIdentity,
    disposition: Disposition,
    byteOffset: nat,
    byteSize: nat,
    knownNs: nat,
    successful: bool,
    completion: Completion,
    barrierBefore: bool,
    firstUseDistance: nat,
    firstUseKind: ObserverKind)
  {
    function End(): nat {
      byteOffset + byteSize
    }
  }

  predicate RangesOverlap(previous: Event, current: Event) {
    current.byteOffset < previous.End() && previous.byteOffset < current.End()
  }

  /** The first reason, in this order, that keeps the pair apart. */
  function Classify(previous: Event, current: Event, barrierBefore: bool): Decision {
    if previous.identity.resource != current.identity.resource then OtherResource
    else if previous.identity.backingGeneration != current.identity.backingGeneration then OtherGeneration
    else if !previous.tape.IsValid() || !current.tape.IsValid() || previous.tape != current.tape then OtherTape
    else if (previous.ordering.IsValid() || current.ordering.IsValid())
         && !Precedes(previous.ordering, current.ordering) then WrongOrder
    else if !previous.ordering.IsValid() && !current.ordering.IsValid()
         && !SourceOrdinalPrecedes(previous.identity, current.identity) then WrongOrder
    else if barrierBefore then Barred
    else if !previous.successful || !current.successful then NotSuccessful
    else if previous.completion != Completed || current.completion != Completed then NotCompleted
    else if previous.disposition == Discard || current.disposition == Discard then Discarding
    else if previous.disposition == NoOverwrite && current.disposition == NoOverwrite
         && RangesOverlap(previous, current) then Overlapping
    else Candidate
  }

  predicate SameTape(p: Event, c: Event) {
    p.tape == c.tape && p.tape.kind != 0 && p.tape.generation != 0 && p.tape.objectId != 0
  }

  predicate HasOrdering(e: Event) {
    e.ordering.generation != 0 && e.ordering.ordinal != 0
  }

  /** In order: by ordering identity when either has one, else by source ordinal. */
  predicate InOrder(p: Event, c: Event) {
    if HasOrdering(p) || HasOrdering(c) then
      && HasOrdering(p) && HasOrdering(c)
      && p.ordering.generation == c.ordering.generation && p.ordering.ordinal < c.ordering.ordinal
    else 0 < p.identity.sourceOrdinal < c.identity.sourceOrdinal
  }

  /** Two events of one backing, with one valid tape, in order. */
  predicate Comparable(p: Event, c: Event) {
    && p.identity.resource == c.identity.resource && p.identity.backingGeneration == c.identity.backingGeneration
    && SameTape(p, c) && InOrder(p, c)
  }

  /**
    When a pair is a candidate, and when each reason is given: only when none of those
    listed before it applies.
   */
  lemma ClassifyExactly(p: Event, c: Event, barrier: bool)
    ensures
      var d, same := Classify(p, c, barrier), Comparable(p, c);
      var done := p.completion == Completed && c.completion == Completed;
      var settled := same && !barrier && p.successful && c.successful && done;
      var discard := p.disposition == Discard || c.disposition == Discard;
      var clash := p.disposition == NoOverwrite && c.disposition == NoOverwrite
                   && p.byteOffset < c.byteOffset + c.byteSize && c.byteOffset < p.byteOffset + p.byteSize;
      && (d == Candidate <==> settled && !discard && !clash)
      && (d == Overlapping <==> settled && !discard && clash)
      && (d == Discarding <==> settled && discard)
      && (d == NotCompleted <==> same && !barrier && p.successful && c.successful && !done)
      && (d == NotSuccessful <==> same && !barrier && !(p.successful && c.successful))
      && (d == Barred <==> same && barrier)
      && (d == OtherResource <==> p.identity.resource != c.identity.resource)
      && (d == OtherGeneration <==>
            p.identity.resource == c.identity.resource && p.identity.backingGeneration != c.identity.backingGeneration)
      && (d == OtherTape <==>
            p.identity.resource == c.identity.resource && p.identity.backingGeneration == c.identity.backingGeneration && !SameTape(p, c))
  {
  }

  function ReasonOf(d: Decision): RejectionReason {
    match d
    case OtherResource => DifferentResource
    case OtherGeneration => DifferentGeneration
    case OtherTape => RenderTape
    case WrongOrder => SourceOrder
    case Barred => Barrier
    case NotSuccessful => Failure
    case NotCompleted => CompletionReason
    case Discarding => DispositionReason
    case Overlapping => RangeOverlap
    case Candidate => Invalid
  }

  // ----- histories -----

  predicate HasKey(e: Event, id: SourceIdentity) {
    SameResourceGeneration(e.identity, id)
  }

  /** Index of the last of the first n events with the key, or -1. */
  function LastWithKey(events: seq<Event>, n: nat, id: SourceIdentity): (k: int)
    requires n <= |events|
    ensures -1 <= k < n
    ensures k >= 0 ==> HasKey(events[k], id)
    ensures forall j :: k < j < n ==> !HasKey(events[j], id)
  {
    if n == 0 then -1
    else if HasKey(events[n - 1], id) then n - 1
    else LastWithKey(events, n - 1, id)
  }

  function LastWithResource(events: seq<Event>, n: nat, resource: nat): (k: int)
    requires n <= |events|
    ensures -1 <= k < n
    ensures k >= 0 ==> events[k].identity.resource == resource
    ensures forall j :: k < j < n ==> events[j].identity.resource != resource
  {
    if n == 0 then -1
    else if events[n - 1].identity.resource == resource then n - 1
    else LastWithResource(events, n - 1, resource)
  }

  /** The event an event is compared with: of its own generation if there is one. */
  function PreviousIndex(events: seq<Event>, n: nat, id: SourceIdentity): (k: int)
    requires n <= |events|
    ensures -1 <= k < n
    ensures k >= 0 ==> events[k].identity.resource == id.resource
    ensures k < 0 ==> forall j :: 0 <= j < n ==> events[j].identity.resource != id.resource
  {
    var k := LastWithKey(events, n, id);
    if k >= 0 then k else LastWithResource(events, n, id.resource)
  }

  /** The latest event of the same generation if there is one, else the latest of the resource, else none. */
  lemma PreviousExactly(events: seq<Event>, n: nat, id: SourceIdentity, k: int)
    requires n <= |events|
    ensures k == PreviousIndex(events, n, id) <==>
      || (0 <= k < n && HasKey(events[k], id) && forall j :: k < j < n ==> !HasKey(events[j], id))
      || ((forall j :: 0 <= j < n ==> !HasKey(events[j], id))
          && 0 <= k < n && events[k].identity.resource == id.resource
          && forall j :: k < j < n ==> events[j].identity.resource != id.resource)
      || (k == -1 && forall j :: 0 <= j < n ==> events[j].identity.resource != id.resource)
  {
    var p, q := LastWithKey(events, n, id), LastWithResource(events, n, id.resource);
  }

  /** What the present history says of event i; None for the first event of a resource. */
  function Verdict(events: seq<Event>, i: nat): Option<Decision>
    requires i < |events|
  {
    var k := PreviousIndex(events, i, events[i].identity);
    if k < 0 then None else Some(Classify(events[k], events[i], events[i].barrierBefore))
  }

  // ----- histories that differ only by settlements and uses -----

  /** What may still happen to a recorded event. */
  predicate Aged(before: Event, after: Event) {
    && after == before.(
         completion := after.completion,
         successful := after.successful,
         firstUseDistance := after.firstUseDistance,
         firstUseKind := after.firstUseKind)
    && (after.successful ==> before.successful)
    && (before.completion != Pending ==> after.completion == before.completion && after.successful == before.successful)
  }

  ghost predicate AgedHistory(before: seq<Event>, after: seq<Event>) {
    |before| == |after| && forall i :: 0 <= i < |before| ==> Aged(before[i], after[i])
  }

  lemma {:induction false} AgedLookups(before: seq<Event>, after: seq<Event>, n: nat, id: SourceIdentity)
    requires AgedHistory(before, after) && n <= |before|
    ensures LastWithKey(after, n, id) == LastWithKey(before, n, id)
    ensures LastWithResource(after, n, id.resource) == LastWithResource(before, n, id.resource)
    ensures PreviousIndex(after, n, id) == PreviousIndex(before, n, id)
  {
    if n > 0 {
      assert Aged(before[n - 1], after[n - 1]);
      AgedLookups(before, after, n - 1, id);
    }
  }

  /** Only a verdict that waited for completion can still change. */
  lemma ClassifyAged(p: Event, c: Event, p1: Event, c1: Event, barrier: bool)
    requires Aged(p, p1) && Aged(c, c1)
    ensures Classify(p1, c1, barrier) == Classify(p, c, barrier) || Classify(p, c, barrier) == NotCompleted
    ensures Classify(p, c, barrier) == NotCompleted ==>
      Classify(p1, c1, barrier) in {NotCompleted, NotSuccessful, Discarding, Overlapping, Candidate}
  {
  }

  /** A verdict after more settlements, against the verdict before. */
  ghost predicate Settles(earlier: Option<Decision>, later: Option<Decision>) {
    || later == earlier
    || (earlier == Some(NotCompleted) && later.Some?
        && later.value in {NotSuccessful, Discarding, Overlapping, Candidate})
  }

  lemma VerdictAged(before: seq<Event>, after: seq<Event>, i: nat)
    requires AgedHistory(before, after) && i < |before|
    ensures Settles(Verdict(before, i), Verdict(after, i))
  {
    assert Aged(before[i], after[i]);
    AgedLookups(before, after, i, before[i].identity);
    var k := PreviousIndex(before, i, before[i].identity);
    if k >= 0 {
      assert Aged(before[k], after[k]);
      ClassifyAged(before[k], before[i], after[k], after[i], before[i].barrierBefore);
    }
  }

  /** Appending events leaves earlier verdicts alone. */
  lemma {:induction false} LookupsPrefix(events: seq<Event>, more: seq<Event>, n: nat, id: SourceIdentity)
    requires n <= |events|
    ensures LastWithKey(events + more, n, id) == LastWithKey(events, n, id)
    ensures LastWithResource(events + more, n, id.resource) == LastWithResource(events, n, id.resource)
    ensures PreviousIndex(events + more, n, id) == PreviousIndex(events, n, id)
  {
    if n > 0 {
      LookupsPrefix(events, more, n - 1, id);
    }
  }

  lemma VerdictPrefix(events: seq<Event>, more: seq<Event>, i: nat)
    requires i < |events|
    ensures Verdict(events + more, i) == Verdict(events, i)
  {
    LookupsPrefix(events, more, i, events[i].identity);
  }

  // ----- totals over the candidates of a history -----

  type Weight = (Event, Event) -> nat

  /** What event i adds to a total: its weight against its predecessor if it is a candidate. */
  function Share(events: seq<Event>, i: nat, w: Weight): nat
    requires i < |events|
  {
    if Verdict(events, i) == Some(Candidate) then
      w(events[PreviousIndex(events, i, events[i].identity)], events[i])
    else 0
  }

  function Total(events: seq<Event>, n: nat, w: Weight): nat
    requires n <= |events|
  {
    if n == 0 then 0 else Total(events, n - 1, w) + Share(events, n - 1, w)
  }

  predicate Listed(e: Event, keys: seq<SourceIdentity>) {
    exists k :: 0 <= k < |keys| && HasKey(e, keys[k])
  }

  /** The same total over the events of the listed keys only. */
  function KeyTotal(events: seq<Event>, n: nat, keys: seq<SourceIdentity>, w: Weight): nat
    requires n <= |events|
  {
    if n == 0 then 0
    else
      KeyTotal(events, n - 1, keys, w)
        + if Listed(events[n - 1], keys) then Share(events, n - 1, w) else 0
  }

  lemma {:induction false} KeyTotalNone(events: seq<Event>, n: nat, w: Weight)
    requires n <= |events|
    ensures KeyTotal(events, n, [], w) == 0
  {
    if n > 0 {
      KeyTotalNone(events, n - 1, w);
    }
  }

  lemma {:induction false} KeyTotalAll(events: seq<Event>, n: nat, keys: seq<SourceIdentity>, w: Weight)
    requires n <= |events|
    requires forall i :: 0 <= i < n ==> Listed(events[i], keys)
    ensures KeyTotal(events, n, keys, w) == Total(events, n, w)
  {
    if n > 0 {
      KeyTotalAll(events, n - 1, keys, w);
    }
  }

  /** A key not listed before adds exactly the share of its own events. */
  lemma {:induction false} KeyTotalSnoc(events: seq<Event>, n: nat, keys: seq<SourceIdentity>, key: SourceIdentity, w: Weight)
    requires n <= |events|
    requires forall k :: 0 <= k < |keys| ==> !SameResourceGeneration(keys[k], key)
    ensures KeyTotal(events, n, keys + [key], w) == KeyTotal(events, n, keys, w) + KeyTotal(events, n, [key], w)
  {
    if n > 0 {
      KeyTotalSnoc(events, n - 1, keys, key, w);
      var e, all := events[n - 1], keys + [key];
      assert all[|keys|] == key && [key][0] == key;
      assert forall k :: 0 <= k < |keys| ==> all[k] == keys[k];
      assert Listed(e, all) <==> Listed(e, keys) || Listed(e, [key]);
      assert !(Listed(e, keys) && Listed(e, [key]));
    }
  }

  lemma {:induction false} TotalPrefix(events: seq<Event>, more: seq<Event>, n: nat, w: Weight)
    requires n <= |events|
    ensures Total(events + more, n, w) == Total(events, n, w)
  {
    hide Share;
    if n > 0 {
      TotalPrefix(events, more, n - 1, w);
      SharePrefix(events, more, n - 1, w);
    }
  }

  lemma SharePrefix(events: seq<Event>, more: seq<Event>, i: nat, w: Weight)
    requires i < |events|
    ensures Share(events + more, i, w) == Share(events, i, w)
  {
    hide LastWithKey, LastWithResource, Classify;
    VerdictPrefix(events, more, i);
    LookupsPrefix(events, more, i, events[i].identity);
  }

  /** A weight that looks at nothing a settlement or a use may change. */
  ghost predicate Timeless(w: Weight) {
    forall p: Event, c: Event, p1: Event, c1: Event :: Aged(p, p1) && Aged(c, c1) ==> w(p1, c1) == w(p, c)
  }

  lemma ShareAged(before: seq<Event>, after: seq<Event>, i: nat, w: Weight)
    requires AgedHistory(before, after) && i < |before| && Timeless(w)
    ensures Share(before, i, w) <= Share(after, i, w)
  {
    var k := PreviousIndex(before, i, before[i].identity);
    VerdictAged(before, after, i);
    AgedLookups(before, after, i, before[i].identity);
    assert Aged(before[i], after[i]);
    hide Classify;
    if k >= 0 {
      assert Aged(before[k], after[k]);
      assert w(after[k], after[i]) == w(before[k], before[i]);
    }
  }

  /** Settlements only add candidates. */
  lemma {:induction false} TotalAged(before: seq<Event>, after: seq<Event>, n: nat, w: Weight)
    requires AgedHistory(before, after) && n <= |before| && Timeless(w)
    ensures Total(before, n, w) <= Total(after, n, w)
  {
    hide Share;
    if n > 0 {
      TotalAged(before, after, n - 1, w);
      ShareAged(before, after, n - 1, w);
    }
  }

  // ----- how verdicts partition a history -----

  function Hit(v: Option<Decision>, w: Option<Decision>): nat {
    if v == w then 1 else 0
  }

  function Count(events: seq<Event>, n: nat, v: Option<Decision>): nat
    requires n <= |events|
  {
    if n == 0 then 0 else Count(events, n - 1, v) + Hit(Verdict(events, n - 1), v)
  }

  function Resources(events: seq<Event>, n: nat): set<nat>
    requires n <= |events|
  {
    if n == 0 then {} else Resources(events, n - 1) + {events[n - 1].identity.resource}
  }

  lemma {:induction false} ResourcesMember(events: seq<Event>, n: nat, r: nat)
    requires n <= |events|
    ensures r in Resources(events, n) <==> exists j :: 0 <= j < n && events[j].identity.resource == r
  {
    if n > 0 {
      ResourcesMember(events, n - 1, r);
    }
  }

  /** One event per distinct resource has nothing to be compared with. */
  lemma {:induction false} CountFirsts(events: seq<Event>, n: nat)
    requires n <= |events|
    ensures Count(events, n, None) == |Resources(events, n)|
  {
    if n > 0 {
      CountFirsts(events, n - 1);
      ResourcesMember(events, n - 1, events[n - 1].identity.resource);
      var seen, r := Resources(events, n - 1), events[n - 1].identity.resource;
      assert Verdict(events, n - 1) == None <==> r !in seen;
      if r in seen {
        assert seen + {r} == seen;
      }
    }
  }

  lemma OneHit(v: Option<Decision>)
    ensures
      1 == Hit(v, None) + Hit(v, Some(Candidate))
         + Hit(v, Some(OtherResource)) + Hit(v, Some(OtherGeneration))
         + Hit(v, Some(OtherTape)) + Hit(v, Some(WrongOrder))
         + Hit(v, Some(Barred)) + Hit(v, Some(NotSuccessful))
         + Hit(v, Some(NotCompleted)) + Hit(v, Some(Discarding)) + Hit(v, Some(Overlapping))
  {
    match v {
      case None =>
      case Some(d) =>
        match d {
          case Candidate => case OtherResource => case OtherGeneration => case OtherTape => case WrongOrder =>
          case Barred => case NotSuccessful => case NotCompleted => case Discarding => case Overlapping =>
        }
    }
  }

  /** Every event has exactly one verdict. */
  lemma {:induction false} VerdictsPartition(events: seq<Event>, n: nat)
    requires n <= |events|
    ensures
      n == Count(events, n, None) + Count(events, n, Some(Candidate))
         + Count(events, n, Some(OtherResource)) + Count(events, n, Some(OtherGeneration))
         + Count(events, n, Some(OtherTape)) + Count(events, n, Some(WrongOrder))
         + Count(events, n, Some(Barred)) + Count(events, n, Some(NotSuccessful))
         + Count(events, n, Some(NotCompleted)) + Count(events, n, Some(Discarding))
         + Count(events, n, Some(Overlapping))
  {
    hide Verdict, Hit;
    if n > 0 {
      VerdictsPartition(events, n - 1);
      OneHit(Verdict(events, n - 1));
    }
  }

  /** Issued identities rise along the history. */
  ghost predicate Ordered(events: seq<Event>) {
    forall i, j :: 0 <= i < j < |events| ==> Precedes(events[i].ordering, events[j].ordering)
  }

  /** Then no event is rejected for its resource or its order. */
  lemma {:induction false} NoOrderRejections(events: seq<Event>, n: nat)
    requires n <= |events| && Ordered(events)
    ensures Count(events, n, Some(OtherResource)) == 0 && Count(events, n, Some(WrongOrder)) == 0
  {
    if n > 0 {
      NoOrderRejections(events, n - 1);
      var k := PreviousIndex(events, n - 1, events[n - 1].identity);
      assert k >= 0 ==> Precedes(events[k].ordering, events[n - 1].ordering);
    }
  }
}
