/**
  One row of the copy-materialization ledger, shared by any number of threads
  without a lock. A run interleaves their atomic steps in any order; a weak
  compare-exchange may fail for no reason.
 */
module MaterializationLedger {

  const WIDTH: nat := 0x1_0000_0000_0000_0000

  /** Where a thread stands inside `retain` or `release`. */
  datatype Phase =
    | Idle
    | Adding(bytes: nat)
    | LoadingPeak(current: nat)
    | Raising(current: nat, seen: nat)
    | LoadingRetained(bytes: nat)
    | Taking(bytes: nat, seen: nat)

  datatype Row = Row(retained: nat, peak: nat, phases: seq<Phase>)

  datatype Action = CallRetain(bytes: nat) | CallRelease(bytes: nat) | Advance(spurious: bool)

  datatype Step = Step(thread: nat, action: Action)

  function Start(threads: nat): Row {
    Row(0, 0, seq(threads, _ => Idle))
  }

  /** One atomic step of one thread; a call while busy, or of no thread, does nothing. */
  function Next(r: Row, s: Step): Row {
    if s.thread >= |r.phases| then r
    else
      match s.action
      case CallRetain(bytes) => if r.phases[s.thread] == Idle && bytes != 0 then r.(phases := r.phases[s.thread := Adding(bytes)]) else r
      case CallRelease(bytes) => if r.phases[s.thread] == Idle && bytes != 0 then r.(phases := r.phases[s.thread := LoadingRetained(bytes)]) else r
      case Advance(spurious) => Advanced(r, s.thread, spurious)
  }

  function Advanced(r: Row, t: nat, spurious: bool): Row
    requires t < |r.phases|
  {
    match r.phases[t]
    case Idle => r
    case Adding(bytes) =>
      var current := (r.retained + bytes) % WIDTH;
      r.(retained := current, phases := r.phases[t := LoadingPeak(current)])
    case LoadingPeak(current) => r.(phases := r.phases[t := Raising(current, r.peak)])
    case Raising(current, seen) =>
      if seen >= current then r.(phases := r.phases[t := Idle])
      else if r.peak == seen && !spurious then r.(peak := current, phases := r.phases[t := Idle])
      else r.(phases := r.phases[t := Raising(current, r.peak)])
    case LoadingRetained(bytes) => r.(phases := r.phases[t := Taking(bytes, r.retained)])
    case Taking(bytes, seen) =>
      if seen == 0 then r.(phases := r.phases[t := Idle])
      else if r.retained == seen && !spurious then
        r.(retained := if seen > bytes then seen - bytes else 0, phases := r.phases[t := Idle])
      else r.(phases := r.phases[t := Taking(bytes, r.retained)])
  }

  function After(threads: nat, run: seq<Step>): Row {
    if run == [] then Start(threads)
    else Next(After(threads, run[..|run| - 1]), run[|run| - 1])
  }

  /** The largest value the counter ever held. */
  function Highest(threads: nat, run: seq<Step>): nat {
    if run == [] then 0
    else
      var before, now := Highest(threads, run[..|run| - 1]), After(threads, run).retained;
      if now > before then now else before
  }

  // ----- the peak -----

  /** A retain has moved the counter and not yet settled the peak. */
  predicate Carries(p: Phase, current: nat) {
    (p.LoadingPeak? || p.Raising?) && p.current == current
  }

  predicate InRetain(p: Phase) {
    p.Adding? || p.LoadingPeak? || p.Raising?
  }

  predicate Carried(phases: seq<Phase>, current: nat) {
    exists t: nat :: t < |phases| && Carries(phases[t], current)
  }

  /** The highest value is the peak, or still carried by a retain; nothing is above it. */
  ghost predicate PeakRight(r: Row, highest: nat) {
    && r.retained <= highest && r.peak <= highest
    && (forall t: nat :: t < |r.phases| && (r.phases[t].LoadingPeak? || r.phases[t].Raising?) ==> r.phases[t].current <= highest)
    && (forall t: nat :: t < |r.phases| && r.phases[t].Raising? ==> r.phases[t].seen <= r.peak)
    && (r.peak == highest || Carried(r.phases, highest))
  }

  lemma CarriedKeeps(phases: seq<Phase>, t: nat, p: Phase, current: nat)
    requires t < |phases| && Carried(phases, current) && (Carries(phases[t], current) ==> Carries(p, current))
    ensures Carried(phases[t := p], current)
  {
    var w: nat :| w < |phases| && Carries(phases[w], current);
    assert w == t || Carries(phases[t := p][w], current);
    assert w == t ==> Carries(phases[t := p][t], current);
  }

  lemma PeakStep(r: Row, s: Step, highest: nat)
    requires PeakRight(r, highest)
    ensures
      var next := Next(r, s);
      PeakRight(next, if next.retained > highest then next.retained else highest)
  {
    var next := Next(r, s);
    var t := s.thread;
    if t < |r.phases| {
      var p := next.phases[t];
      if next.retained > highest {
        assert Carries(p, next.retained);
      } else if Carried(r.phases, highest) && (Carries(r.phases[t], highest) ==> Carries(p, highest)) {
        CarriedKeeps(r.phases, t, p, highest);
        hide Carried;
      }
    }
  }

  lemma {:induction false} PeakAlways(threads: nat, run: seq<Step>)
    ensures PeakRight(After(threads, run), Highest(threads, run))
  {
    if run != [] {
      PeakAlways(threads, run[..|run| - 1]);
      PeakStep(After(threads, run[..|run| - 1]), run[|run| - 1], Highest(threads, run[..|run| - 1]));
      hide PeakRight, Next;
    }
  }

  /** With no retain in flight the peak is the largest value the counter ever held. */
  lemma PeakIsHighest(threads: nat, run: seq<Step>)
    ensures After(threads, run).peak <= Highest(threads, run)
    ensures (forall t: nat :: t < |After(threads, run).phases| ==> !InRetain(After(threads, run).phases[t])) ==>
      After(threads, run).peak == Highest(threads, run)
  {
    PeakAlways(threads, run);
  }

  /** Where it falls short of it, some retain in flight still carries that value. */
  lemma PeakFallsShort(threads: nat, run: seq<Step>)
    ensures
      var r := After(threads, run);
      r.peak != Highest(threads, run) ==>
        exists t: nat :: t < |r.phases| && Carries(r.phases[t], Highest(threads, run)) && InRetain(r.phases[t])
  {
    PeakAlways(threads, run);
    var r, highest := After(threads, run), Highest(threads, run);
    if r.peak != highest {
      var t: nat :| t < |r.phases| && Carries(r.phases[t], highest);
      assert InRetain(r.phases[t]);
    }
  }

  lemma {:induction false} PeakRises(threads: nat, run: seq<Step>, more: seq<Step>)
    ensures After(threads, run).peak <= After(threads, run + more).peak
  {
    hide Next, PeakRight;
    if more == [] {
      assert run + more == run;
    } else {
      var all := run + more;
      assert all[..|all| - 1] == run + more[..|more| - 1];
      PeakRises(threads, run, more[..|more| - 1]);
      PeakAlways(threads, all[..|all| - 1]);
      PeakStepRises(After(threads, all[..|all| - 1]), all[|all| - 1], Highest(threads, all[..|all| - 1]));
    }
  }

  lemma PeakStepRises(r: Row, s: Step, highest: nat)
    requires PeakRight(r, highest)
    ensures r.peak <= Next(r, s).peak
  {
  }

  /** A snapshot reads the counter, then the peak; begun with no retain in flight it never shows the counter above the peak. */
  lemma SnapshotBelowPeak(threads: nat, run: seq<Step>, between: seq<Step>)
    requires forall t: nat :: t < |After(threads, run).phases| ==> !InRetain(After(threads, run).phases[t])
    ensures After(threads, run).retained <= After(threads, run + between).peak
  {
    PeakIsHighest(threads, run);
    PeakAlways(threads, run);
    PeakRises(threads, run, between);
    hide After;
  }

  /** Exactly: no snapshot begun here can show the counter above the peak unless it is above it now. */
  lemma SnapshotNeverAbove(threads: nat, run: seq<Step>)
    ensures
      (forall between: seq<Step> :: After(threads, run).retained <= After(threads, run + between).peak)
      <==> After(threads, run).retained <= After(threads, run).peak
  {
    var none: seq<Step> := [];
    assert run + none == run;
    forall between: seq<Step> | After(threads, run).retained <= After(threads, run).peak
      ensures After(threads, run).retained <= After(threads, run + between).peak
    {
      PeakRises(threads, run, between);
    }
    hide After;
  }

  /** In the middle of a retain it may be. */
  lemma SnapshotAbovePeak()
    ensures
      var r := After(1, [Step(0, CallRetain(5)), Step(0, Advance(false))]);
      r.retained == 5 && r.peak == 0
  {
    var a, b := Step(0, CallRetain(5)), Step(0, Advance(false));
    assert [a, b][..1] == [a] && [a][..0] == [];
    assert After(1, []).phases == [Idle];
    assert After(1, [a]) == Row(0, 0, [Adding(5)]);
  }

  // ----- the counter -----

  /** Bytes added by retains less bytes of the releases called. */
  function Credit(threads: nat, run: seq<Step>): int {
    if run == [] then 0
    else
      var before := After(threads, run[..|run| - 1]);
      Credit(threads, run[..|run| - 1]) + CreditOf(before, run[|run| - 1])
  }

  function CreditOf(r: Row, s: Step): int {
    if s.thread >= |r.phases| then 0
    else
      match s.action
      case CallRetain(_) => 0
      case CallRelease(bytes) => if r.phases[s.thread] == Idle then 0 - (bytes as int) else 0
      case Advance(_) => if r.phases[s.thread].Adding? then r.phases[s.thread].bytes else 0
  }

  /** What a release in flight has yet to take. */
  function Owed(p: Phase): nat {
    if p.LoadingRetained? || p.Taking? then p.bytes else 0
  }

  function InFlight(phases: seq<Phase>): nat {
    if phases == [] then 0 else InFlight(phases[..|phases| - 1]) + Owed(phases[|phases| - 1])
  }

  /** The step loses bytes: the addition wraps, or a release finds less than it has to take. */
  predicate Loses(r: Row, s: Step) {
    && s.thread < |r.phases| && s.action.Advance?
    && match r.phases[s.thread]
       case Adding(bytes) => r.retained + bytes >= WIDTH
       case Taking(bytes, seen) => seen == 0 || (r.retained == seen && !s.action.spurious && seen < bytes)
       case _ => false
  }

  predicate Lossless(threads: nat, run: seq<Step>) {
    run == [] || (Lossless(threads, run[..|run| - 1]) && !Loses(After(threads, run[..|run| - 1]), run[|run| - 1]))
  }

  predicate Exact(threads: nat, run: seq<Step>) {
    After(threads, run).retained == Credit(threads, run) + InFlight(After(threads, run).phases)
  }

  predicate AlwaysExact(threads: nat, run: seq<Step>) {
    Exact(threads, run) && (run == [] || AlwaysExact(threads, run[..|run| - 1]))
  }

  lemma {:induction false} InFlightUpdate(phases: seq<Phase>, t: nat, p: Phase)
    requires t < |phases|
    ensures InFlight(phases[t := p]) == InFlight(phases) - Owed(phases[t]) + Owed(p)
  {
    var last := |phases| - 1;
    if t < last {
      assert phases[t := p][..last] == phases[..last][t := p];
      InFlightUpdate(phases[..last], t, p);
    } else {
      assert phases[t := p][..last] == phases[..last];
    }
  }

  lemma {:induction false} NothingInFlight(phases: seq<Phase>)
    requires forall t: nat :: t < |phases| ==> Owed(phases[t]) == 0
    ensures InFlight(phases) == 0
  {
    if phases != [] {
      NothingInFlight(phases[..|phases| - 1]);
    }
  }

  predicate Bounded(r: Row) {
    r.retained < WIDTH && forall t: nat :: t < |r.phases| ==> WellPhased(r.phases[t])
  }

  predicate WellPhased(p: Phase) {
    && (p.Adding? || p.LoadingRetained? || p.Taking? ==> p.bytes > 0)
    && (p.Taking? ==> p.seen < WIDTH)
  }

  lemma {:induction false} AlwaysBounded(threads: nat, run: seq<Step>)
    ensures Bounded(After(threads, run))
  {
    if run != [] {
      AlwaysBounded(threads, run[..|run| - 1]);
    }
  }

  /** One step keeps the books exactly when it loses nothing. */
  lemma ExactStep(r: Row, s: Step, credit: int)
    requires Bounded(r) && r.retained == credit + InFlight(r.phases)
    ensures Next(r, s).retained == credit + CreditOf(r, s) + InFlight(Next(r, s).phases) <==> !Loses(r, s)
  {
    if s.thread < |r.phases| {
      NextMovesOne(r, s);
      NextLoses(r, s);
      hide InFlight, Next, Loses, CreditOf, Owed, Bounded;
    }
  }

  lemma NextMovesOne(r: Row, s: Step)
    requires s.thread < |r.phases|
    ensures |Next(r, s).phases| == |r.phases|
    ensures InFlight(Next(r, s).phases)
         == InFlight(r.phases) - Owed(r.phases[s.thread]) + Owed(Next(r, s).phases[s.thread])
  {
    var p := Next(r, s).phases[s.thread];
    InFlightUpdate(r.phases, s.thread, p);
    assert Next(r, s).phases == r.phases[s.thread := p];
    hide InFlight, Owed;
  }

  /** What a step does to the counter, against what it does to the thread. */
  lemma NextLoses(r: Row, s: Step)
    requires Bounded(r) && s.thread < |r.phases|
    ensures |Next(r, s).phases| == |r.phases|
    ensures
      Next(r, s).retained - r.retained == CreditOf(r, s) + Owed(Next(r, s).phases[s.thread]) - Owed(r.phases[s.thread])
      <==> !Loses(r, s)
  {
    assert WellPhased(r.phases[s.thread]);
  }

  lemma ExactUnfold(threads: nat, run: seq<Step>)
    requires run != []
    ensures
      var r, s := After(threads, run[..|run| - 1]), run[|run| - 1];
      Exact(threads, run) <==>
        Next(r, s).retained == Credit(threads, run[..|run| - 1]) + CreditOf(r, s) + InFlight(Next(r, s).phases)
  {
  }

  /** The counter is the credit, up to releases in flight, all along a run exactly when no step loses bytes. */
  lemma {:induction false} ExactIffLossless(threads: nat, run: seq<Step>)
    ensures AlwaysExact(threads, run) <==> Lossless(threads, run)
  {
    if run != [] {
      var before := run[..|run| - 1];
      ExactIffLossless(threads, before);
      if Lossless(threads, before) {
        AlwaysBounded(threads, before);
        ExactHere(threads, before);
        ExactStep(After(threads, before), run[|run| - 1], Credit(threads, before));
      }
      ExactUnfold(threads, run);
      hide Next, Loses, InFlight, CreditOf, Exact;
    } else {
      NothingInFlight(Start(threads).phases);
    }
  }

  lemma ExactHere(threads: nat, run: seq<Step>)
    requires AlwaysExact(threads, run)
    ensures Exact(threads, run)
  {
  }

  /** Every release follows a retain that covers it, and the total stays inside the counter's width. */
  predicate Disciplined(threads: nat, run: seq<Step>) {
    run == []
    || (&& Disciplined(threads, run[..|run| - 1])
        && Credit(threads, run) >= 0
        && Credit(threads, run) + InFlight(After(threads, run).phases) < WIDTH)
  }

  lemma {:induction false} OwedIsPart(phases: seq<Phase>, t: nat)
    requires t < |phases|
    ensures Owed(phases[t]) <= InFlight(phases)
  {
    var last := |phases| - 1;
    if t < last {
      OwedIsPart(phases[..last], t);
    }
  }

  /** A release in flight that has read the counter never read less than it owes unless it has to read again. */
  predicate SeenEnough(r: Row) {
    forall t: nat :: t < |r.phases| && r.phases[t].Taking? ==> r.phases[t].seen >= r.phases[t].bytes
  }

  lemma SeenStep(r: Row, s: Step, credit: int)
    requires Bounded(r) && SeenEnough(r) && credit >= 0 && r.retained == credit + InFlight(r.phases)
    requires credit + CreditOf(r, s) + InFlight(Next(r, s).phases) < WIDTH
    ensures !Loses(r, s) && SeenEnough(Next(r, s))
  {
    if s.thread < |r.phases| {
      var p := Next(r, s).phases[s.thread];
      assert WellPhased(r.phases[s.thread]);
      OwedIsPart(r.phases, s.thread);
      InFlightUpdate(r.phases, s.thread, p);
      assert Next(r, s).phases == r.phases[s.thread := p];
      hide InFlight;
    }
  }

  lemma {:induction false} DisciplinedKeeps(threads: nat, run: seq<Step>)
    requires Disciplined(threads, run)
    ensures Lossless(threads, run) && SeenEnough(After(threads, run)) && Exact(threads, run)
  {
    if run != [] {
      var before := run[..|run| - 1];
      DisciplinedKeeps(threads, before);
      AlwaysBounded(threads, before);
      CreditNotNegative(threads, before);
      SeenStep(After(threads, before), run[|run| - 1], Credit(threads, before));
      ExactStep(After(threads, before), run[|run| - 1], Credit(threads, before));
      ExactUnfold(threads, run);
      hide Next, Loses, InFlight, CreditOf, SeenEnough;
    } else {
      NothingInFlight(Start(threads).phases);
    }
  }

  lemma CreditNotNegative(threads: nat, run: seq<Step>)
    requires Disciplined(threads, run)
    ensures Credit(threads, run) >= 0
  {
  }

  /** Then, with nothing in flight, the counter is the outstanding sum. */
  lemma CounterIsOutstanding(threads: nat, run: seq<Step>)
    requires Disciplined(threads, run)
    requires forall t: nat :: t < |After(threads, run).phases| ==> After(threads, run).phases[t] == Idle
    ensures After(threads, run).retained == Credit(threads, run)
  {
    DisciplinedKeeps(threads, run);
    NothingInFlight(After(threads, run).phases);
  }
}
