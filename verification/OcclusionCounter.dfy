/**
  The sample counter of an occlusion result: threads add to it with a load and a
  weak compare-exchange, and the sum stops at the largest 64-bit value.
 */
module OcclusionCounter {

  const MAX: nat := 0xFFFF_FFFF_FFFF_FFFF

  function AddSaturated(a: nat, b: nat): nat
    requires a <= MAX && b <= MAX
  {
    if b > MAX - a then MAX else a + b
  }

  datatype Phase = Idle | Loading(value: nat) | Swapping(value: nat, seen: nat)

  datatype Samples = Samples(samples: nat, phases: seq<Phase>)

  datatype Action = CallAdd(value: nat) | Advance(spurious: bool)

  datatype Step = Step(thread: nat, action: Action)

  predicate WellPhased(p: Phase) {
    match p
    case Idle => true
    case Loading(value) => value <= MAX
    case Swapping(value, seen) => value <= MAX && seen <= MAX
  }

  predicate Bounded(s: Samples) {
    s.samples <= MAX && forall t: nat :: t < |s.phases| ==> WellPhased(s.phases[t])
  }

  /** One atomic step; an argument that is not a 64-bit value, a busy thread or no thread does nothing. */
  function Next(s: Samples, e: Step): (r: Samples)
    requires Bounded(s)
    ensures Bounded(r)
  {
    if e.thread >= |s.phases| then s
    else
      var p := s.phases[e.thread];
      match e.action
      case CallAdd(value) =>
        if p == Idle && value <= MAX then s.(phases := s.phases[e.thread := Loading(value)]) else s
      case Advance(spurious) =>
        match p
        case Idle => s
        case Loading(value) => s.(phases := s.phases[e.thread := Swapping(value, s.samples)])
        case Swapping(value, seen) =>
          if s.samples == seen && !spurious then
            Samples(AddSaturated(seen, value), s.phases[e.thread := Idle])
          else s.(phases := s.phases[e.thread := Swapping(value, s.samples)])
  }

  function After(threads: nat, run: seq<Step>): (s: Samples)
    ensures Bounded(s)
  {
    if run == [] then Samples(0, seq(threads, _ => Idle))
    else Next(After(threads, run[..|run| - 1]), run[|run| - 1])
  }

  /** Everything the accepted calls asked to add. */
  function Requested(threads: nat, run: seq<Step>): nat {
    if run == [] then 0
    else
      var before, e := After(threads, run[..|run| - 1]), run[|run| - 1];
      Requested(threads, run[..|run| - 1])
        + if e.thread < |before.phases| && before.phases[e.thread] == Idle && e.action.CallAdd? && e.action.value <= MAX
          then e.action.value else 0
  }

  function ToAdd(p: Phase): nat {
    if p == Idle then 0 else p.value
  }

  function InFlight(phases: seq<Phase>): nat {
    if phases == [] then 0 else InFlight(phases[..|phases| - 1]) + ToAdd(phases[|phases| - 1])
  }

  lemma {:induction false} InFlightUpdate(phases: seq<Phase>, t: nat, p: Phase)
    requires t < |phases|
    ensures InFlight(phases[t := p]) == InFlight(phases) - ToAdd(phases[t]) + ToAdd(p)
  {
    var last := |phases| - 1;
    if t < last {
      assert phases[t := p][..last] == phases[..last][t := p];
      InFlightUpdate(phases[..last], t, p);
    } else {
      assert phases[t := p][..last] == phases[..last];
    }
  }

  lemma {:induction false} NothingInFlight(phases: seq<Phase>)
    requires forall t: nat :: t < |phases| ==> phases[t] == Idle
    ensures InFlight(phases) == 0
  {
    if phases != [] {
      NothingInFlight(phases[..|phases| - 1]);
    }
  }

  lemma {:induction false} InFlightWithin(threads: nat, run: seq<Step>)
    ensures InFlight(After(threads, run).phases) <= Requested(threads, run)
    ensures
      var landed := Requested(threads, run) - InFlight(After(threads, run).phases);
      After(threads, run).samples == if landed > MAX then MAX else landed
  {
    if run == [] {
      NothingInFlight(After(threads, run).phases);
    } else {
      var before, e := run[..|run| - 1], run[|run| - 1];
      InFlightWithin(threads, before);
      var s := After(threads, before);
      if e.thread < |s.phases| {
        InFlightUpdate(s.phases, e.thread, After(threads, run).phases[e.thread]);
        assert After(threads, run).phases == s.phases[e.thread := After(threads, run).phases[e.thread]];
        OwnPart(s.phases, e.thread);
        hide InFlight;
      }
    }
  }

  lemma {:induction false} OwnPart(phases: seq<Phase>, t: nat)
    requires t < |phases|
    ensures ToAdd(phases[t]) <= InFlight(phases)
  {
    var last := |phases| - 1;
    if t < last {
      OwnPart(phases[..last], t);
    }
  }

  /** Once every add has returned, the counter is the saturated sum. */
  lemma SaturatedSum(threads: nat, run: seq<Step>)
    requires forall t: nat :: t < |After(threads, run).phases| ==> After(threads, run).phases[t] == Idle
    ensures After(threads, run).samples == if Requested(threads, run) > MAX then MAX else Requested(threads, run)
  {
    InFlightWithin(threads, run);
    NothingInFlight(After(threads, run).phases);
  }
}
