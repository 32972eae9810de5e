/**
  Folding a record stream into batched submissions: draws of one state share a
  run, runs share a transaction, and everything observable cuts both.
 */
module DrawBatching {

  datatype Facts = Facts(
    batchableDraw: bool, mutatesDeviceState: bool, referencesResources: bool, barrier: bool, stateBlockRecording: bool)

  datatype RecordClass = BatchableDraw | PureProjection | ObservableEffect

  function ClassifyRecord(facts: Facts): RecordClass {
    if facts.stateBlockRecording then ObservableEffect
    else if facts.batchableDraw then BatchableDraw
    else if facts.mutatesDeviceState && !facts.referencesResources && !facts.barrier then PureProjection
    else ObservableEffect
  }

  datatype Admission = Start | Extend | FlushAndStart | Unbatchable

  datatype Cut = NoCut | UnbatchableCut | IdentityCut | CapacityCut

  datatype Decision = Decision(admission: Admission, cut: Cut)

  const U32_MAX: nat := 0xFFFF_FFFF

  function Admit(batchable: bool, openDraws: nat, open: nat, incoming: nat, maxDraws: nat): Decision {
    if !batchable then Decision(Unbatchable, if openDraws != 0 then UnbatchableCut else NoCut)
    else if openDraws == 0 then Decision(Start, NoCut)
    else if open != incoming then Decision(FlushAndStart, IdentityCut)
    else if maxDraws == 0 || openDraws >= maxDraws then Decision(FlushAndStart, CapacityCut)
    else Decision(Extend, NoCut)
  }

  /**
    `identity` stands for everything one batched submission collapses into a single
    record; `isolated` for user-pointer data, a triangle fan or tracing.
   */
  datatype Record = Record(id: nat, facts: Facts, identity: nat, isolated: bool)

  datatype Run = Run(identity: nat, firstDraw: nat, drawCount: nat) {
    function End(): nat {
      firstDraw + drawCount
    }
  }

  datatype Submission =
    | Batch(runs: seq<Run>, draws: seq<nat>)
    | Alone(draw: nat, identity: nat)
    | Effect(record: nat)

  // ----- what the queue sees, draw by draw -----

  /** A draw shown under its identity, by itself or as part of a batch, or an observable effect. */
  datatype Event = Drawn(draw: nat, identity: nat, alone: bool) | Done(record: nat)

  function Under(draws: seq<nat>, identity: nat): (events: seq<Event>)
    ensures |events| == |draws|
  {
    seq(|draws|, i requires 0 <= i < |draws| => Drawn(draws[i], identity, false))
  }

  /** Runs cut the draws into consecutive pieces. */
  predicate Tiled(runs: seq<Run>, draws: seq<nat>) {
    if runs == [] then draws == []
    else
      var last := runs[|runs| - 1];
      last.drawCount > 0 && last.End() == |draws| && Tiled(runs[..|runs| - 1], draws[..last.firstDraw])
  }

  function BatchEvents(runs: seq<Run>, draws: seq<nat>): seq<Event>
    requires Tiled(runs, draws)
  {
    if runs == [] then []
    else
      var last := runs[|runs| - 1];
      BatchEvents(runs[..|runs| - 1], draws[..last.firstDraw]) + Under(draws[last.firstDraw..], last.identity)
  }

  /** What submitting every record by itself shows. */
  function PerDraw(records: seq<Record>): seq<Event> {
    if records == [] then []
    else
      var r := records[|records| - 1];
      PerDraw(records[..|records| - 1]) +
        match ClassifyRecord(r.facts)
        case PureProjection => []
        case ObservableEffect => [Done(r.id)]
        case BatchableDraw => [Drawn(r.id, r.identity, r.isolated)]
  }

  predicate SubmissionRight(s: Submission, maxDraws: nat) {
    s.Batch? ==>
      && s.runs != [] && Tiled(s.runs, s.draws)
      && |s.draws| <= (if maxDraws == 0 then 1 else maxDraws)
      && forall i :: 0 < i < |s.runs| ==> s.runs[i - 1].identity != s.runs[i].identity
  }

  predicate Full(s: Submission, maxDraws: nat) {
    s.Batch? && |s.draws| >= maxDraws
  }

  /** Every submission is in order, and two neighbouring batches could not have been one. */
  predicate LogRight(log: seq<Submission>, maxDraws: nat) {
    && (forall i :: 0 <= i < |log| ==> SubmissionRight(log[i], maxDraws))
    && (forall i :: 0 < i < |log| && log[i].Batch? && log[i - 1].Batch? ==> Full(log[i - 1], maxDraws))
  }

  function LogEvents(log: seq<Submission>, maxDraws: nat): seq<Event>
    requires LogRight(log, maxDraws)
  {
    if log == [] then []
    else
      var last := log[|log| - 1];
      LogEvents(log[..|log| - 1], maxDraws) +
        match last
        case Batch(runs, draws) => BatchEvents(runs, draws)
        case Alone(draw, identity) => [Drawn(draw, identity, true)]
        case Effect(record) => [Done(record)]
  }

  lemma LogSnoc(log: seq<Submission>, s: Submission, maxDraws: nat)
    requires LogRight(log, maxDraws) && SubmissionRight(s, maxDraws)
    requires log != [] && s.Batch? && log[|log| - 1].Batch? ==> Full(log[|log| - 1], maxDraws)
    ensures LogRight(log + [s], maxDraws)
    ensures LogEvents(log + [s], maxDraws) == LogEvents(log, maxDraws) +
      match s
      case Batch(runs, draws) => BatchEvents(runs, draws)
      case Alone(draw, identity) => [Drawn(draw, identity, true)]
      case Effect(record) => [Done(record)]
  {
    assert (log + [s])[..|log|] == log;
  }

  lemma ExtendRun(runs: seq<Run>, draws: seq<nat>, draw: nat)
    requires Tiled(runs, draws) && runs != []
    ensures
      var last := runs[|runs| - 1];
      var grown := runs[|runs| - 1 := last.(drawCount := last.drawCount + 1)];
      && Tiled(grown, draws + [draw])
      && BatchEvents(grown, draws + [draw]) == BatchEvents(runs, draws) + [Drawn(draw, last.identity, false)]
  {
    var last := runs[|runs| - 1];
    var grown := runs[|runs| - 1 := last.(drawCount := last.drawCount + 1)];
    assert grown[..|grown| - 1] == runs[..|runs| - 1];
    assert (draws + [draw])[..last.firstDraw] == draws[..last.firstDraw];
    assert (draws + [draw])[last.firstDraw..] == draws[last.firstDraw..] + [draw];
    UnderSnoc(draws[last.firstDraw..], draw, last.identity);
  }

  lemma UnderSnoc(draws: seq<nat>, draw: nat, identity: nat)
    ensures Under(draws + [draw], identity) == Under(draws, identity) + [Drawn(draw, identity, false)]
  {
  }

  lemma OpenRun(runs: seq<Run>, draws: seq<nat>, draw: nat, identity: nat)
    requires Tiled(runs, draws)
    ensures
      var grown := runs + [Run(identity, |draws|, 1)];
      && Tiled(grown, draws + [draw])
      && BatchEvents(grown, draws + [draw]) == BatchEvents(runs, draws) + [Drawn(draw, identity, false)]
  {
    var grown := runs + [Run(identity, |draws|, 1)];
    assert grown[..|runs|] == runs;
    assert (draws + [draw])[..|draws|] == draws;
    assert (draws + [draw])[|draws|..] == [draw];
    assert Under([draw], identity) == [Drawn(draw, identity, false)];
  }

  lemma AloneIsRight(s: Submission, maxDraws: nat)
    requires !s.Batch?
    ensures SubmissionRight(s, maxDraws)
  {
  }

  lemma NoEvents(draws: seq<nat>)
    requires Tiled([], draws)
    ensures BatchEvents([], draws) == []
  {
  }

  lemma NoRuns(runs: seq<Run>, draws: seq<nat>)
    requires Tiled(runs, draws)
    ensures runs == [] <==> draws == []
    ensures runs == [] ==> BatchEvents(runs, draws) == []
  {
  }

  lemma NothingReplayed(records: seq<Record>)
    ensures PerDraw(records[..0]) == []
  {
  }

  lemma {:induction false} PerDrawPrefix(records: seq<Record>, i: nat)
    requires i <= |records|
    ensures PerDraw(records[..i]) <= PerDraw(records)
    decreases |records|
  {
    if i == |records| {
      assert records[..i] == records;
    } else {
      var init := records[..|records| - 1];
      assert init[..i] == records[..i];
      PerDrawPrefix(init, i);
    }
  }

  /** The runs with one more draw: in the last one if it is of the same identity. */
  function Grown(runs: seq<Run>, n: nat, incoming: nat): seq<Run> {
    if runs != [] && runs[|runs| - 1].identity == incoming then
      var last := runs[|runs| - 1];
      runs[|runs| - 1 := last.(drawCount := last.drawCount + 1)]
    else runs + [Run(incoming, n, 1)]
  }

  lemma BatchGrows(runs: seq<Run>, draws: seq<nat>, draw: nat, incoming: nat, maxDraws: nat)
    requires Tiled(runs, draws) && (runs != [] ==> SubmissionRight(Batch(runs, draws), maxDraws) && |draws| < maxDraws)
    ensures
      var grown := Grown(runs, |draws|, incoming);
      && Tiled(grown, draws + [draw])
      && BatchEvents(grown, draws + [draw]) == BatchEvents(runs, draws) + [Drawn(draw, incoming, false)]
      && SubmissionRight(Batch(grown, draws + [draw]), maxDraws)
      && grown[|grown| - 1].identity == incoming
  {
    if runs != [] && runs[|runs| - 1].identity == incoming {
      ExtendRun(runs, draws, draw);
    } else {
      OpenRun(runs, draws, draw, incoming);
    }
    hide BatchEvents;
  }

  lemma RunWithinBatch(runs: seq<Run>, draws: seq<nat>)
    requires Tiled(runs, draws)
    ensures runs != [] ==> 0 < runs[|runs| - 1].drawCount <= |draws|
  {
  }

  lemma PerDrawSnoc(records: seq<Record>, i: nat)
    requires i < |records|
    ensures PerDraw(records[..i + 1]) == PerDraw(records[..i]) +
      match ClassifyRecord(records[i].facts)
      case PureProjection => []
      case ObservableEffect => [Done(records[i].id)]
      case BatchableDraw => [Drawn(records[i].id, records[i].identity, records[i].isolated)]
  {
    assert records[..i + 1][..i] == records[..i];
  }

  // ----- what each record shows, from its facts -----

  /** A record the queue sees nothing of: it only changes device state, and no state block is recording. */
  predicate Silent(facts: Facts) {
    && !facts.stateBlockRecording && !facts.batchableDraw
    && facts.mutatesDeviceState && !facts.referencesResources && !facts.barrier
  }

  /** Record k shows the events from at[k] to at[k + 1]: none, its draw, or its effect. */
  predicate ShownAt(events: seq<Event>, r: Record, from: nat, to: nat) {
    && from <= to <= |events|
    && (to == from <==> Silent(r.facts))
    && (!Silent(r.facts) ==>
          && to == from + 1
          && events[from] == if r.facts.batchableDraw && !r.facts.stateBlockRecording
                             then Drawn(r.id, r.identity, r.isolated) else Done(r.id))
  }

  /** The events are those of the records, one after another, and no others. */
  predicate Shows(events: seq<Event>, records: seq<Record>, at: seq<nat>) {
    && |at| == |records| + 1 && at[0] == 0 && at[|records|] == |events|
    && forall k :: 0 <= k < |records| ==> ShownAt(events, records[k], at[k], at[k + 1])
  }

  lemma {:induction false} PerDrawShows(records: seq<Record>) returns (at: seq<nat>)
    ensures Shows(PerDraw(records), records, at)
  {
    if records == [] {
      at := [0];
    } else {
      var n := |records| - 1;
      var events := PerDraw(records);
      at := PerDrawShows(records[..n]);
      at := at + [|events|];
      PerDrawSnoc(records, n);
      assert records[..n + 1] == records;
      var was := PerDraw(records[..n]);
      hide PerDraw;
      forall k | 0 <= k < |records| ensures ShownAt(events, records[k], at[k], at[k + 1]) {
        if k < n {
          assert ShownAt(was, records[..n][k], at[k], at[k + 1]);
        }
      }
    }
  }

  /** Where submission l begins in the queue's view. */
  function StartOf(log: seq<Submission>, maxDraws: nat, l: nat): nat
    requires LogRight(log, maxDraws) && l <= |log|
  {
    LogStarts(log, maxDraws, l);
    |LogEvents(log[..l], maxDraws)|
  }

  lemma LogStarts(log: seq<Submission>, maxDraws: nat, l: nat)
    requires LogRight(log, maxDraws) && l <= |log|
    ensures LogRight(log[..l], maxDraws)
  {
  }

  lemma {:induction false} UnderBatch(runs: seq<Run>, draws: seq<nat>, k: nat)
    requires Tiled(runs, draws) && k < |draws|
    ensures |BatchEvents(runs, draws)| == |draws|
    ensures BatchEvents(runs, draws)[k].Drawn? && BatchEvents(runs, draws)[k].draw == draws[k] && !BatchEvents(runs, draws)[k].alone
    decreases |runs|
  {
    NoRuns(runs, draws);
    var last := runs[|runs| - 1];
    if last.firstDraw > 0 {
      UnderBatch(runs[..|runs| - 1], draws[..last.firstDraw], if k < last.firstDraw then k else 0);
    } else {
      NoRuns(runs[..|runs| - 1], draws[..last.firstDraw]);
    }
  }

  /** A batch shows its draws without a break, and nothing else meanwhile. */
  lemma {:induction false} BatchUnbroken(log: seq<Submission>, maxDraws: nat, l: nat, k: nat)
    requires LogRight(log, maxDraws) && l < |log| && log[l].Batch? && k < |log[l].draws|
    ensures StartOf(log, maxDraws, l) + k < |LogEvents(log, maxDraws)|
    ensures
      var e := LogEvents(log, maxDraws)[StartOf(log, maxDraws, l) + k];
      e.Drawn? && e.draw == log[l].draws[k] && !e.alone
    decreases |log|
  {
    hide SubmissionRight, BatchEvents, Tiled;
    var n := |log| - 1;
    if l < n {
      assert log[..n][..l] == log[..l];
      BatchUnbroken(log[..n], maxDraws, l, k);
    } else {
      assert SubmissionRight(log[l], maxDraws);
      BatchTiled(log[l], maxDraws);
      UnderBatch(log[l].runs, log[l].draws, k);
    }
  }

  lemma BatchTiled(s: Submission, maxDraws: nat)
    requires SubmissionRight(s, maxDraws) && s.Batch?
    ensures Tiled(s.runs, s.draws)
  {
  }

  /** No batch holds draws of records on both sides of one that shows an effect. */
  lemma NoBatchAcrossEffect(log: seq<Submission>, maxDraws: nat, records: seq<Record>, at: seq<nat>,
                            l: nat, i: nat, k: nat, j: nat)
    requires LogRight(log, maxDraws) && Shows(LogEvents(log, maxDraws), records, at)
    requires l < |log| && log[l].Batch? && i < k < j < |records|
    requires StartOf(log, maxDraws, l) <= at[i] && at[j] < StartOf(log, maxDraws, l) + |log[l].draws|
    ensures Silent(records[k].facts) || (records[k].facts.batchableDraw && !records[k].facts.stateBlockRecording && !records[k].isolated)
  {
    var events := LogEvents(log, maxDraws);
    Ascends(events, records, at, i, k);
    Ascends(events, records, at, k, j);
    assert ShownAt(events, records[k], at[k], at[k + 1]);
    if at[k] - StartOf(log, maxDraws, l) < |log[l].draws| {
      BatchUnbroken(log, maxDraws, l, at[k] - StartOf(log, maxDraws, l));
    }
  }

  lemma {:induction false} Ascends(events: seq<Event>, records: seq<Record>, at: seq<nat>, i: nat, j: nat)
    requires Shows(events, records, at) && i <= j <= |records|
    ensures at[i] <= at[j]
    decreases j
  {
    if i < j {
      Ascends(events, records, at, i, j - 1);
      assert ShownAt(events, records[j - 1], at[j - 1], at[j]);
    }
  }

  // ----- the batcher -----

  datatype FlushStatus = Empty | Published | Refused

  class Batcher {
    const maxDraws: nat
    /** Whether the queue takes the n-th batch handed to it. */
    const accepts: nat -> bool
    var attempts: nat
    var draws: seq<nat>
    var runs: seq<Run>
    var identity: nat
    /** A batch was refused; its draws are lost and nothing follows them. */
    var failed: bool
    /** What the queue took so far. */
    ghost var log: seq<Submission>

    ghost predicate Right()
      reads this
    {
      && maxDraws <= U32_MAX
      && LogRight(log, maxDraws)
      && Tiled(runs, draws)
      && (failed ==> runs == [])
      && (runs != [] ==> SubmissionRight(Batch(runs, draws), maxDraws) && identity == runs[|runs| - 1].identity)
    }

    /** A batch may follow what was published last. */
    ghost predicate Valid()
      reads this
    {
      Right() && (log != [] && log[|log| - 1].Batch? ==> Full(log[|log| - 1], maxDraws))
    }

    /** The queue's view once the open batch is published. */
    ghost function Trace(): seq<Event>
      requires Right()
      reads this
    {
      LogEvents(log, maxDraws) + BatchEvents(runs, draws)
    }

    constructor (maxDraws: nat, accepts: nat -> bool)
      requires maxDraws <= U32_MAX
      ensures Valid() && Trace() == [] && this.maxDraws == maxDraws && log == [] && runs == [] && !failed
    {
      this.maxDraws, this.accepts, attempts := maxDraws, accepts, 0;
      draws, runs, identity, failed, log := [], [], 0, false, [];
    }

    /**
      Publishes the open batch as one transaction, if there is one. The batch is
      retired whether the queue takes it or not, so that no draw is submitted twice.
     */
    method Flush() returns (status: FlushStatus)
      requires Valid()
      modifies this
      ensures Right() && runs == [] && draws == []
      ensures status == Refused <==> failed
      ensures failed <==> old(failed) || (old(draws) != [] && !accepts(old(attempts)))
      ensures log == if old(draws) == [] || failed then old(log) else old(log) + [Batch(old(runs), old(draws))]
      ensures !failed ==> Trace() == old(Trace())
      ensures Trace() <= old(Trace())
      ensures old(|draws|) >= maxDraws ==> Valid()
    {
      if draws == [] {
        NoRuns(runs, draws);
        return if failed then Refused else Empty;
      }
      LogSnoc(log, Batch(runs, draws), maxDraws);
      NoEvents([]);
      if accepts(attempts) {
        status := Published;
        log := log + [Batch(runs, draws)];
      } else {
        status := Refused;
        failed := true;
      }
      attempts := attempts + 1;
      draws, runs, identity := [], [], 0;
    }

    /** A record that may not join a batch, submitted by itself unless the batch before it was refused. */
    method SubmitAlone(s: Submission) returns (ok: bool)
      requires Valid() && !failed && !s.Batch?
      modifies this
      ensures Right() && runs == [] && ok == !failed
      ensures ok ==> Valid() && Trace() == old(Trace()) + [if s.Alone? then Drawn(s.draw, s.identity, true) else Done(s.record)]
      ensures !ok ==> Trace() <= old(Trace())
    {
      hide LogEvents, LogRight, SubmissionRight, BatchEvents, Tiled;
      var status := Flush();
      if status == Refused {
        return false;
      }
      AloneIsRight(s, maxDraws);
      LogSnoc(log, s, maxDraws);
      NoRuns(runs, draws);
      log := log + [s];
      ok := true;
    }

    /** The draw path: joins the open run, opens a run, or opens a batch. */
    method SubmitDraw(draw: nat, incoming: nat, isolated: bool) returns (ok: bool)
      requires Valid() && !failed
      modifies this
      ensures Right() && ok == !failed
      ensures ok ==> Valid() && Trace() == old(Trace()) + [Drawn(draw, incoming, isolated)]
      ensures !ok ==> Trace() <= old(Trace())
    {
      hide LogEvents, LogRight, SubmissionRight, BatchEvents;
      if isolated {
        ok := SubmitAlone(Alone(draw, incoming));
        return;
      }
      var capacityCut := |draws| >= maxDraws;
      var decision :=
        if capacityCut then Decision(FlushAndStart, CapacityCut)
        else Admit(true, if runs == [] then 0 else runs[|runs| - 1].drawCount, identity, incoming, U32_MAX);
      RunWithinBatch(runs, draws);
      if capacityCut {
        var status := Flush();
        if status == Refused {
          return false;
        }
      }
      Append(draw, incoming, decision);
      ok := true;
    }

    /** Appends a draw under a decision that agrees with the open run. */
    method Append(draw: nat, incoming: nat, decision: Decision)
      requires Valid() && !failed && (runs != [] ==> |draws| < maxDraws)
      requires runs != [] ==> (decision.admission == FlushAndStart <==> identity != incoming)
      modifies this`runs, this`identity, this`draws
      ensures Valid() && Trace() == old(Trace()) + [Drawn(draw, incoming, false)]
    {
      BatchGrows(runs, draws, draw, incoming, maxDraws);
      hide Tiled, BatchEvents, SubmissionRight, LogRight, LogEvents;
      if runs == [] || decision.admission == FlushAndStart {
        runs := runs + [Run(incoming, |draws|, 0)];
        identity := incoming;
      }
      var last := runs[|runs| - 1];
      runs := runs[|runs| - 1 := last.(drawCount := last.drawCount + 1)];
      assert runs == Grown(old(runs), |draws|, incoming);
      draws := draws + [draw];
    }

    /**
      Replays a range of records. The queue sees what submitting each by itself would
      have shown; if it refuses a batch, it has seen a beginning of that and no more.
     */
    method Replay(records: seq<Record>) returns (ok: bool)
      requires Valid() && log == [] && runs == [] && !failed
      modifies this
      ensures LogRight(log, maxDraws) && ok == !failed
      ensures ok ==> LogEvents(log, maxDraws) == PerDraw(records)
      ensures ok ==> exists at :: Shows(LogEvents(log, maxDraws), records, at)
      ensures LogEvents(log, maxDraws) <= PerDraw(records)
    {
      NoRuns(runs, draws);
      assert Trace() == [];
      hide LogEvents, LogRight, SubmissionRight, BatchEvents, Tiled, PerDraw, Shows;
      NothingReplayed(records);
      ghost var at := PerDrawShows(records);
      for i := 0 to |records|
        invariant Valid() && !failed && Trace() == PerDraw(records[..i])
      {
        var r := records[i];
        PerDrawSnoc(records, i);
        PerDrawPrefix(records, i);
        var taken := true;
        match ClassifyRecord(r.facts) {
          case ObservableEffect => taken := SubmitAlone(Effect(r.id));
          case PureProjection =>
          case BatchableDraw => taken := SubmitDraw(r.id, r.identity, r.isolated);
        }
        if !taken {
          LogFirst();
          return false;
        }
      }
      assert records[..|records|] == records;
      var status := Flush();
      NoEvents(draws);
      LogFirst();
      ok := status != Refused;
    }

    lemma LogFirst()
      requires Right()
      ensures LogEvents(log, maxDraws) <= Trace()
      ensures runs == [] ==> LogEvents(log, maxDraws) == Trace()
    {
      NoRuns(runs, draws);
    }
  }
}
