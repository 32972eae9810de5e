/**
  Polling a query's end: a fence over published prefixes, and a marker that one
  writer binds once while anyone may cancel it. A run interleaves the atomic loads,
  stores and compare-exchanges of any number of threads.
 */
module QueryEnds {

  datatype Fence = Fence(queue: nat, sequence: nat, initializer: nat) {
    predicate IsValid() {
      queue != 0
    }
  }

  datatype Progress = Progress(
    queue: nat, published: nat, completed: nat, failed: bool, initializerPublished: nat, initializerCompleted: nat)

  datatype Poll = Invalid | Failed | Pending | Complete

  predicate CoveredPending(
    fence: Fence, queue: nat, covered: nat, completed: nat, initializerSucceeded: nat, terminal: bool, hasMarker: bool)
  {
    !terminal && !hasMarker && fence.IsValid() && fence.queue == queue && fence.sequence != 0
    && fence.sequence <= covered && completed < fence.sequence && fence.initializer <= initializerSucceeded
  }

  function Classify(fence: Fence, p: Progress): Poll {
    if !fence.IsValid() || fence.queue != p.queue || p.completed > p.published || fence.sequence > p.published
       || p.initializerCompleted > p.initializerPublished || fence.initializer > p.initializerPublished then Invalid
    else if p.failed then Failed
    else if p.completed >= fence.sequence && p.initializerCompleted >= fence.initializer then Complete
    else Pending
  }

  // ----- the marker and its steps -----

  const U32_MAX: nat := 0xFFFF_FFFF

  datatype Writer = Writer(queue: nat, index: nat, generation: nat, storageGeneration: nat) {
    predicate IsValid() {
      queue != 0 && index != U32_MAX && generation != 0 && storageGeneration != 0
    }
  }

  predicate CanBindEnd(admitted: Writer, published: Writer, bound: nat, sequence: nat) {
    admitted.IsValid() && admitted == published && bound == 0 && sequence != 0
  }

  /** A thread idle, or inside `bind` past its checks and before the exchange. */
  datatype Phase = Idle | Binding(sequence: nat)

  datatype Marker = Marker(owner: Writer, sequence: nat, cancelled: bool, phases: seq<Phase>)

  datatype Action = CallBind(owner: Writer, sequence: nat) | Exchange | Cancel

  datatype Step = Step(thread: nat, action: Action)

  function Fresh(owner: Writer, threads: nat): Marker {
    Marker(owner, 0, false, seq(threads, _ => Idle))
  }

  function Next(m: Marker, s: Step): Marker {
    if s.thread >= |m.phases| then m
    else
      match s.action
      case Cancel => m.(cancelled := true)
      case CallBind(owner, sequence) =>
        if m.phases[s.thread] == Idle && !m.cancelled && CanBindEnd(m.owner, owner, 0, sequence) then
          m.(phases := m.phases[s.thread := Binding(sequence)])
        else m
      case Exchange =>
        match m.phases[s.thread]
        case Idle => m
        case Binding(sequence) =>
          m.(sequence := if m.sequence == 0 then sequence else m.sequence, phases := m.phases[s.thread := Idle])
  }

  function After(owner: Writer, threads: nat, run: seq<Step>): Marker {
    if run == [] then Fresh(owner, threads)
    else Next(After(owner, threads, run[..|run| - 1]), run[|run| - 1])
  }

  // ----- what may happen to a marker -----

  /** Later in a run: bound stays bound to the same value, cancelled stays cancelled. */
  predicate Later(early: Marker, late: Marker) {
    && late.owner == early.owner
    && (early.sequence != 0 ==> late.sequence == early.sequence)
    && (early.cancelled ==> late.cancelled)
  }

  lemma {:induction false} BoundOnce(owner: Writer, threads: nat, run: seq<Step>, more: seq<Step>)
    ensures Later(After(owner, threads, run), After(owner, threads, run + more))
  {
    if more == [] {
      assert run + more == run;
    } else {
      var all := run + more;
      assert all[..|all| - 1] == run + more[..|more| - 1];
      BoundOnce(owner, threads, run, more[..|more| - 1]);
    }
  }

  /** The call was made by the admitted writer, with this sequence, before any cancellation. */
  predicate Offered(owner: Writer, threads: nat, run: seq<Step>, i: nat, sequence: nat)
    requires i < |run|
  {
    && run[i].action == CallBind(owner, sequence)
    && !After(owner, threads, run[..i]).cancelled
  }

  lemma OfferedLonger(owner: Writer, threads: nat, run: seq<Step>, i: nat, sequence: nat)
    requires 0 < |run| && i < |run| - 1 && Offered(owner, threads, run[..|run| - 1], i, sequence)
    ensures Offered(owner, threads, run, i, sequence)
  {
    assert run[..|run| - 1][..i] == run[..i];
  }

  ghost predicate Sourced(owner: Writer, threads: nat, run: seq<Step>, sequence: nat) {
    owner.IsValid() && sequence != 0 && exists i: nat :: i < |run| && Offered(owner, threads, run, i, sequence)
  }

  lemma SourcedLonger(owner: Writer, threads: nat, run: seq<Step>, sequence: nat)
    requires run != [] && Sourced(owner, threads, run[..|run| - 1], sequence)
    ensures Sourced(owner, threads, run, sequence)
  {
    var i: nat :| i < |run| - 1 && Offered(owner, threads, run[..|run| - 1], i, sequence);
    OfferedLonger(owner, threads, run, i, sequence);
  }

  lemma OwnerStays(owner: Writer, threads: nat, run: seq<Step>)
    ensures After(owner, threads, run).owner == owner
  {
  }

  /** Every value bound, or about to be, was offered by the valid admitted writer to a marker not yet cancelled. */
  lemma {:induction false} OnlyOwnerBinds(owner: Writer, threads: nat, run: seq<Step>)
    ensures
      var m := After(owner, threads, run);
      && (m.sequence != 0 ==> Sourced(owner, threads, run, m.sequence))
      && forall t: nat :: t < |m.phases| && m.phases[t].Binding? ==> Sourced(owner, threads, run, m.phases[t].sequence)
  {
    var m := After(owner, threads, run);
    if run != [] {
      var before, s := After(owner, threads, run[..|run| - 1]), run[|run| - 1];
      OnlyOwnerBinds(owner, threads, run[..|run| - 1]);
      OwnerStays(owner, threads, run[..|run| - 1]);
      if s.thread < |before.phases| && m.phases[s.thread].Binding? && before.phases[s.thread] != m.phases[s.thread] {
        assert Offered(owner, threads, run, |run| - 1, m.phases[s.thread].sequence);
        assert Sourced(owner, threads, run, m.phases[s.thread].sequence);
      }
      forall t: nat | t < |m.phases| && m.phases[t].Binding? ensures Sourced(owner, threads, run, m.phases[t].sequence) {
        if t < |before.phases| && before.phases[t] == m.phases[t] {
          SourcedLonger(owner, threads, run, m.phases[t].sequence);
        }
      }
      if m.sequence != 0 {
        if before.sequence != 0 {
          SourcedLonger(owner, threads, run, m.sequence);
        } else {
          SourcedLonger(owner, threads, run, before.phases[s.thread].sequence);
        }
      }
      hide Sourced, Offered;
    }
  }

  // ----- polls -----

  datatype Receipt = Receipt(prefix: Fence, deferred: bool)

  predicate ReceiptValid(r: Receipt, owner: Writer) {
    r.prefix.IsValid() && (r.deferred ==> owner.IsValid() && owner.queue == r.prefix.queue)
  }

  function ClassifyEnd(snapshot: Fence, p: Progress, deferred: bool, ownerMatches: bool): Poll {
    if !ownerMatches then Invalid
    else
      var answer := Classify(snapshot, p);
      if deferred && snapshot.sequence == 0 && answer == Complete then Pending else answer
  }

  /** A poll loads the cancellation in one state of the marker and the sequence in a later one. */
  function PollEnd(r: Receipt, first: Marker, second: Marker, p: Progress): Poll {
    if ReceiptValid(r, first.owner) && r.prefix.queue == p.queue && r.deferred && first.cancelled then Failed
    else ClassifyEnd(if r.deferred then r.prefix.(sequence := second.sequence) else r.prefix, p, r.deferred, ReceiptValid(r, first.owner))
  }

  predicate Consistent(p: Progress) {
    p.completed <= p.published && p.initializerCompleted <= p.initializerPublished
  }

  predicate Advances(p: Progress, q: Progress) {
    && q.queue == p.queue && Consistent(q)
    && p.published <= q.published && p.completed <= q.completed
    && p.initializerPublished <= q.initializerPublished && p.initializerCompleted <= q.initializerCompleted
  }

  /** A deferred end polls Complete only with a bound sequence that has completed. */
  lemma CompleteMeansBound(r: Receipt, first: Marker, second: Marker, p: Progress)
    ensures PollEnd(r, first, second, p) == Complete <==>
      var sequence := if r.deferred then second.sequence else r.prefix.sequence;
      && ReceiptValid(r, first.owner) && r.prefix.queue == p.queue && Consistent(p) && !p.failed
      && (r.deferred ==> !first.cancelled && sequence != 0)
      && sequence <= p.completed && r.prefix.initializer <= p.initializerCompleted
  {
  }

  /** Along a run, a deferred end polls Complete only with a sequence that its valid writer offered uncancelled and that has completed. */
  lemma CompleteWasOffered(r: Receipt, owner: Writer, threads: nat, run: seq<Step>, a: nat, b: nat, p: Progress)
    requires a <= b <= |run| && r.deferred
    requires PollEnd(r, After(owner, threads, run[..a]), After(owner, threads, run[..b]), p) == Complete
    ensures
      var sequence := After(owner, threads, run[..b]).sequence;
      && Sourced(owner, threads, run[..b], sequence) && owner.queue == p.queue
      && 0 < sequence <= p.completed <= p.published
  {
    OwnerStays(owner, threads, run[..a]);
    OnlyOwnerBinds(owner, threads, run[..b]);
    hide After, Sourced;
  }

  /** Once Complete, the answer stays so as progress advances, until the marker is cancelled or the queue fails. */
  lemma CompleteStays(r: Receipt, owner: Writer, threads: nat, run: seq<Step>, a: nat, b: nat, c: nat, d: nat, p: Progress, q: Progress)
    requires a <= b <= c <= d <= |run| && Advances(p, q)
    requires
      PollEnd(r, After(owner, threads, run[..a]), After(owner, threads, run[..b]), p) == Complete
    ensures
      var first, second := After(owner, threads, run[..c]), After(owner, threads, run[..d]);
      PollEnd(r, first, second, q) ==
        if (r.deferred && first.cancelled) || q.failed then Failed else Complete
  {
    LaterPrefix(owner, threads, run, a, c);
    LaterPrefix(owner, threads, run, b, d);
    hide After;
  }

  lemma LaterPrefix(owner: Writer, threads: nat, run: seq<Step>, i: nat, j: nat)
    requires i <= j <= |run|
    ensures Later(After(owner, threads, run[..i]), After(owner, threads, run[..j]))
  {
    assert run[..j] == run[..i] + run[i..j];
    BoundOnce(owner, threads, run[..i], run[i..j]);
  }

  /** Where the lock-free answer is given, progress no newer than its own is not Complete, and unfinished progress is Pending. */
  lemma CoveredIsPending(fence: Fence, p: Progress, covered: nat, completed: nat, terminal: bool)
    requires CoveredPending(fence, p.queue, covered, completed, p.initializerCompleted, terminal, false)
    requires Consistent(p) && covered <= p.published
    ensures !p.failed && p.completed < fence.sequence ==> Classify(fence, p) == Pending
    ensures p.completed <= completed ==> Classify(fence, p) != Complete
  {
  }

  /** With nothing failed and all published prefixes covered, it is given exactly when the full answer is Pending on the queue's account. */
  lemma CoveredExactly(fence: Fence, p: Progress)
    requires Consistent(p) && !p.failed
    ensures CoveredPending(fence, p.queue, p.published, p.completed, p.initializerCompleted, false, false) <==>
      Classify(fence, p) == Pending && p.completed < fence.sequence && fence.initializer <= p.initializerCompleted
  {
  }

  // ----- what binds, exactly -----

  /** Step c is a cancellation. */
  predicate CancelsAt(threads: nat, run: seq<Step>, c: nat)
    requires c < |run|
  {
    run[c].thread < threads && run[c].action == Cancel
  }

  /** Step i is an idle thread's call with the admitted valid writer and a sequence, no cancellation being loaded. */
  predicate CallsAt(owner: Writer, threads: nat, run: seq<Step>, i: nat, t: nat, sequence: nat)
    requires i < |run|
  {
    && t < threads && run[i] == Step(t, CallBind(owner, sequence)) && owner.IsValid() && sequence != 0
    && !After(owner, threads, run[..i]).cancelled
    && !InBind(owner, threads, run[..i], t)
  }

  predicate InBind(owner: Writer, threads: nat, run: seq<Step>, t: nat) {
    var m := After(owner, threads, run);
    t < |m.phases| && m.phases[t].Binding?
  }

  /** Step j is the exchange of a thread inside a bind of this sequence. */
  predicate ExchangesAt(owner: Writer, threads: nat, run: seq<Step>, j: nat, sequence: nat)
    requires j < |run|
  {
    var m := After(owner, threads, run[..j]);
    run[j].action == Exchange && run[j].thread < |m.phases| && m.phases[run[j].thread] == Binding(sequence)
  }

  lemma NextAt(owner: Writer, threads: nat, run: seq<Step>, n: nat)
    requires n < |run|
    ensures After(owner, threads, run[..n + 1]) == Next(After(owner, threads, run[..n]), run[n])
  {
    assert run[..n + 1][..n] == run[..n];
  }

  lemma {:induction false} Threads(owner: Writer, threads: nat, run: seq<Step>)
    ensures |After(owner, threads, run).phases| == threads && After(owner, threads, run).owner == owner
  {
    if run != [] {
      Threads(owner, threads, run[..|run| - 1]);
    }
  }

  lemma {:induction false} CancelledExactly(owner: Writer, threads: nat, run: seq<Step>, n: nat)
    requires n <= |run|
    ensures After(owner, threads, run[..n]).cancelled <==> exists c: nat :: c < n && CancelsAt(threads, run, c)
  {
    hide After, CancelsAt;
    if n == 0 {
      FreshFirst(owner, threads, run);
    } else {
      CancelledExactly(owner, threads, run, n - 1);
      CancelStep(owner, threads, run, n - 1);
    }
  }

  lemma FreshFirst(owner: Writer, threads: nat, run: seq<Step>)
    ensures After(owner, threads, run[..0]) == Fresh(owner, threads)
  {
  }

  lemma CancelStep(owner: Writer, threads: nat, run: seq<Step>, n: nat)
    requires n < |run|
    ensures After(owner, threads, run[..n + 1]).cancelled <==>
      After(owner, threads, run[..n]).cancelled || CancelsAt(threads, run, n)
  {
    hide After;
    NextAt(owner, threads, run, n);
    Threads(owner, threads, run[..n]);
  }

  /** A thread is inside a bind exactly from its accepted call to its next exchange. */
  lemma {:induction false} InBindExactly(owner: Writer, threads: nat, run: seq<Step>, n: nat, t: nat, sequence: nat)
    requires n <= |run| && t < threads
    ensures |After(owner, threads, run[..n]).phases| == threads
    ensures After(owner, threads, run[..n]).phases[t] == Binding(sequence) <==>
      exists i: nat :: i < n && CallsAt(owner, threads, run, i, t, sequence) && NoExchange(run, i, n, t)
  {
    hide After, CallsAt, NoExchange, Next;
    Threads(owner, threads, run[..n]);
    if n == 0 {
      FreshFirst(owner, threads, run);
    } else {
      InBindExactly(owner, threads, run, n - 1, t, sequence);
      NextAt(owner, threads, run, n - 1);
      Threads(owner, threads, run[..n - 1]);
      BindStep(owner, threads, run, n - 1, t, sequence);
    }
  }

  predicate NoExchange(run: seq<Step>, i: nat, n: nat, t: nat)
    requires n <= |run|
  {
    forall k: nat :: i < k < n ==> run[k] != Step(t, Exchange)
  }

  lemma BindStep(owner: Writer, threads: nat, run: seq<Step>, n: nat, t: nat, sequence: nat)
    requires n < |run| && t < threads
    requires
      var m := After(owner, threads, run[..n]);
      && |m.phases| == threads && m.owner == owner
      && (m.phases[t] == Binding(sequence) <==>
            exists i: nat :: i < n && CallsAt(owner, threads, run, i, t, sequence) && NoExchange(run, i, n, t))
    ensures
      var m := Next(After(owner, threads, run[..n]), run[n]);
      |m.phases| == threads && (m.phases[t] == Binding(sequence) <==>
        exists i: nat :: i < n + 1 && CallsAt(owner, threads, run, i, t, sequence) && NoExchange(run, i, n + 1, t))
  {
    hide After;
    var m := After(owner, threads, run[..n]);
    var next := Next(m, run[n]);
    assert CallsAt(owner, threads, run, n, t, sequence) ==> next.phases[t] == Binding(sequence);
    assert NoExchange(run, n, n + 1, t);
    if i: nat :| i < n && CallsAt(owner, threads, run, i, t, sequence) && NoExchange(run, i, n + 1, t) {
      assert NoExchange(run, i, n, t);
    }
    if i: nat :| i < n && CallsAt(owner, threads, run, i, t, sequence) && NoExchange(run, i, n, t) {
      assert run[n] != Step(t, Exchange) ==> NoExchange(run, i, n + 1, t);
    }
  }

  /** The sequence bound is the one of the first exchange, and nothing is bound before it. */
  lemma {:induction false} BoundExactly(owner: Writer, threads: nat, run: seq<Step>, n: nat, sequence: nat)
    requires n <= |run| && sequence != 0
    ensures After(owner, threads, run[..n]).sequence == sequence <==>
      exists j: nat :: j < n && ExchangesAt(owner, threads, run, j, sequence) && FirstExchange(owner, threads, run, j)
    ensures After(owner, threads, run[..n]).sequence == 0 <==> forall j: nat :: j < n ==> !ExchangesSome(owner, threads, run, j)
  {
    hide After, ExchangesAt, ExchangesSome, Next;
    if n == 0 {
      FreshFirst(owner, threads, run);
    } else {
      BoundExactly(owner, threads, run, n - 1, sequence);
      NextAt(owner, threads, run, n - 1);
      NoZero(owner, threads, run, n - 1);
      BoundStep(owner, threads, run, n - 1, sequence);
      var m := After(owner, threads, run[..n - 1]);
      if m.sequence == 0 && ExchangesAt(owner, threads, run, n - 1, sequence) {
        assert FirstExchange(owner, threads, run, n - 1);
      }
      if j: nat :| j < n && ExchangesAt(owner, threads, run, j, sequence) && FirstExchange(owner, threads, run, j) {
        assert j == n - 1 ==> m.sequence == 0;
      }
    }
  }

  /** An exchange of a binding thread binds a marker that is not bound; nothing else changes it. */
  lemma BoundStep(owner: Writer, threads: nat, run: seq<Step>, n: nat, sequence: nat)
    requires n < |run| && sequence != 0 && !ExchangesAt(owner, threads, run, n, 0)
    ensures
      var m := After(owner, threads, run[..n]);
      var next := Next(m, run[n]);
      && (next.sequence == 0 <==> m.sequence == 0 && !ExchangesSome(owner, threads, run, n))
      && (next.sequence == sequence <==>
            m.sequence == sequence || (m.sequence == 0 && ExchangesAt(owner, threads, run, n, sequence)))
    ensures ExchangesAt(owner, threads, run, n, sequence) ==> ExchangesSome(owner, threads, run, n)
  {
    hide After;
  }

  predicate ExchangesSome(owner: Writer, threads: nat, run: seq<Step>, j: nat)
    requires j < |run|
  {
    run[j].action == Exchange && InBind(owner, threads, run[..j], run[j].thread)
  }

  predicate FirstExchange(owner: Writer, threads: nat, run: seq<Step>, j: nat)
    requires j < |run|
  {
    forall k: nat :: k < j ==> !ExchangesSome(owner, threads, run, k)
  }

  lemma NoZero(owner: Writer, threads: nat, run: seq<Step>, n: nat)
    requires n < |run|
    ensures !ExchangesAt(owner, threads, run, n, 0)
  {
    OnlyOwnerBinds(owner, threads, run[..n]);
    hide After, Sourced;
  }
}
