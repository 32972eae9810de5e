/**
  Running a frame graph, and why reordering it along its dependency paths cannot
  be observed.

  A command acts on a machine state of any type. A draw acts the same wherever it
  stands in its pass; any other command is an encoder boundary, whose effect may
  depend on the commands of the same pass that came before it.
 */
module Execution {
  import opened Sequences
  import opened FrameGraphs
  import opened Coalescing
  import opened Provenance

  datatype Machine<!S> = Machine(
    draw: (S, PassKind, AttachmentSet, CommandRef) -> S,
    boundary: (S, PassKind, AttachmentSet, seq<CommandRef>, CommandRef) -> S)

  function RunCommands<S>(m: Machine<S>, st: S, kind: PassKind, targets: AttachmentSet,
                          prefix: seq<CommandRef>, cs: seq<CommandRef>): S
    decreases |cs|
  {
    if cs == [] then st
    else
      var next :=
        if cs[0].kind.DrawRun? then m.draw(st, kind, targets, cs[0])
        else m.boundary(st, kind, targets, prefix, cs[0]);
      RunCommands(m, next, kind, targets, prefix + [cs[0]], cs[1..])
  }

  /** A dead pass is skipped. */
  function RunPass<S>(m: Machine<S>, g: Graph, i: nat, st: S): S
    requires i < |g.passes|
  {
    var p := g.passes[i];
    if p.flags.dead then st else RunCommands(m, st, p.kind, p.targets, [], PassCommands(g)[i])
  }

  function RunOrder<S>(m: Machine<S>, g: Graph, order: seq<nat>, st: S): S
    requires Bounded(order, |g.passes|)
    decreases |order|
  {
    if order == [] then st else RunOrder(m, g, order[1..], RunPass(m, g, order[0], st))
  }

  /** The graph's passes in array order, which is the order they are replayed in. */
  function Run<S>(m: Machine<S>, g: Graph, st: S): S {
    RunOrder(m, g, Iota(0, |g.passes|), st)
  }

  ghost predicate Commute<S(!new)>(m: Machine<S>, g: Graph, u: nat, v: nat)
    requires u < |g.passes| && v < |g.passes|
  {
    forall st: S :: RunPass(m, g, v, RunPass(m, g, u, st)) == RunPass(m, g, u, RunPass(m, g, v, st))
  }

  /** The edges tell the machine's whole story: passes no path connects commute. */
  ghost predicate Respects<S(!new)>(m: Machine<S>, g: Graph) {
    forall u: nat, v: nat ::
      u < |g.passes| && v < |g.passes| && !Reaches(g, u, v) && !Reaches(g, v, u) ==> Commute(m, g, u, v)
  }

  // ----- any two linear orders of the same passes run alike -----

  lemma {:induction false} RunOrderAppend<S>(m: Machine<S>, g: Graph, p: seq<nat>, q: seq<nat>, st: S)
    requires Bounded(p, |g.passes|) && Bounded(q, |g.passes|)
    ensures Bounded(p + q, |g.passes|)
    ensures RunOrder(m, g, p + q, st) == RunOrder(m, g, q, RunOrder(m, g, p, st))
  {
    if p == [] {
      assert p + q == q;
    } else {
      assert (p + q)[1..] == p[1..] + q;
      RunOrderAppend(m, g, p[1..], q, RunPass(m, g, p[0], st));
    }
  }

  lemma {:induction false} MoveToFront<S(!new)>(m: Machine<S>, g: Graph, p: seq<nat>, x: nat, st: S)
    requires Bounded(p, |g.passes|) && x < |g.passes|
    requires forall i :: 0 <= i < |p| ==> Commute(m, g, p[i], x)
    ensures RunPass(m, g, x, RunOrder(m, g, p, st)) == RunOrder(m, g, p, RunPass(m, g, x, st))
  {
    if p != [] {
      assert Commute(m, g, p[0], x);
      MoveToFront(m, g, p[1..], x, RunPass(m, g, p[0], st));
    }
  }

  /** What stands before the first pass of another linear order commutes with it. */
  lemma CommutesWithEarlier<S(!new)>(m: Machine<S>, g: Graph, s: seq<nat>, t: seq<nat>, k: nat)
    requires Bounded(s, |g.passes|) && Bounded(t, |g.passes|)
    requires multiset(s) == multiset(t) && k < |s| && t != [] && s[k] == t[0]
    requires Linear(g, s) && Linear(g, t) && Respects(m, g)
    ensures forall i :: 0 <= i < k ==> Commute(m, g, s[i], t[0])
  {
    forall i | 0 <= i < k ensures Commute(m, g, s[i], t[0]) {
      assert !Reaches(g, s[k], s[i]);
      assert s[i] in multiset(s) && s[i] in multiset(t);
      var j :| 0 <= j < |t| && t[j] == s[i];
      if j > 0 {
        assert !Reaches(g, t[j], t[0]);
      }
    }
  }

  lemma RunMovedToFront<S(!new)>(m: Machine<S>, g: Graph, s: seq<nat>, k: nat, st: S)
    requires Bounded(s, |g.passes|) && k < |s|
    requires forall i :: 0 <= i < k ==> Commute(m, g, s[i], s[k])
    ensures Bounded(s[..k] + s[k + 1..], |g.passes|)
    ensures RunOrder(m, g, s, st) == RunOrder(m, g, s[..k] + s[k + 1..], RunPass(m, g, s[k], st))
  {
    var p, x, q := s[..k], s[k], s[k + 1..];
    var next := RunPass(m, g, x, st);
    assert s == p + ([x] + q);
    RunOrderAppend(m, g, p, [x] + q, st);
    assert ([x] + q)[1..] == q;
    MoveToFront(m, g, p, x, st);
    RunOrderAppend(m, g, p, q, next);
  }

  /** Two orderings of the same passes that both respect every path end in the same state. */
  lemma {:induction false} LinearOrdersAgree<S(!new)>(m: Machine<S>, g: Graph, s: seq<nat>, t: seq<nat>, st: S)
    requires Bounded(s, |g.passes|) && Bounded(t, |g.passes|)
    requires multiset(s) == multiset(t)
    requires Linear(g, s) && Linear(g, t) && Respects(m, g)
    ensures RunOrder(m, g, s, st) == RunOrder(m, g, t, st)
    decreases |t|
  {
    if t == [] {
      assert |s| == |multiset(s)| == 0;
    } else {
      var k := RemoveBoth(t, s);
      CommutesWithEarlier(m, g, s, t, k);
      RunMovedToFront(m, g, s, k, st);
      LinearRemove(g, s, k);
      LinearRemove(g, t, 0);
      assert t[..0] + t[1..] == t[1..];
      LinearOrdersAgree(m, g, s[..k] + s[k + 1..], t[1..], RunPass(m, g, t[0], st));
    }
  }

  lemma LinearRemove(g: Graph, s: seq<nat>, k: nat)
    requires Linear(g, s) && k < |s|
    ensures Linear(g, s[..k] + s[k + 1..])
  {
    var r := s[..k] + s[k + 1..];
    forall i, j | 0 <= i < j < |r| ensures !Reaches(g, r[j], r[i]) {
      var i', j' := if i < k then i else i + 1, if j < k then j else j + 1;
      assert r[i] == s[i'] && r[j] == s[j'];
    }
  }

  // ----- a folded pass runs like the passes it was folded from -----

  lemma {:induction false} RunCommandsAppend<S>(m: Machine<S>, st: S, kind: PassKind, targets: AttachmentSet,
                                                prefix: seq<CommandRef>, a: seq<CommandRef>, b: seq<CommandRef>)
    ensures RunCommands(m, st, kind, targets, prefix, a + b)
         == RunCommands(m, RunCommands(m, st, kind, targets, prefix, a), kind, targets, prefix + a, b)
    decreases |a|
  {
    if a == [] {
      assert a + b == b && prefix + a == prefix;
    } else {
      var next :=
        if a[0].kind.DrawRun? then m.draw(st, kind, targets, a[0])
        else m.boundary(st, kind, targets, prefix, a[0]);
      assert (a + b)[1..] == a[1..] + b;
      assert prefix + [a[0]] + a[1..] == prefix + a;
      RunCommandsAppend(m, next, kind, targets, prefix + [a[0]], a[1..], b);
    }
  }

  /** Draws do not see where in their pass they stand. */
  lemma {:induction false} RunDraws<S>(m: Machine<S>, st: S, kind: PassKind, targets: AttachmentSet,
                                       p: seq<CommandRef>, q: seq<CommandRef>, cs: seq<CommandRef>)
    requires DrawOnly(cs)
    ensures RunCommands(m, st, kind, targets, p, cs) == RunCommands(m, st, kind, targets, q, cs)
    decreases |cs|
  {
    if cs != [] {
      RunDraws(m, m.draw(st, kind, targets, cs[0]), kind, targets, p + [cs[0]], q + [cs[0]], cs[1..]);
    }
  }

  lemma {:induction false} RunTail<S>(m: Machine<S>, g: Graph, idx: seq<nat>, kind: PassKind, targets: AttachmentSet,
                                      prefix: seq<CommandRef>, st: S)
    requires Bounded(idx, |g.passes|)
    requires forall t :: 0 <= t < |idx| ==>
      && g.passes[idx[t]].kind == kind
      && g.passes[idx[t]].targets == targets
      && !g.passes[idx[t]].flags.dead
      && DrawOnly(PassCommands(g)[idx[t]])
    ensures RunCommands(m, st, kind, targets, prefix, ConcatMap(PassCommands(g), idx)) == RunOrder(m, g, idx, st)
    decreases |idx|
  {
    if idx != [] {
      var cs := PassCommands(g)[idx[0]];
      RunCommandsAppend(m, st, kind, targets, prefix, cs, ConcatMap(PassCommands(g), idx[1..]));
      RunDraws(m, st, kind, targets, prefix, [], cs);
      RunTail(m, g, idx[1..], kind, targets, prefix + cs, RunPass(m, g, idx[0], st));
    }
  }

  lemma FoldedIsLive(g0: Graph, g: Graph, group: seq<nat>, j: nat)
    requires j < |g.passes| && Folds(g0, g, group, j)
    ensures |group| > 1 ==> !g.passes[j].flags.dead
  {
    if |group| > 1 {
      assert LiveRender(g0.passes[group[1]]);
    }
  }

  lemma RunFolded<S>(m: Machine<S>, g0: Graph, g: Graph, group: seq<nat>, j: nat, st: S)
    requires j < |g.passes| && Folds(g0, g, group, j)
    ensures RunPass(m, g, j, st) == RunOrder(m, g0, group, st)
  {
    var p := g.passes[j];
    var first := group[0];
    FoldedIsLive(g0, g, group, j);
    if p.flags.dead {
      assert group[1..] == [];
    } else {
      var cs := PassCommands(g0)[first];
      assert ConcatMap(PassCommands(g0), group) == cs + ConcatMap(PassCommands(g0), group[1..]);
      RunCommandsAppend(m, st, p.kind, p.targets, [], cs, ConcatMap(PassCommands(g0), group[1..]));
      RunTail(m, g0, group[1..], p.kind, p.targets, cs, RunPass(m, g0, first, st));
      assert [] + cs == cs;
    }
  }

  lemma {:induction false} RunDescendant<S>(m: Machine<S>, g0: Graph, g: Graph, origins: seq<seq<nat>>, lo: nat, st: S)
    requires lo <= |g.passes| == |origins|
    requires forall j :: 0 <= j < |origins| ==> Folds(g0, g, origins[j], j)
    ensures Bounded(Flatten(origins[lo..]), |g0.passes|)
    ensures RunOrder(m, g, Iota(lo, |g.passes|), st) == RunOrder(m, g0, Flatten(origins[lo..]), st)
    decreases |g.passes| - lo
  {
    if lo < |g.passes| {
      assert Folds(g0, g, origins[lo], lo);
      assert Bounded(origins[lo], |g0.passes|);
      hide Folds, Flatten, RunPass;
      RunFolded(m, g0, g, origins[lo], lo, st);
      RunDescendant(m, g0, g, origins, lo + 1, RunPass(m, g, lo, st));
      FlattenFrom(origins, lo);
      RunFirst(m, g, lo, st);
      RunOrderAppend(m, g0, origins[lo], Flatten(origins[lo + 1..]), st);
    }
  }

  lemma RunFirst<S>(m: Machine<S>, g: Graph, lo: nat, st: S)
    requires lo < |g.passes|
    ensures RunOrder(m, g, Iota(lo, |g.passes|), st) == RunOrder(m, g, Iota(lo + 1, |g.passes|), RunPass(m, g, lo, st))
  {
    assert Iota(lo, |g.passes|)[1..] == Iota(lo + 1, |g.passes|);
  }

  /** In any descendant the old passes stand in an order that respects every old path. */
  lemma DescendantLinear(g0: Graph, g: Graph, origins: seq<seq<nat>>)
    requires Descends(g0, g, origins) && Forward(g)
    ensures Linear(g0, Flatten(origins))
  {
    assert origins[0..] == origins;
    DescendantUnreached(g0, g, origins);
    hide PathsKept, Folds, FencesKept, ResourcesFollow, Flatten, Linear;
    LinearFrom(g0, origins, 0);
  }

  /** No path leads from a later group back to an earlier one. */
  ghost predicate Unreached(g0: Graph, origins: seq<seq<nat>>) {
    forall j: nat, k: nat, u: nat, v: nat :: j < k < |origins| && u in origins[j] && v in origins[k] ==> !Reaches(g0, v, u)
  }

  lemma DescendantUnreached(g0: Graph, g: Graph, origins: seq<seq<nat>>)
    requires Descends(g0, g, origins) && Forward(g)
    ensures Unreached(g0, origins)
  {
    hide Folds, FencesKept, ResourcesFollow, LinearInside, Permutation, Flatten;
    forall j: nat, k: nat, u: nat, v: nat | j < k < |origins| && u in origins[j] && v in origins[k]
      ensures !Reaches(g0, v, u)
    {
      NotBackward(g, j, k);
    }
  }

  lemma {:induction false} LinearFrom(g0: Graph, origins: seq<seq<nat>>, lo: nat)
    requires LinearInside(g0, origins) && Unreached(g0, origins) && lo <= |origins|
    ensures Linear(g0, Flatten(origins[lo..]))
    decreases |origins| - lo
  {
    if lo < |origins| {
      var rest := origins[lo + 1..];
      LinearFrom(g0, origins, lo + 1);
      hide Flatten, Linear;
      FlattenFrom(origins, lo);
      forall u, v | u in origins[lo] && v in Flatten(rest) ensures !Reaches(g0, v, u) {
        var k := FlattenOrigin(rest, v);
        assert v in origins[lo + 1 + k];
      }
      LinearAppend(g0, origins[lo], Flatten(rest));
    }
  }

  /** A descendant of a forward graph runs exactly as that graph does. */
  lemma DescendantRunsAlike<S(!new)>(m: Machine<S>, g0: Graph, g: Graph, origins: seq<seq<nat>>, st: S)
    requires Descends(g0, g, origins) && Forward(g0) && Forward(g) && Respects(m, g0)
    ensures Run(m, g, st) == Run(m, g0, st)
  {
    var order := Flatten(origins);
    PermutationFacts(order, |g0.passes|);
    assert origins[0..] == origins;
    RunDescendant(m, g0, g, origins, 0, st);
    DescendantLinear(g0, g, origins);
    LinearAscending(g0, Iota(0, |g0.passes|));
    LinearOrdersAgree(m, g0, Iota(0, |g0.passes|), order, st);
  }
}
