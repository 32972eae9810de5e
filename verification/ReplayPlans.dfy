/**
  The replay plan of a frame graph: which source commands it names, in which order,
  and whether it names each of them exactly once. And what merging passes does to it.
 */
module ReplayPlans {
  import opened Sequences
  import opened FrameGraphs
  import opened Coalescing
  import opened Provenance
  import opened Fixpoint
  import opened FrameBuilder

  datatype ReplayPlan = ReplayPlan(commandIndices: seq<nat>, valid: bool, dropped: bool, reordered: bool)

  function Indices(cs: seq<CommandRef>): (r: seq<nat>)
    ensures |r| == |cs| && forall i :: 0 <= i < |r| ==> r[i] == cs[i].commandIndex
  {
    seq(|cs|, i requires 0 <= i < |cs| => cs[i].commandIndex)
  }

  predicate Matches(c: CommandRef, kinds: seq<CommandKind>) {
    c.commandIndex < |kinds| && kinds[c.commandIndex] == c.kind
  }

  ghost predicate AllMatch(cs: seq<CommandRef>, kinds: seq<CommandKind>) {
    forall i :: 0 <= i < |cs| ==> Matches(cs[i], kinds)
  }

  /** The references name each source command exactly once, under its kind. */
  ghost predicate Accounts(cs: seq<CommandRef>, kinds: seq<CommandKind>) {
    && AllMatch(cs, kinds)
    && NoDuplicates(Indices(cs))
    && forall k: nat :: k < |kinds| ==> k in Indices(cs)
  }

  ghost predicate CommandRangesValid(g: Graph) {
    forall i :: 0 <= i < |g.passes| ==> ValidCommandRange(g, g.passes[i])
  }

  /** The graph can be replayed. */
  ghost predicate Replayable(g: Graph, kinds: seq<CommandKind>) {
    CommandRangesValid(g) && Accounts(Flatten(PassCommands(g)), kinds)
  }

  /** Row i is what pass i replays (`dead` false) or drops (`dead` true). */
  function RowsOf(g: Graph, dead: bool): (r: seq<seq<CommandRef>>)
    ensures |r| == |g.passes|
    ensures forall i :: 0 <= i < |r| ==> r[i] == if g.passes[i].flags.dead == dead then PassCommands(g)[i] else []
  {
    seq(|g.passes|, i requires 0 <= i < |g.passes| => if g.passes[i].flags.dead == dead then PassCommands(g)[i] else [])
  }

  function Replayed(g: Graph): seq<CommandRef> {
    Flatten(RowsOf(g, false))
  }

  function Dropped(g: Graph): seq<CommandRef> {
    Flatten(RowsOf(g, true))
  }

  ghost predicate Rising(s: seq<nat>) {
    forall i, j :: 0 <= i < j < |s| ==> s[i] < s[j]
  }

  // ----- accounting, reference by reference -----

  /** The two flag rows say which commands the references so far name, and which of those are dropped. */
  ghost predicate Accounted(accounted: seq<bool>, omitted: seq<bool>, seen: seq<CommandRef>, gone: seq<CommandRef>, kinds: seq<CommandKind>) {
    && |accounted| == |omitted| == |kinds|
    && AllMatch(seen, kinds) && NoDuplicates(Indices(seen))
    && (forall k: nat :: k < |kinds| ==> (accounted[k] <==> k in Indices(seen)))
    && (forall k: nat :: k < |kinds| ==> (omitted[k] <==> k in Indices(gone)))
  }

  lemma IndicesSnoc(cs: seq<CommandRef>, c: CommandRef)
    ensures Indices(cs + [c]) == Indices(cs) + [c.commandIndex]
  {
  }

  lemma IndicesAppend(a: seq<CommandRef>, b: seq<CommandRef>)
    ensures Indices(a + b) == Indices(a) + Indices(b)
  {
  }

  lemma AccountOne(accounted: seq<bool>, omitted: seq<bool>, seen: seq<CommandRef>, gone: seq<CommandRef>,
                   kinds: seq<CommandKind>, c: CommandRef, dead: bool)
    requires Accounted(accounted, omitted, seen, gone, kinds)
    requires Matches(c, kinds) && !accounted[c.commandIndex]
    ensures Accounted(accounted[c.commandIndex := true],
                      if dead then omitted[c.commandIndex := true] else omitted,
                      seen + [c], if dead then gone + [c] else gone, kinds)
  {
    IndicesSnoc(seen, c);
    IndicesSnoc(gone, c);
    assert c.commandIndex !in Indices(seen);
    hide Indices;
  }

  /** A reference that does not match, or repeats one, spoils every list it begins. */
  lemma Spoiled(accounted: seq<bool>, omitted: seq<bool>, seen: seq<CommandRef>, gone: seq<CommandRef>,
                kinds: seq<CommandKind>, c: CommandRef, rest: seq<CommandRef>)
    requires Accounted(accounted, omitted, seen, gone, kinds)
    requires Matches(c, kinds) ==> accounted[c.commandIndex]
    ensures !Accounts(seen + [c] + rest, kinds)
  {
    var all, n := seen + [c] + rest, |seen|;
    assert all[n] == c;
    if Matches(c, kinds) {
      var k :| 0 <= k < n && Indices(seen)[k] == c.commandIndex;
      assert Indices(all)[k] == Indices(all)[n];
    }
  }

  lemma AllAccounted(accounted: seq<bool>, omitted: seq<bool>, seen: seq<CommandRef>, gone: seq<CommandRef>, kinds: seq<CommandKind>)
    requires Accounted(accounted, omitted, seen, gone, kinds)
    ensures Accounts(seen, kinds) <==> forall k: nat :: k < |kinds| ==> accounted[k]
  {
  }

  /** Adding the next row to a flattening. */
  lemma FlattenNext<T>(rows: seq<seq<T>>, p: nat)
    requires p < |rows|
    ensures Flatten(rows[..p + 1]) == Flatten(rows[..p]) + rows[p]
    ensures Flatten(rows) == Flatten(rows[..p]) + rows[p] + Flatten(rows[p + 1..])
  {
    FlattenAppend(rows[..p], [rows[p]]);
    FlattenSingle(rows[p]);
    FlattenAppend(rows[..p + 1], rows[p + 1..]);
    hide Flatten;
    assert rows[..p + 1] == rows[..p] + [rows[p]];
    assert rows == rows[..p + 1] + rows[p + 1..];
  }

  lemma FlattenSingle<T>(row: seq<T>)
    ensures Flatten([row]) == row
  {
  }

  // ----- the plan -----

  /** Accounts one pass; stops at the first reference that spoils the plan. */
  method AccountPass(cs: seq<CommandRef>, dead: bool, kinds: seq<CommandKind>, accounted: array<bool>, omitted: array<bool>,
                     ghost seen: seq<CommandRef>, ghost gone: seq<CommandRef>)
    returns (ok: bool, live: seq<nat>)
    requires accounted != omitted && Accounted(accounted[..], omitted[..], seen, gone, kinds)
    modifies accounted, omitted
    ensures ok ==> Accounted(accounted[..], omitted[..], seen + cs, if dead then gone + cs else gone, kinds)
    ensures ok ==> live == if dead then [] else Indices(cs)
    ensures !ok ==> forall rest :: !Accounts(seen + cs + rest, kinds)
  {
    hide Accounted, Accounts;
    assert seen + cs[..0] == seen && gone + cs[..0] == gone;
    live := [];
    for i := 0 to |cs|
      invariant Accounted(accounted[..], omitted[..], seen + cs[..i], if dead then gone + cs[..i] else gone, kinds)
      invariant live == if dead then [] else Indices(cs[..i])
    {
      var c := cs[i];
      ghost var front, lost := seen + cs[..i], if dead then gone + cs[..i] else gone;
      Lengths(accounted[..], omitted[..], front, lost, kinds);
      if !Matches(c, kinds) || accounted[c.commandIndex] {
        forall rest ensures !Accounts(seen + cs + rest, kinds) {
          Spoiled(accounted[..], omitted[..], front, lost, kinds, c, cs[i + 1..] + rest);
          assert seen + cs + rest == front + [c] + (cs[i + 1..] + rest);
        }
        return false, live;
      }
      AccountOne(accounted[..], omitted[..], front, lost, kinds, c, dead);
      ghost var a, o := accounted[..], omitted[..];
      accounted[c.commandIndex] := true;
      if dead {
        omitted[c.commandIndex] := true;
      } else {
        IndicesSnoc(cs[..i], c);
        live := live + [c.commandIndex];
      }
      assert accounted[..] == a[c.commandIndex := true];
      assert omitted[..] == if dead then o[c.commandIndex := true] else o;
      assert cs[..i + 1] == cs[..i] + [c];
      assert seen + cs[..i + 1] == front + [c] && gone + cs[..i + 1] == gone + cs[..i] + [c];
    }
    assert cs[..|cs|] == cs;
    ok := true;
  }

  lemma Lengths(accounted: seq<bool>, omitted: seq<bool>, seen: seq<CommandRef>, gone: seq<CommandRef>, kinds: seq<CommandKind>)
    requires Accounted(accounted, omitted, seen, gone, kinds)
    ensures |accounted| == |omitted| == |kinds|
  {
  }

  lemma NothingAccounted(accounted: seq<bool>, omitted: seq<bool>, kinds: seq<CommandKind>)
    requires |accounted| == |omitted| == |kinds|
    requires forall k :: 0 <= k < |kinds| ==> !accounted[k] && !omitted[k]
    ensures Accounted(accounted, omitted, [], [], kinds)
  {
  }

  /** The live commands are the others, each once. */
  ghost predicate Complement(live: seq<nat>, omitted: seq<bool>) {
    && NoDuplicates(live)
    && forall k: nat :: k in live <==> k < |omitted| && !omitted[k]
  }

  /** Whether the live commands are in source order, by walking the indices that are left. */
  method InOrder(live: seq<nat>, omitted: array<bool>) returns (ordered: bool)
    requires Complement(live, omitted[..])
    ensures ordered <==> Rising(live)
  {
    var natural := 0;
    for i := 0 to |live|
      invariant natural <= omitted.Length
      invariant forall j :: 0 <= j < i ==> live[j] < natural
      invariant Rising(live[..i])
      invariant forall k: nat :: k < natural && !omitted[k] ==> k in live[..i]
    {
      while natural < omitted.Length && omitted[natural]
        invariant natural <= omitted.Length
        invariant forall j :: 0 <= j < i ==> live[j] < natural
        invariant forall k: nat :: k < natural && !omitted[k] ==> k in live[..i]
      {
        natural := natural + 1;
      }
      assert live[i] in live && !omitted[..][live[i]];
      NotYet(live, i, natural, omitted[..]);
      if live[i] != natural {
        return false;
      }
      assert live[..i + 1] == live[..i] + [live[i]];
      natural := natural + 1;
    }
    assert live[..|live|] == live;
    ordered := true;
  }

  /** The next live command is the smallest one left, or the order is broken here. */
  lemma NotYet(live: seq<nat>, i: nat, natural: nat, omitted: seq<bool>)
    requires Complement(live, omitted) && i < |live| && natural <= |omitted|
    requires forall k: nat :: k < natural && !omitted[k] ==> k in live[..i]
    requires natural < |omitted| ==> !omitted[natural]
    requires forall j :: 0 <= j < i ==> live[j] < natural
    ensures natural <= live[i] < |omitted|
    ensures live[i] != natural ==> !Rising(live)
  {
    assert live[i] in live;
    assert forall j :: 0 <= j < i ==> live[j] != live[i];
    assert live[i] !in live[..i];
    if live[i] != natural {
      assert natural in live;
      var j :| 0 <= j < |live| && live[j] == natural;
      assert i < j;
    }
  }

  lemma LiveComplement(accounted: seq<bool>, omitted: seq<bool>, seen: seq<CommandRef>, gone: seq<CommandRef>,
                       live: seq<CommandRef>, kinds: seq<CommandKind>)
    requires Accounted(accounted, omitted, seen, gone, kinds) && Accounts(seen, kinds)
    requires multiset(seen) == multiset(live) + multiset(gone)
    ensures Complement(Indices(live), omitted)
  {
    var a, b, s := Indices(live), Indices(gone), Indices(seen);
    IndicesPermute(seen, live + gone);
    IndicesAppend(live, gone);
    assert multiset(s) == multiset(a) + multiset(b);
    forall x ensures multiset(a)[x] + multiset(b)[x] <= 1 {
      CountOfDistinct(s, x);
    }
    DistinctOfCount(a);
    forall k: nat ensures k in a <==> k < |omitted| && !omitted[k] {
      CountOfDistinct(s, k);
      assert k in a <==> k in multiset(a);
      assert k in b <==> k in multiset(b);
      if k in a {
        assert k in multiset(s);
        var i :| 0 <= i < |seen| && s[i] == k;
        assert Matches(seen[i], kinds);
      }
    }
  }

  lemma {:induction false} IndicesPermute(cs: seq<CommandRef>, ds: seq<CommandRef>)
    requires multiset(cs) == multiset(ds)
    ensures multiset(Indices(cs)) == multiset(Indices(ds))
  {
    if cs == [] {
      assert |ds| == |multiset(ds)| == 0;
    } else {
      var k := RemoveBoth(cs, ds);
      IndicesPermute(cs[1..], ds[..k] + ds[k + 1..]);
      IndicesAppend([cs[0]], cs[1..]);
      IndicesAppend(ds[..k], ds[k + 1..]);
      assert Indices(cs) == [cs[0].commandIndex] + Indices(cs[1..]);
      assert Indices(ds) == Indices(ds[..k]) + [ds[k].commandIndex] + Indices(ds[k + 1..]);
    }
  }

  /** Replayed and dropped commands make up all of them. */
  lemma {:induction false} RowsSplit(all: seq<seq<CommandRef>>, live: seq<seq<CommandRef>>, gone: seq<seq<CommandRef>>)
    requires |all| == |live| == |gone|
    requires forall i :: 0 <= i < |all| ==> (live[i] == all[i] && gone[i] == []) || (live[i] == [] && gone[i] == all[i])
    ensures multiset(Flatten(all)) == multiset(Flatten(live)) + multiset(Flatten(gone))
  {
    if all != [] {
      RowsSplit(all[1..], live[1..], gone[1..]);
    }
  }

  /** What a valid plan says of the graph. */
  ghost predicate PlanRight(g: Graph, plan: ReplayPlan) {
    && plan.commandIndices == Indices(Replayed(g))
    && (plan.dropped <==> Dropped(g) != [])
    && (plan.reordered <==> !Rising(plan.commandIndices))
  }

  /** Everything about the first p passes: the flags, and what is planned. */
  ghost predicate Planned(g: Graph, p: nat, accounted: seq<bool>, omitted: seq<bool>, kinds: seq<CommandKind>,
                          indices: seq<nat>, dropped: bool)
  {
    && p <= |g.passes|
    && (forall i :: 0 <= i < p ==> ValidCommandRange(g, g.passes[i]))
    && Accounted(accounted, omitted, Flatten(PassCommands(g)[..p]), Flatten(RowsOf(g, true)[..p]), kinds)
    && indices == Indices(Flatten(RowsOf(g, false)[..p]))
    && (dropped <==> Flatten(RowsOf(g, true)[..p]) != [])
  }

  lemma PlannedNone(g: Graph, accounted: seq<bool>, omitted: seq<bool>, kinds: seq<CommandKind>)
    requires |accounted| == |omitted| == |kinds|
    requires forall k :: 0 <= k < |kinds| ==> !accounted[k] && !omitted[k]
    ensures Planned(g, 0, accounted, omitted, kinds, [], false)
  {
    NothingAccounted(accounted, omitted, kinds);
    FlattenNone(PassCommands(g), RowsOf(g, false), RowsOf(g, true));
  }

  lemma PlannedNext(g: Graph, p: nat, a: seq<bool>, o: seq<bool>, a': seq<bool>, o': seq<bool>, kinds: seq<CommandKind>,
                    indices: seq<nat>, dropped: bool, live: seq<nat>)
    requires Planned(g, p, a, o, kinds, indices, dropped) && p < |g.passes| && ValidCommandRange(g, g.passes[p])
    requires
      var seen, gone, cs := Flatten(PassCommands(g)[..p]), Flatten(RowsOf(g, true)[..p]), PassCommands(g)[p];
      && Accounted(a', o', seen + cs, if g.passes[p].flags.dead then gone + cs else gone, kinds)
      && live == if g.passes[p].flags.dead then [] else Indices(cs)
    ensures Planned(g, p + 1, a', o', kinds, indices + live,
                    dropped || (g.passes[p].flags.dead && PassCommands(g)[p] != []))
  {
    hide Accounted, ValidCommandRange, Flatten, Indices, RowsOf, PassCommands;
    FlattenNext(PassCommands(g), p);
    RowNext(g, p, false);
    RowNext(g, p, true);
    IndicesAppend(Flatten(RowsOf(g, false)[..p]), RowsOf(g, false)[p]);
  }

  lemma RowNext(g: Graph, p: nat, dead: bool)
    requires p < |g.passes|
    ensures Flatten(RowsOf(g, dead)[..p + 1]) == Flatten(RowsOf(g, dead)[..p]) + RowsOf(g, dead)[p]
    ensures g.passes[p].flags.dead != dead ==> Flatten(RowsOf(g, dead)[..p + 1]) == Flatten(RowsOf(g, dead)[..p])
    ensures g.passes[p].flags.dead != dead ==> Indices(RowsOf(g, dead)[p]) == []
  {
    hide Flatten;
    FlattenNext(RowsOf(g, dead), p);
  }

  /** A pass that cannot be accounted spoils the whole graph. */
  lemma PlannedFails(g: Graph, p: nat, kinds: seq<CommandKind>)
    requires p < |g.passes|
    requires !ValidCommandRange(g, g.passes[p])
          || forall rest :: !Accounts(Flatten(PassCommands(g)[..p]) + PassCommands(g)[p] + rest, kinds)
    ensures !Replayable(g, kinds)
  {
    FlattenNext(PassCommands(g), p);
    hide Accounts, Flatten;
  }

  lemma PlannedAll(g: Graph, accounted: seq<bool>, omitted: seq<bool>, kinds: seq<CommandKind>, indices: seq<nat>, dropped: bool)
    requires Planned(g, |g.passes|, accounted, omitted, kinds, indices, dropped)
    ensures |accounted| == |omitted| == |kinds|
    ensures Replayable(g, kinds) <==> forall k: nat :: k < |kinds| ==> accounted[k]
    ensures Replayable(g, kinds) ==> Complement(indices, omitted)
    ensures indices == Indices(Replayed(g)) && (dropped <==> Dropped(g) != [])
  {
    hide Accounts, Flatten, Complement;
    var all := PassCommands(g);
    assert all[..|g.passes|] == all;
    assert RowsOf(g, false)[..|g.passes|] == RowsOf(g, false) && RowsOf(g, true)[..|g.passes|] == RowsOf(g, true);
    AllAccounted(accounted, omitted, Flatten(all), Dropped(g), kinds);
    Lengths(accounted, omitted, Flatten(all), Dropped(g), kinds);
    hide Accounted;
    if Accounts(Flatten(all), kinds) {
      RowsSplit(all, RowsOf(g, false), RowsOf(g, true));
      LiveComplement(accounted, omitted, Flatten(all), Dropped(g), Replayed(g), kinds);
    }
  }

  /** A plan is valid exactly when the graph names every source command once; then it replays the live ones in pass order. */
  method PlanReplayCommands(graph: FrameGraph, kinds: seq<CommandKind>) returns (plan: ReplayPlan)
    ensures plan.valid <==> Replayable(graph.Value(), kinds)
    ensures plan.valid ==> PlanRight(graph.Value(), plan)
  {
    hide Replayable, Accounted, Flatten, Rising, Complement, Planned;
    ghost var g := graph.Value();
    var n := |kinds|;
    var accounted, omitted := new bool[n](_ => false), new bool[n](_ => false);
    PlannedNone(g, accounted[..], omitted[..], kinds);
    plan := ReplayPlan([], false, false, false);
    for p := 0 to |graph.passes|
      invariant !plan.valid && !plan.reordered
      invariant Planned(g, p, accounted[..], omitted[..], kinds, plan.commandIndices, plan.dropped)
    {
      var pass := graph.passes[p];
      if pass.commands.first > |graph.commands| || pass.commands.count > |graph.commands| - pass.commands.first {
        PlannedFails(g, p, kinds);
        return;
      }
      var cs := graph.commands[pass.commands.first..pass.commands.first + pass.commands.count];
      assert cs == PassCommands(g)[p];
      ghost var a, o := accounted[..], omitted[..];
      PlannedAccounts(g, p, a, o, kinds, plan.commandIndices, plan.dropped);
      var ok, live := AccountPass(cs, pass.flags.dead, kinds, accounted, omitted,
                                  Flatten(PassCommands(g)[..p]), Flatten(RowsOf(g, true)[..p]));
      if !ok {
        PlannedFails(g, p, kinds);
        return;
      }
      PlannedNext(g, p, a, o, accounted[..], omitted[..], kinds, plan.commandIndices, plan.dropped, live);
      plan := plan.(commandIndices := plan.commandIndices + live, dropped := plan.dropped || (pass.flags.dead && cs != []));
    }
    PlannedAll(g, accounted[..], omitted[..], kinds, plan.commandIndices, plan.dropped);
    for k := 0 to n
      invariant forall j :: 0 <= j < k ==> accounted[..][j]
    {
      if !accounted[k] {
        assert !accounted[..][k];
        return;
      }
    }
    var ordered := InOrder(plan.commandIndices, omitted);
    plan := plan.(valid := true, reordered := !ordered);
  }

  lemma PlannedAccounts(g: Graph, p: nat, accounted: seq<bool>, omitted: seq<bool>, kinds: seq<CommandKind>,
                        indices: seq<nat>, dropped: bool)
    requires Planned(g, p, accounted, omitted, kinds, indices, dropped)
    ensures p <= |g.passes|
    ensures Accounted(accounted, omitted, Flatten(PassCommands(g)[..p]), Flatten(RowsOf(g, true)[..p]), kinds)
  {
  }

  lemma FlattenNone<T>(a: seq<seq<T>>, b: seq<seq<T>>, c: seq<seq<T>>)
    ensures Flatten(a[..0]) == [] && Flatten(b[..0]) == [] && Flatten(c[..0]) == []
  {
  }

  // ----- merging passes keeps a graph replayable -----

  /** Accounting does not depend on the order of the references. */
  lemma AccountsPermute(cs: seq<CommandRef>, ds: seq<CommandRef>, kinds: seq<CommandKind>)
    requires multiset(cs) == multiset(ds) && Accounts(cs, kinds)
    ensures Accounts(ds, kinds)
  {
    IndicesPermute(cs, ds);
    var s, t := Indices(cs), Indices(ds);
    forall x ensures multiset(t)[x] <= 1 {
      CountOfDistinct(s, x);
    }
    DistinctOfCount(t);
    forall k: nat | k < |kinds| ensures k in t {
      assert k in s;
      assert k in multiset(s);
    }
    forall i | 0 <= i < |ds| ensures Matches(ds[i], kinds) {
      assert ds[i] in multiset(ds);
      assert ds[i] in cs;
    }
  }

  lemma DescendantRows(g0: Graph, g: Graph, origins: seq<seq<nat>>, j: nat)
    requires Descends(g0, g, origins) && j < |origins|
    ensures Bounded(origins[j], |g0.passes|)
    ensures RowsOf(g, false)[j] == ConcatMap(RowsOf(g0, false), origins[j])
  {
    assert Folds(g0, g, origins[j], j);
    if g.passes[j].flags.dead {
      SilentRows(RowsOf(g0, false), origins[j]);
    } else {
      SameRows(RowsOf(g0, false), PassCommands(g0), origins[j]);
    }
  }

  lemma {:induction false} SilentRows(f: seq<seq<CommandRef>>, idx: seq<nat>)
    requires Bounded(idx, |f|) && forall t :: 0 <= t < |idx| ==> f[idx[t]] == []
    ensures ConcatMap(f, idx) == []
  {
    if idx != [] {
      SilentRows(f, idx[1..]);
    }
  }

  lemma {:induction false} SameRows(f: seq<seq<CommandRef>>, h: seq<seq<CommandRef>>, idx: seq<nat>)
    requires |f| == |h| && Bounded(idx, |f|) && forall t :: 0 <= t < |idx| ==> f[idx[t]] == h[idx[t]]
    ensures ConcatMap(f, idx) == ConcatMap(h, idx)
  {
    if idx != [] {
      SameRows(f, h, idx[1..]);
    }
  }

  /** The same commands are replayed, however the passes were merged and reordered. */
  lemma DescendantReplays(g0: Graph, g: Graph, origins: seq<seq<nat>>)
    requires Descends(g0, g, origins)
    ensures multiset(Replayed(g)) == multiset(Replayed(g0))
  {
    forall j | 0 <= j < |origins|
      ensures Bounded(origins[j], |g0.passes|) && RowsOf(g, false)[j] == ConcatMap(RowsOf(g0, false), origins[j])
    {
      DescendantRows(g0, g, origins, j);
    }
    var rows, all := RowsOf(g0, false), Iota(0, |g0.passes|);
    FlattenRows(rows, RowsOf(g, false), origins);
    ConcatMapPermutation(rows, Flatten(origins), all);
    ConcatMapIota(rows, 0);
    assert rows[0..] == rows;
  }

  /** Merging to the fixpoint keeps a graph replayable, and replays the same commands. */
  lemma CoalescedReplayable(g: Graph, kinds: seq<CommandKind>)
    requires WellFormed(g) && CommandRangesValid(g)
    ensures Replayable(Coalesced(g), kinds) <==> Replayable(g, kinds)
    ensures multiset(Replayed(Coalesced(g))) == multiset(Replayed(g))
  {
    CoalescedDescends(g);
    var origins := Origins(g);
    DescendantReplays(g, Coalesced(g), origins);
    DescendantConserves(g, Coalesced(g), origins);
    if Stuck(g) {
      CoalescedStop(g);
    } else {
      CoalescedPacked(g);
    }
    var cs, ds := Flatten(PassCommands(g)), Flatten(PassCommands(Coalesced(g)));
    if Accounts(cs, kinds) {
      AccountsPermute(cs, ds, kinds);
    }
    if Accounts(ds, kinds) {
      AccountsPermute(ds, cs, kinds);
    }
    hide Accounts, Stuck, Replayed, Flatten;
  }

  // ----- frames built from a command stream -----

  function KindOf(c: SourceCommand): CommandKind {
    match c
    case DrawSource(_, _, _, _, _, _) => DrawRun
    case ClearSource(_, _, _, _) => Clear
    case PresentSource(_) => PresentCommand
    case CopySource(_, _, _) => SurfaceCopy
    case StretchSource(_, _, _) => StretchRect
    case FillSource(_, _) => ColorFill
    case ResolveSource(_, _, _) => DepthResolve
    case MipmapSource(_, _) => GenerateMipmaps
    case ReadbackSource(_, _) => Readback
  }

  function KindsOf(cs: seq<SourceCommand>): (kinds: seq<CommandKind>)
    ensures |kinds| == |cs| && forall i :: 0 <= i < |cs| ==> kinds[i] == KindOf(cs[i])
  {
    seq(|cs|, i requires 0 <= i < |cs| => KindOf(cs[i]))
  }

  /** The builder passes over a command whose payload is missing. */
  predicate Skipped(c: SourceCommand) {
    !c.PresentSource? && !c.present
  }

  /** References to the commands that are not skipped, in stream order. */
  function Emitted(cs: seq<SourceCommand>): seq<CommandRef> {
    if cs == [] then []
    else
      var c, before := cs[|cs| - 1], Emitted(cs[..|cs| - 1]);
      if Skipped(c) then before else before + [CommandRef(|cs| - 1, KindOf(c))]
  }

  lemma {:induction false} BuiltCommands(cs: seq<SourceCommand>, alias: AliasResolver)
    requires StreamFits(cs)
    ensures Built(cs, alias).graph.commands == Emitted(cs)
  {
    if cs != [] {
      BuiltCommands(cs[..|cs| - 1], alias);
      var s, c := Built(cs[..|cs| - 1], alias), cs[|cs| - 1];
      StepCommands(s, alias, |cs| - 1, c);
      hide BuildStep;
    }
  }

  lemma StepCommands(s: BuilderState, alias: AliasResolver, index: nat, c: SourceCommand)
    requires CommandFits(c) && StateFits(s)
    ensures BuildStep(s, alias, index, c).graph.commands
         == if Skipped(c) then s.graph.commands else s.graph.commands + [CommandRef(index, KindOf(c))]
  {
  }

  /** The references so far name the commands of a prefix that are not skipped, each once. */
  ghost predicate NamesPrefix(refs: seq<CommandRef>, cs: seq<SourceCommand>, n: nat) {
    && n <= |cs|
    && (forall i :: 0 <= i < |refs| ==> refs[i].commandIndex < n && refs[i].kind == KindOf(cs[refs[i].commandIndex]))
    && NoDuplicates(Indices(refs))
    && forall k: nat :: k in Indices(refs) <==> k < n && !Skipped(cs[k])
  }

  lemma NamesNext(refs: seq<CommandRef>, cs: seq<SourceCommand>, n: nat)
    requires n < |cs| && NamesPrefix(refs, cs, n)
    ensures NamesPrefix(if Skipped(cs[n]) then refs else refs + [CommandRef(n, KindOf(cs[n]))], cs, n + 1)
  {
    hide KindOf, Skipped;
    if !Skipped(cs[n]) {
      IndicesSnoc(refs, CommandRef(n, KindOf(cs[n])));
    }
  }

  lemma {:induction false} EmittedNames(cs: seq<SourceCommand>, n: nat)
    requires n <= |cs|
    ensures NamesPrefix(Emitted(cs[..n]), cs, n)
  {
    if n > 0 {
      EmittedNames(cs, n - 1);
      assert cs[..n][..n - 1] == cs[..n - 1];
      NamesNext(Emitted(cs[..n - 1]), cs, n - 1);
      hide NamesPrefix;
    }
  }

  lemma EmittedAccounts(cs: seq<SourceCommand>)
    ensures Accounts(Emitted(cs), KindsOf(cs)) <==> forall i :: 0 <= i < |cs| ==> !Skipped(cs[i])
  {
    EmittedNames(cs, |cs|);
    assert cs[..|cs|] == cs;
    hide Emitted;
    NamesAccount(Emitted(cs), cs);
  }

  lemma NamesAccount(refs: seq<CommandRef>, cs: seq<SourceCommand>)
    requires NamesPrefix(refs, cs, |cs|)
    ensures Accounts(refs, KindsOf(cs)) <==> forall i :: 0 <= i < |cs| ==> !Skipped(cs[i])
  {
    hide KindOf, Skipped;
    assert AllMatch(refs, KindsOf(cs));
    hide Matches;
    if k: nat :| k < |cs| && Skipped(cs[k]) {
      assert k !in Indices(refs);
    }
  }

  /** A merged frame can be replayed exactly when the builder skipped no command of the stream; then nothing is dropped. */
  lemma StreamReplayable(cs: seq<SourceCommand>, alias: AliasResolver)
    requires StreamFits(cs) && |Built(cs, alias).graph.passes| <= NO_PASS
    ensures
      var g := Coalesced(Built(cs, alias).graph);
      && (Replayable(g, KindsOf(cs)) <==> forall i :: 0 <= i < |cs| ==> !Skipped(cs[i]))
      && multiset(Replayed(g)) == multiset(Emitted(cs))
  {
    var g, kinds := Built(cs, alias).graph, KindsOf(cs);
    BuiltConsistent(cs, alias);
    BuiltCommands(cs, alias);
    SoundForward(g);
    assert forall i :: 0 <= i < |g.passes| ==> ValidPass(g, g.passes[i]);
    CoalescedReplayable(g, kinds);
    assert RowsOf(g, false) == PassCommands(g);
    EmittedAccounts(cs);
    hide Built, Emitted, Sound, Replayed, Dropped, TargetsWritten, HandlesDistinct;
  }
}
