/**
  Sequence facts shared by the models: index ranges, concatenations indexed by
  another sequence, and what a permutation leaves unchanged.
 */
module Sequences {

  /** The indices lo, lo + 1, ..., hi - 1. */
  function Iota(lo: nat, hi: nat): (s: seq<nat>)
    requires lo <= hi
    ensures |s| == hi - lo
    ensures forall i :: 0 <= i < |s| ==> s[i] == lo + i
  {
    seq(hi - lo, i => lo + i)
  }

  lemma IotaSnoc(lo: nat, hi: nat)
    requires lo <= hi
    ensures Iota(lo, hi + 1) == Iota(lo, hi) + [hi]
  {
  }

  /** Each element as a one-element group. */
  function Singles<T>(s: seq<T>): (r: seq<seq<T>>)
    ensures |r| == |s|
    ensures forall i :: 0 <= i < |r| ==> r[i] == [s[i]]
  {
    seq(|s|, i requires 0 <= i < |s| => [s[i]])
  }

  ghost predicate Bounded(s: seq<nat>, n: nat) {
    forall i :: 0 <= i < |s| ==> s[i] < n
  }

  ghost predicate NoDuplicates<T>(s: seq<T>) {
    forall i, j :: 0 <= i < j < |s| ==> s[i] != s[j]
  }

  function Flatten<T>(ss: seq<seq<T>>): seq<T> {
    if ss == [] then [] else ss[0] + Flatten(ss[1..])
  }

  /** The rows of `f` named by `idx`, one after the other. */
  function ConcatMap<T>(f: seq<seq<T>>, idx: seq<nat>): seq<T>
    requires Bounded(idx, |f|)
  {
    if idx == [] then [] else f[idx[0]] + ConcatMap(f, idx[1..])
  }

  lemma {:induction false} FlattenAppend<T>(a: seq<seq<T>>, b: seq<seq<T>>)
    ensures Flatten(a + b) == Flatten(a) + Flatten(b)
  {
    if a == [] {
      assert a + b == b;
    } else {
      assert (a + b)[1..] == a[1..] + b;
      FlattenAppend(a[1..], b);
    }
  }

  lemma {:induction false} FlattenSingles<T>(s: seq<T>)
    ensures Flatten(Singles(s)) == s
  {
    if s != [] {
      assert Singles(s)[1..] == Singles(s[1..]);
      FlattenSingles(s[1..]);
    }
  }

  lemma FlattenFrom<T>(ss: seq<seq<T>>, lo: nat)
    requires lo < |ss|
    ensures Flatten(ss[lo..]) == ss[lo] + Flatten(ss[lo + 1..])
  {
    assert ss[lo..][1..] == ss[lo + 1..];
  }

  lemma {:induction false} FlattenMember<T>(ss: seq<seq<T>>, j: nat, x: T)
    requires j < |ss| && x in ss[j]
    ensures x in Flatten(ss)
  {
    if j > 0 {
      assert ss[1..][j - 1] == ss[j];
      FlattenMember(ss[1..], j - 1, x);
    }
  }

  lemma {:induction false} FlattenOrigin<T>(ss: seq<seq<T>>, x: T) returns (j: nat)
    requires x in Flatten(ss)
    ensures j < |ss| && x in ss[j]
  {
    if x in ss[0] {
      j := 0;
    } else {
      var k := FlattenOrigin(ss[1..], x);
      j := k + 1;
    }
  }

  lemma {:induction false} ConcatMapAppend<T>(f: seq<seq<T>>, a: seq<nat>, b: seq<nat>)
    requires Bounded(a, |f|) && Bounded(b, |f|)
    ensures Bounded(a + b, |f|)
    ensures ConcatMap(f, a + b) == ConcatMap(f, a) + ConcatMap(f, b)
  {
    if a == [] {
      assert a + b == b;
    } else {
      assert (a + b)[1..] == a[1..] + b;
      ConcatMapAppend(f, a[1..], b);
    }
  }

  lemma {:induction false} ConcatMapMember<T>(f: seq<seq<T>>, idx: seq<nat>, k: nat, x: T)
    requires Bounded(idx, |f|) && k < |idx| && x in f[idx[k]]
    ensures x in ConcatMap(f, idx)
  {
    if k > 0 {
      ConcatMapMember(f, idx[1..], k - 1, x);
    }
  }

  lemma {:induction false} ConcatMapOrigin<T>(f: seq<seq<T>>, idx: seq<nat>, x: T) returns (k: nat)
    requires Bounded(idx, |f|) && x in ConcatMap(f, idx)
    ensures k < |idx| && x in f[idx[k]]
  {
    if x in f[idx[0]] {
      k := 0;
    } else {
      var m := ConcatMapOrigin(f, idx[1..], x);
      k := m + 1;
    }
  }

  /** Appending one element to either half of a split keeps it a split. */
  lemma SplitSnoc<T>(p: seq<T>, q: seq<T>, s: seq<T>, x: T, p1: seq<T>, q1: seq<T>, s1: seq<T>)
    requires multiset(p) + multiset(q) == multiset(s) && s1 == s + [x]
    requires (p1 == p + [x] && q1 == q) || (p1 == p && q1 == q + [x])
    ensures multiset(p1) + multiset(q1) == multiset(s1)
  {
    assert multiset(s1) == multiset(s) + multiset{x};
    if p1 == p + [x] && q1 == q {
      assert multiset(p1) == multiset(p) + multiset{x};
    } else {
      assert multiset(q1) == multiset(q) + multiset{x};
    }
  }

  /** Which of five concatenated pieces position j falls into. */
  lemma PieceOf<T>(a: seq<T>, b: seq<T>, c: seq<T>, d: seq<T>, e: seq<T>, j: nat)
    requires j < |a| + |b| + |c| + |d| + |e|
    ensures
      var x := (a + (b + (c + (d + e))))[j];
      if j < |a| then x == a[j]
      else if j < |a| + |b| then x == b[j - |a|]
      else if j < |a| + |b| + |c| then x == c[j - |a| - |b|]
      else if j < |a| + |b| + |c| + |d| then x == d[j - |a| - |b| - |c|]
      else x == e[j - |a| - |b| - |c| - |d|]
  {
  }

  lemma IotaAroundPair(a: nat, b: nat, n: nat)
    requires a < b < n
    ensures Iota(0, n) == Iota(0, a) + ([a] + (Iota(a + 1, b) + ([b] + Iota(b + 1, n))))
  {
  }

  /** Gathering the two halves of a split around the pair they were taken from. */
  lemma SplitAroundPair<T>(low: seq<T>, x: T, p: seq<T>, q: seq<T>, mid: seq<T>, y: T, high: seq<T>)
    requires multiset(p) + multiset(q) == multiset(mid)
    ensures multiset(low + (p + ([x, y] + (q + high)))) == multiset(low + ([x] + (mid + ([y] + high))))
  {
  }

  lemma RemoveAt<T>(s: seq<T>, k: nat)
    requires k < |s|
    ensures multiset(s) == multiset(s[..k] + s[k + 1..]) + multiset{s[k]}
  {
    assert s == s[..k] + ([s[k]] + s[k + 1..]);
  }

  lemma CancelOne<T>(a: multiset<T>, b: multiset<T>, x: T)
    requires a + multiset{x} == b + multiset{x}
    ensures a == b
  {
    assert a == (a + multiset{x}) - multiset{x};
    assert b == (b + multiset{x}) - multiset{x};
  }

  /** Removing the same element from two permutations leaves permutations. */
  lemma RemoveBoth<T>(s: seq<T>, t: seq<T>) returns (k: nat)
    requires s != [] && multiset(s) == multiset(t)
    ensures k < |t| && t[k] == s[0]
    ensures multiset(s[1..]) == multiset(t[..k] + t[k + 1..])
  {
    assert s[0] in multiset(t);
    k :| 0 <= k < |t| && t[k] == s[0];
    RemoveAt(s, 0);
    RemoveAt(t, k);
    assert s[..0] + s[1..] == s[1..];
    CancelOne(multiset(s[1..]), multiset(t[..k] + t[k + 1..]), s[0]);
  }

  /** Reordering the index list reorders the concatenation, and nothing else. */
  lemma {:induction false} ConcatMapPermutation<T>(f: seq<seq<T>>, s: seq<nat>, t: seq<nat>)
    requires Bounded(s, |f|) && Bounded(t, |f|)
    requires multiset(s) == multiset(t)
    ensures multiset(ConcatMap(f, s)) == multiset(ConcatMap(f, t))
  {
    if s == [] {
      assert |t| == |multiset(t)| == 0;
    } else {
      var k := RemoveBoth(s, t);
      var p, q := t[..k], t[k + 1..];
      ConcatMapPermutation(f, s[1..], p + q);
      ConcatMapAppend(f, p, q);
      ConcatMapAppend(f, p, [t[k]] + q);
      ConcatMapFirst(f, t[k], q);
      assert t == p + ([t[k]] + q);
    }
  }

  lemma ConcatMapFirst<T>(f: seq<seq<T>>, x: nat, q: seq<nat>)
    requires x < |f| && Bounded(q, |f|)
    ensures ConcatMap(f, [x] + q) == f[x] + ConcatMap(f, q)
  {
    assert ([x] + q)[1..] == q;
  }

  /** Concatenating row by row over all indices is flattening. */
  lemma {:induction false} ConcatMapIota<T>(f: seq<seq<T>>, lo: nat)
    requires lo <= |f|
    ensures ConcatMap(f, Iota(lo, |f|)) == Flatten(f[lo..])
    decreases |f| - lo
  {
    if lo < |f| {
      assert Iota(lo, |f|)[1..] == Iota(lo + 1, |f|);
      assert f[lo..][1..] == f[lo + 1..];
      ConcatMapIota(f, lo + 1);
    }
  }

  lemma {:induction false} CountOfDistinct<T>(s: seq<T>, x: T)
    requires NoDuplicates(s)
    ensures multiset(s)[x] == if x in s then 1 else 0
  {
    if s != [] {
      assert s == [s[0]] + s[1..];
      CountOfDistinct(s[1..], x);
    }
  }

  lemma {:induction false} DistinctOfCount<T>(s: seq<T>)
    requires forall x :: multiset(s)[x] <= 1
    ensures NoDuplicates(s)
  {
    if s != [] {
      assert s == [s[0]] + s[1..];
      forall x ensures multiset(s[1..])[x] <= 1 {
        assert multiset(s)[x] == multiset([s[0]])[x] + multiset(s[1..])[x];
      }
      DistinctOfCount(s[1..]);
      assert multiset(s)[s[0]] == 1 + multiset(s[1..])[s[0]];
      forall i, j | 0 <= i < j < |s| ensures s[i] != s[j] {
        if i == 0 {
          assert s[j] == s[1..][j - 1] && s[j] in multiset(s[1..]);
        } else {
          assert s[i] == s[1..][i - 1] && s[j] == s[1..][j - 1];
        }
      }
    }
  }

  /** `order` lists each of 0..n exactly once. */
  ghost predicate Permutation(order: seq<nat>, n: nat) {
    multiset(order) == multiset(Iota(0, n))
  }

  lemma PermutationFacts(order: seq<nat>, n: nat)
    requires Permutation(order, n)
    ensures |order| == n && Bounded(order, n) && NoDuplicates(order)
    ensures forall x: nat :: x < n ==> x in order
  {
    var s := Iota(0, n);
    assert |order| == |multiset(order)| == |multiset(s)| == n;
    forall i | 0 <= i < |order| ensures order[i] < n {
      assert order[i] in multiset(s);
    }
    forall x: nat | x < n ensures x in order {
      assert s[x] == x;
      assert x in multiset(order);
    }
    forall x ensures multiset(order)[x] <= 1 {
      CountOfDistinct(s, x);
    }
    DistinctOfCount(order);
  }

  /** In a partition into groups no index lies in two of them. */
  lemma GroupsDisjoint(groups: seq<seq<nat>>, n: nat, j: nat, k: nat, x: nat)
    requires Permutation(Flatten(groups), n)
    requires j < |groups| && k < |groups| && x in groups[j] && x in groups[k]
    ensures j == k
  {
    CountOfDistinct(Iota(0, n), x);
    if j < k {
      MemberOfTwoGroups(groups, j, k, x);
    } else if k < j {
      MemberOfTwoGroups(groups, k, j, x);
    }
  }

  lemma MemberOfTwoGroups<T>(ss: seq<seq<T>>, j: nat, k: nat, x: T)
    requires j < k < |ss| && x in ss[j] && x in ss[k]
    ensures multiset(Flatten(ss))[x] >= 2
  {
    var p, q := ss[..k], ss[k..];
    FlattenMember(p, j, x);
    FlattenMember(q, 0, x);
    FlattenAppend(p, q);
    assert ss == p + q;
    CountOfAppend(Flatten(p), Flatten(q), x);
  }

  lemma CountOfAppend<T>(a: seq<T>, b: seq<T>, x: T)
    ensures multiset(a + b)[x] == multiset(a)[x] + multiset(b)[x]
  {
    assert multiset(a + b) == multiset(a) + multiset(b);
  }

  lemma GroupOf(groups: seq<seq<nat>>, n: nat, x: nat) returns (j: nat)
    requires Permutation(Flatten(groups), n) && x < n
    ensures j < |groups| && x in groups[j]
  {
    PermutationFacts(Flatten(groups), n);
    j := FlattenOrigin(groups, x);
  }

  lemma GroupsBounded(groups: seq<seq<nat>>, n: nat)
    requires Permutation(Flatten(groups), n)
    ensures forall j :: 0 <= j < |groups| ==> Bounded(groups[j], n)
  {
    PermutationFacts(Flatten(groups), n);
    forall j, i | 0 <= j < |groups| && 0 <= i < |groups[j]| ensures groups[j][i] < n {
      FlattenMember(groups, j, groups[j][i]);
    }
  }

  // ----- intervals -----

  /** The numbers from lo up to, not including, hi. */
  ghost function Interval(lo: nat, hi: nat): (s: set<nat>)
    ensures forall x: nat :: x in s <==> lo <= x < hi
    decreases hi
  {
    if hi <= lo then {} else Interval(lo, hi - 1) + {hi - 1}
  }

  lemma {:induction false} IntervalSize(lo: nat, hi: nat)
    requires lo <= hi
    ensures |Interval(lo, hi)| == hi - lo
    decreases hi
  {
    if lo < hi {
      IntervalSize(lo, hi - 1);
    }
  }
}
