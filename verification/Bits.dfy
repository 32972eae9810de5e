/**
  Packed rows of flags. A 64-bit word is the set of positions of its one-bits, so
  that OR-ing in a mask is adding a position and AND-ing out a mask removing one.
 */
module Bits {

  type Word = w: set<nat> | forall b :: b in w ==> b < 64

  const NO_BITS: Word := {}

  /** How many words hold n flags. */
  function WordsFor(n: nat): nat {
    (n + 63) / 64
  }

  predicate InRow(row: seq<Word>, v: nat) {
    v / 64 < |row| && v % 64 in row[v / 64]
  }

  function RowWith(row: seq<Word>, v: nat): seq<Word>
    requires v / 64 < |row|
  {
    row[v / 64 := row[v / 64] + {v % 64}]
  }

  function RowWithout(row: seq<Word>, v: nat): seq<Word>
    requires v / 64 < |row|
  {
    row[v / 64 := row[v / 64] - {v % 64}]
  }

  lemma RowWithBits(row: seq<Word>, v: nat, u: nat)
    requires v / 64 < |row|
    ensures InRow(RowWith(row, v), u) <==> (u == v || InRow(row, u))
  {
  }

  lemma RowWithoutBits(row: seq<Word>, v: nat, u: nat)
    requires v / 64 < |row|
    ensures InRow(RowWithout(row, v), u) <==> (u != v && InRow(row, u))
  {
  }

  lemma EmptyRow(words: nat, v: nat)
    ensures !InRow(seq(words, _ => NO_BITS), v)
  {
  }

  /** Rows of one length are equal exactly when they hold the same flags. */
  lemma SameRow(a: seq<Word>, b: seq<Word>)
    requires |a| == |b|
    requires forall v: nat :: v < 64 * |a| ==> (InRow(a, v) <==> InRow(b, v))
    ensures a == b
  {
    forall i | 0 <= i < |a| ensures a[i] == b[i] {
      forall k: nat | k < 64 ensures k in a[i] <==> k in b[i] {
        assert (64 * i + k) / 64 == i && (64 * i + k) % 64 == k;
        assert InRow(a, 64 * i + k) <==> InRow(b, 64 * i + k);
      }
    }
  }
}
