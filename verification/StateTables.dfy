/**
  A direct-mapped table of state values: presence and change flags packed into
  words, a count, and a hash rolled forward by every change.
 */
module StateTables {
  import opened Bits

  /** A 64-bit digest, as the set of its one-bit positions; XOR keeps what only one side has. */
  function Xor(a: Word, b: Word): Word {
    (a - b) + (b - a)
  }

  type EntryHash = (nat, nat) -> Word

  lemma XorLaws(a: Word, b: Word, c: Word)
    ensures Xor(a, b) == Xor(b, a)
    ensures Xor(Xor(a, b), c) == Xor(a, Xor(b, c))
    ensures Xor(Xor(a, b), b) == a
    ensures Xor(a, NO_BITS) == a
  {
  }

  // ----- what a table holds -----

  function Digest(m: map<nat, nat>, n: nat, hash: EntryHash): Word {
    if n == 0 then NO_BITS
    else if n - 1 in m then Xor(Digest(m, n - 1, hash), hash(n - 1, m[n - 1]))
    else Digest(m, n - 1, hash)
  }

  lemma {:induction false} DigestSame(m: map<nat, nat>, w: map<nat, nat>, n: nat, hash: EntryHash)
    requires forall k: nat :: k < n ==> (k in m <==> k in w) && (k in m ==> m[k] == w[k])
    ensures Digest(w, n, hash) == Digest(m, n, hash)
  {
    if n > 0 {
      DigestSame(m, w, n - 1, hash);
    }
  }

  lemma {:induction false} DigestAdd(m: map<nat, nat>, n: nat, key: nat, value: nat, hash: EntryHash)
    requires key < n && key !in m
    ensures Digest(m[key := value], n, hash) == Xor(Digest(m, n, hash), hash(key, value))
  {
    var w := m[key := value];
    if key == n - 1 {
      DigestSame(m, w, n - 1, hash);
    } else {
      DigestAdd(m, n - 1, key, value, hash);
      if n - 1 in m {
        var d, h, e := Digest(m, n - 1, hash), hash(n - 1, m[n - 1]), hash(key, value);
        XorLaws(d, h, e);
        XorLaws(d, e, h);
        XorLaws(h, e, NO_BITS);
        hide Xor, Digest;
      }
    }
  }

  lemma DigestRemove(m: map<nat, nat>, n: nat, key: nat, hash: EntryHash)
    requires key < n && key in m
    ensures Digest(m - {key}, n, hash) == Xor(Digest(m, n, hash), hash(key, m[key]))
  {
    var rest := m - {key};
    assert rest[key := m[key]] == m;
    DigestAdd(rest, n, key, m[key], hash);
    XorLaws(Digest(rest, n, hash), hash(key, m[key]), NO_BITS);
  }

  lemma DigestReplace(m: map<nat, nat>, n: nat, key: nat, value: nat, hash: EntryHash)
    requires key < n && key in m
    ensures Digest(m[key := value], n, hash) == Xor(Xor(Digest(m, n, hash), hash(key, m[key])), hash(key, value))
  {
    DigestRemove(m, n, key, hash);
    DigestAdd(m - {key}, n, key, value, hash);
    assert (m - {key})[key := value] == m[key := value];
  }

  lemma {:induction false} DigestEmpty(n: nat, hash: EntryHash)
    ensures Digest(map[], n, hash) == NO_BITS
  {
    if n > 0 {
      DigestEmpty(n - 1, hash);
    }
  }

  // ----- representation -----

  /** The compared fields of a table. */
  datatype Fields = Fields(values: seq<nat>, occupied: seq<Word>, count: nat, rolling: Word)

  ghost predicate SlotRight(f: Fields, m: map<nat, nat>, k: nat)
    requires k < |f.values|
  {
    && (InRow(f.occupied, k) <==> k in m)
    && f.values[k] == if k in m then m[k] else 0
  }

  /** The fields hold exactly this map. */
  ghost predicate Holds(f: Fields, m: map<nat, nat>, hash: EntryHash) {
    var n := |f.values|;
    && |f.occupied| == WordsFor(n)
    && (forall k: nat :: k < n ==> SlotRight(f, m, k))
    && (forall k :: k in m ==> k < n)
    && (forall v: nat :: InRow(f.occupied, v) ==> v < n)
    && f.count == |m|
    && f.rolling == Digest(m, n, hash)
  }

  /** Whatever history led to them, fields are equal exactly when the maps are. */
  lemma HistoryIndependent(f: Fields, g: Fields, m: map<nat, nat>, w: map<nat, nat>, hash: EntryHash)
    requires Holds(f, m, hash) && Holds(g, w, hash) && |f.values| == |g.values|
    ensures f == g <==> m == w
  {
    if f == g {
      forall k | k in m || k in w ensures k in m && k in w && m[k] == w[k] {
        assert SlotRight(f, m, k) && SlotRight(g, w, k);
      }
      assert m.Keys == w.Keys;
    } else if m == w {
      forall k: nat | k < |f.values| ensures f.values[k] == g.values[k] {
        assert SlotRight(f, m, k) && SlotRight(g, w, k);
      }
      forall v: nat | v < 64 * |f.occupied| ensures InRow(f.occupied, v) <==> InRow(g.occupied, v) {
        if v < |f.values| {
          assert SlotRight(f, m, v) && SlotRight(g, w, v);
        }
      }
      SameRow(f.occupied, g.occupied);
    }
  }

  lemma HoldsNothing(n: nat, hash: EntryHash)
    ensures Holds(Fields(seq(n, _ => 0), seq(WordsFor(n), _ => NO_BITS), 0, NO_BITS), map[], hash)
  {
    DigestEmpty(n, hash);
  }

  lemma SetAbsent(f: Fields, m: map<nat, nat>, key: nat, value: nat, hash: EntryHash)
    requires Holds(f, m, hash) && key < |f.values| && key !in m
    ensures Holds(
      Fields(f.values[key := value], RowWith(f.occupied, key), f.count + 1, Xor(f.rolling, hash(key, value))),
      m[key := value], hash)
  {
    var w := m[key := value];
    var g := Fields(f.values[key := value], RowWith(f.occupied, key), f.count + 1, Xor(f.rolling, hash(key, value)));
    DigestAdd(m, |f.values|, key, value, hash);
    assert w.Keys == m.Keys + {key};
    CardinalityOfMap(m);
    CardinalityOfMap(w);
    forall k: nat | k < |g.values| ensures SlotRight(g, w, k) {
      assert SlotRight(f, m, k);
      RowWithBits(f.occupied, key, k);
    }
    forall v: nat | InRow(g.occupied, v) ensures v < |g.values| {
      RowWithBits(f.occupied, key, v);
    }
    hide Digest, RowWith, InRow, Xor;
  }

  lemma CardinalityOfMap(m: map<nat, nat>)
    ensures |m| == |m.Keys|
  {
  }

  lemma SetPresent(f: Fields, m: map<nat, nat>, key: nat, value: nat, hash: EntryHash)
    requires Holds(f, m, hash) && key < |f.values| && key in m
    ensures Holds(
      f.(values := f.values[key := value], rolling := Xor(Xor(f.rolling, hash(key, m[key])), hash(key, value))),
      m[key := value], hash)
  {
    var w := m[key := value];
    var g := f.(values := f.values[key := value], rolling := Xor(Xor(f.rolling, hash(key, m[key])), hash(key, value)));
    DigestReplace(m, |f.values|, key, value, hash);
    assert w.Keys == m.Keys;
    CardinalityOfMap(m);
    CardinalityOfMap(w);
    forall k: nat | k < |g.values| ensures SlotRight(g, w, k) {
      assert SlotRight(f, m, k);
    }
    hide Digest, InRow, Xor;
  }

  lemma ErasePresent(f: Fields, m: map<nat, nat>, key: nat, hash: EntryHash)
    requires Holds(f, m, hash) && key < |f.values| && key in m
    ensures f.count > 0
    ensures Holds(
      Fields(f.values[key := 0], RowWithout(f.occupied, key), f.count - 1, Xor(f.rolling, hash(key, m[key]))),
      m - {key}, hash)
  {
    var w := m - {key};
    DigestRemove(m, |f.values|, key, hash);
    assert m.Keys == w.Keys + {key};
    CardinalityOfMap(m);
    CardinalityOfMap(w);
    var g := Fields(f.values[key := 0], RowWithout(f.occupied, key), f.count - 1, Xor(f.rolling, hash(key, m[key])));
    forall k: nat | k < |g.values| ensures SlotRight(g, w, k) {
      assert SlotRight(f, m, k);
      RowWithoutBits(f.occupied, key, k);
    }
    forall v: nat | InRow(g.occupied, v) ensures v < |g.values| {
      RowWithoutBits(f.occupied, key, v);
    }
    hide Digest, RowWithout, InRow, Xor;
  }

  // ----- listings -----

  datatype Entry = Entry(state: nat, value: nat)

  ghost predicate Ascending(entries: seq<Entry>) {
    forall i, j :: 0 <= i < j < |entries| ==> entries[i].state < entries[j].state
  }

  /** The entries of the keys below n, in ascending order of key. */
  function Listing(m: map<nat, nat>, n: nat): seq<Entry> {
    if n == 0 then []
    else if n - 1 in m then Listing(m, n - 1) + [Entry(n - 1, m[n - 1])]
    else Listing(m, n - 1)
  }

  lemma {:induction false} ListingRight(m: map<nat, nat>, n: nat)
    ensures Ascending(Listing(m, n))
    ensures forall e :: e in Listing(m, n) <==> e.state < n && e.state in m && e.value == m[e.state]
  {
    if n > 0 {
      ListingRight(m, n - 1);
    }
  }

  lemma {:induction false} ListingSkips(m: map<nat, nat>, i: nat, n: nat)
    requires i <= n && forall k: nat :: i <= k < n ==> k !in m
    ensures Listing(m, n) == Listing(m, i)
  {
    if i < n {
      ListingSkips(m, i, n - 1);
    }
  }

  lemma NothingListed(m: map<nat, nat>)
    ensures Listing(m, 0) == []
  {
  }

  lemma ListingTakes(m: map<nat, nat>, i: nat)
    requires i in m
    ensures Listing(m, i + 1) == Listing(m, i) + [Entry(i, m[i])]
  {
  }

  lemma {:induction false} ListingSize(m: map<nat, nat>, n: nat)
    ensures |Listing(m, n)| == |Below(m, n)|
  {
    if n > 0 {
      ListingSize(m, n - 1);
      if n - 1 in m {
        assert Below(m, n) == Below(m, n - 1) + {n - 1};
      } else {
        assert Below(m, n) == Below(m, n - 1);
      }
    }
  }

  lemma WholeListing(f: Fields, m: map<nat, nat>, hash: EntryHash)
    requires Holds(f, m, hash)
    ensures
      var entries := Listing(m, |f.values|);
      && Ascending(entries) && |entries| == f.count
      && forall e :: e in entries <==> e.state in m && e.value == m[e.state]
  {
    var n := |f.values|;
    ListingRight(m, n);
    ListingSize(m, n);
    assert Below(m, n) == m.Keys;
    CardinalityOfMap(m);
  }

  function Below(m: map<nat, nat>, n: nat): set<nat> {
    set k | k in m && k < n
  }

  // ----- the table -----

  class StateValueTable {
    const size: nat
    const hash: EntryHash
    const values: array<nat>
    const occupied: array<Word>
    const dirty: array<Word>
    var count: nat
    var rolling: Word
    ghost var contents: map<nat, nat>
    /** The contents when the change flags were last cleared. */
    ghost var clean: map<nat, nat>

    ghost predicate Valid()
      reads this, values, occupied, dirty
    {
      && values.Length == size && occupied.Length == dirty.Length == WordsFor(size)
      && occupied != dirty
      && Holds(State(), contents, hash)
      && ChangesFlagged(dirty[..], clean, contents)
    }

    ghost function State(): Fields
      reads this, values, occupied
    {
      Fields(values[..], occupied[..], count, rolling)
    }

    constructor (size: nat, hash: EntryHash)
      ensures Valid() && contents == map[] && this.size == size && this.hash == hash
      ensures fresh(values) && fresh(occupied) && fresh(dirty)
    {
      this.size, this.hash := size, hash;
      values := new nat[size](_ => 0);
      occupied := new Word[WordsFor(size)](_ => NO_BITS);
      dirty := new Word[WordsFor(size)](_ => NO_BITS);
      count, rolling := 0, NO_BITS;
      contents, clean := map[], map[];
      new;
      assert values[..] == seq(size, _ => 0);
      assert occupied[..] == seq(WordsFor(size), _ => NO_BITS);
      HoldsNothing(size, hash);
    }

    predicate Contains(key: nat)
      requires Valid()
      reads this, values, occupied, dirty
      ensures Contains(key) <==> key in contents
    {
      assert key < size ==> SlotRight(State(), contents, key);
      key < size && key % 64 in occupied[key / 64]
    }

    function At(key: nat): (value: nat)
      requires Valid()
      reads this, values, occupied, dirty
      ensures value == if key in contents then contents[key] else 0
    {
      assert key < size ==> SlotRight(State(), contents, key);
      if Contains(key) then values[key] else 0
    }

    method Set(key: nat, value: nat)
      requires Valid()
      modifies this, values, occupied, dirty
      ensures Valid() && clean == old(clean)
      ensures contents == if key < size then old(contents)[key := value] else old(contents)
    {
      hide Holds, ChangesFlagged, Xor, Digest;
      if key >= size {
        return;
      }
      var slot, mask := key / 64, key % 64;
      ghost var f := State();
      SlotOf(f, contents, key, hash);
      FlagChange(dirty[..], clean, contents, contents[key := value], key);
      if mask in occupied[slot] {
        if values[key] == value {
          assert contents[key := value] == contents;
          return;
        }
        SetPresent(f, contents, key, value, hash);
        rolling := Xor(rolling, hash(key, values[key]));
      } else {
        SetAbsent(f, contents, key, value, hash);
        occupied[slot] := occupied[slot] + {mask};
        count := count + 1;
      }
      values[key] := value;
      dirty[slot] := dirty[slot] + {mask};
      rolling := Xor(rolling, hash(key, value));
      contents := contents[key := value];
      assert values[..] == f.values[key := value];
      assert dirty[..] == RowWith(old(dirty[..]), key);
      assert occupied[..] == if key in old(contents) then f.occupied else RowWith(f.occupied, key);
    }

    method Erase(key: nat)
      requires Valid()
      modifies this, values, occupied, dirty
      ensures Valid() && clean == old(clean)
      ensures contents == old(contents) - {key}
    {
      hide Holds, ChangesFlagged, Xor, Digest;
      if !Contains(key) {
        assert contents - {key} == contents;
        return;
      }
      ghost var f := State();
      var slot, mask := key / 64, key % 64;
      KeysInRange(f, contents, hash);
      SlotOf(f, contents, key, hash);
      FlagChange(dirty[..], clean, contents, contents - {key}, key);
      ErasePresent(f, contents, key, hash);
      rolling := Xor(rolling, hash(key, values[key]));
      values[key] := 0;
      occupied[slot] := occupied[slot] - {mask};
      dirty[slot] := dirty[slot] + {mask};
      count := count - 1;
      contents := contents - {key};
      assert values[..] == f.values[key := 0];
      assert dirty[..] == RowWith(old(dirty[..]), key);
      assert occupied[..] == RowWithout(f.occupied, key);
    }

    /** Empties the table; the change flags are dropped with it. */
    method Clear()
      requires Valid()
      modifies this, values, occupied, dirty
      ensures Valid() && contents == map[] && clean == map[]
    {
      forall i | 0 <= i < values.Length {
        values[i] := 0;
      }
      forall i | 0 <= i < occupied.Length {
        occupied[i] := NO_BITS;
      }
      forall i | 0 <= i < dirty.Length {
        dirty[i] := NO_BITS;
      }
      count, rolling := 0, NO_BITS;
      contents, clean := map[], map[];
      assert values[..] == seq(size, _ => 0);
      assert occupied[..] == seq(WordsFor(size), _ => NO_BITS);
      HoldsNothing(size, hash);
    }

    method ClearDirty()
      requires Valid()
      modifies this, dirty
      ensures Valid() && contents == old(contents) && clean == contents
    {
      forall i | 0 <= i < dirty.Length {
        dirty[i] := NO_BITS;
      }
      clean := contents;
    }

    /** Compares the stored fields, change flags aside: the same answer as comparing the contents. */
    method Equals(that: StateValueTable) returns (same: bool)
      requires Valid() && that.Valid() && size == that.size && hash == that.hash
      ensures same <==> contents == that.contents
    {
      same := values[..] == that.values[..] && occupied[..] == that.occupied[..] && count == that.count && rolling == that.rolling;
      HistoryIndependent(State(), that.State(), contents, that.contents, hash);
    }

    /** The first occupied key from `index` on, or the size. */
    method Advance(index: nat) returns (next: nat)
      requires Valid() && index <= size
      ensures index <= next <= size && (next < size ==> next in contents)
      ensures forall k: nat :: index <= k < next ==> k !in contents
    {
      next := index;
      while next < size && !Contains(next)
        invariant index <= next <= size
        invariant forall k: nat :: index <= k < next ==> k !in contents
      {
        next := next + 1;
      }
    }

    /** Iteration from begin to end. */
    method Entries() returns (entries: seq<Entry>)
      requires Valid()
      ensures entries == Listing(contents, size)
      ensures Ascending(entries) && |entries| == count
      ensures forall e :: e in entries <==> e.state in contents && e.value == contents[e.state]
    {
      hide Holds, Listing, Ascending, ChangesFlagged;
      NothingListed(contents);
      entries := [];
      var index := Advance(0);
      ListingSkips(contents, 0, index);
      while index != size
        invariant index <= size && (index < size ==> index in contents)
        invariant entries == Listing(contents, index)
      {
        ListingTakes(contents, index);
        entries := entries + [Entry(index, At(index))];
        var next := Advance(index + 1);
        ListingSkips(contents, index + 1, next);
        index := next;
      }
      WholeListing(State(), contents, hash);
    }
  }

  // ----- change flags -----

  /** Every key whose content differs from the clean one is flagged. */
  ghost predicate ChangesFlagged(dirty: seq<Word>, clean: map<nat, nat>, m: map<nat, nat>) {
    forall k: nat :: Changed(clean, m, k) ==> InRow(dirty, k)
  }

  predicate Changed(before: map<nat, nat>, after: map<nat, nat>, k: nat) {
    (k in before) != (k in after) || (k in before && before[k] != after[k])
  }

  lemma FlagChange(dirty: seq<Word>, clean: map<nat, nat>, m: map<nat, nat>, w: map<nat, nat>, key: nat)
    requires key / 64 < |dirty| && ChangesFlagged(dirty, clean, m)
    requires forall k: nat :: k != key ==> !Changed(m, w, k)
    ensures ChangesFlagged(RowWith(dirty, key), clean, w)
  {
    forall k: nat | Changed(clean, w, k) ensures InRow(RowWith(dirty, key), k) {
      RowWithBits(dirty, key, k);
      if k != key {
        assert !Changed(m, w, k);
        assert Changed(clean, m, k);
      }
    }
  }

  lemma SlotOf(f: Fields, m: map<nat, nat>, key: nat, hash: EntryHash)
    requires Holds(f, m, hash) && key < |f.values|
    ensures SlotRight(f, m, key)
  {
  }

  lemma KeysInRange(f: Fields, m: map<nat, nat>, hash: EntryHash)
    requires Holds(f, m, hash)
    ensures forall k :: k in m ==> k < |f.values|
    ensures f.count == |m|
  {
  }
}
