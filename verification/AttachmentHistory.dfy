/** The wire form of an attachment history: a 64-byte header and 48-byte rows, little-endian. */
module AttachmentHistory {

  type Byte = b: nat | b < 256

  type U32 = x: nat | x < 0x1_0000_0000

  type U64 = x: nat | x < 0x1_0000_0000_0000_0000

  // ----- little-endian fields -----

  function Range(width: nat): (r: nat)
    ensures r > 0
  {
    if width == 0 then 1 else 256 * Range(width - 1)
  }

  lemma RangeValues()
    ensures Range(4) == 0x1_0000_0000 && Range(8) == 0x1_0000_0000_0000_0000
  {
    assert Range(4) == 256 * 256 * 256 * 256 * Range(0);
    assert Range(8) == 256 * 256 * 256 * 256 * Range(4);
  }

  function EncodeField(value: nat, width: nat): (bytes: seq<Byte>)
    ensures |bytes| == width
  {
    if width == 0 then [] else [value % 256] + EncodeField(value / 256, width - 1)
  }

  function DecodeField(bytes: seq<Byte>): (value: nat)
  {
    if bytes == [] then 0 else bytes[0] + 256 * DecodeField(bytes[1..])
  }

  lemma {:induction false} FieldRoundTrip(value: nat, width: nat)
    requires value < Range(width)
    ensures DecodeField(EncodeField(value, width)) == value
  {
    if width > 0 {
      FieldRoundTrip(value / 256, width - 1);
      assert EncodeField(value, width)[1..] == EncodeField(value / 256, width - 1);
    }
  }

  lemma {:induction false} BytesRoundTrip(bytes: seq<Byte>)
    ensures DecodeField(bytes) < Range(|bytes|)
    ensures EncodeField(DecodeField(bytes), |bytes|) == bytes
  {
    if bytes != [] {
      BytesRoundTrip(bytes[1..]);
      SplitByte(bytes[0], DecodeField(bytes[1..]));
    }
  }

  lemma SplitByte(low: Byte, high: nat)
    ensures (low + 256 * high) % 256 == low && (low + 256 * high) / 256 == high
  {
  }

  // ----- records of fields -----

  function Width(widths: seq<nat>): nat {
    if widths == [] then 0 else widths[0] + Width(widths[1..])
  }

  ghost predicate Fits(values: seq<nat>, widths: seq<nat>) {
    |values| == |widths| && forall i :: 0 <= i < |values| ==> values[i] < Range(widths[i])
  }

  function EncodeFields(values: seq<nat>, widths: seq<nat>): (bytes: seq<Byte>)
    requires |values| == |widths|
    ensures |bytes| == Width(widths)
  {
    if widths == [] then [] else EncodeField(values[0], widths[0]) + EncodeFields(values[1..], widths[1..])
  }

  function DecodeFields(bytes: seq<Byte>, widths: seq<nat>): (values: seq<nat>)
    requires |bytes| == Width(widths)
    ensures |values| == |widths|
  {
    if widths == [] then []
    else [DecodeField(bytes[..widths[0]])] + DecodeFields(bytes[widths[0]..], widths[1..])
  }

  lemma {:induction false} FieldsRoundTrip(values: seq<nat>, widths: seq<nat>)
    requires Fits(values, widths)
    ensures DecodeFields(EncodeFields(values, widths), widths) == values
  {
    if widths != [] {
      FieldsRoundTrip(values[1..], widths[1..]);
      FieldRoundTrip(values[0], widths[0]);
      var bytes := EncodeFields(values, widths);
      assert bytes[..widths[0]] == EncodeField(values[0], widths[0]);
      assert bytes[widths[0]..] == EncodeFields(values[1..], widths[1..]);
    }
  }

  lemma {:induction false} RecordRoundTrip(bytes: seq<Byte>, widths: seq<nat>)
    requires |bytes| == Width(widths)
    ensures Fits(DecodeFields(bytes, widths), widths)
    ensures EncodeFields(DecodeFields(bytes, widths), widths) == bytes
  {
    if widths != [] {
      RecordRoundTrip(bytes[widths[0]..], widths[1..]);
      BytesRoundTrip(bytes[..widths[0]]);
      var values := DecodeFields(bytes, widths);
      assert values[1..] == DecodeFields(bytes[widths[0]..], widths[1..]);
      assert bytes[..widths[0]] + bytes[widths[0]..] == bytes;
      forall i | 0 <= i < |values| ensures values[i] < Range(widths[i]) {
        if i > 0 {
          assert values[i] == values[1..][i - 1] && widths[i] == widths[1..][i - 1];
        }
      }
    }
  }

  // ----- the history -----

  const MAGIC: U64 := 0x31484154523944
  const MAX_ROWS: nat := 4096
  const KIND_TEXTURE: U32 := 0
  const KIND_SURFACE: U32 := 1

  datatype Header = Header(
    magic: U64, version: U32, headerBytes: U32, token: U64, epoch: U64, queue: U64,
    completedSequence: U64, completedInitializer: U64, count: U32, flags: U32)

  datatype Identity = Identity(kind: U32, generation: U32, objectId: U64)

  datatype Row = Row(
    surface: Identity, storage: Identity, subresource: U32, touched: U32, currentBackbuffer: U32, contentAuthority: U32)

  const EMPTY_HEADER := Header(MAGIC, 1, 64, 0, 0, 0, 0, 0, 0, 0)

  const HEADER_WIDTHS: seq<nat> := [8, 4, 4, 8, 8, 8, 8, 8, 4, 4]

  const ROW_WIDTHS: seq<nat> := [4, 4, 8, 4, 4, 8, 4, 4, 4, 4]

  function HeaderValues(h: Header): (values: seq<nat>)
    ensures |values| == |HEADER_WIDTHS|
  {
    [h.magic, h.version, h.headerBytes, h.token, h.epoch, h.queue, h.completedSequence, h.completedInitializer, h.count, h.flags]
  }

  function RowValues(r: Row): (values: seq<nat>)
    ensures |values| == |ROW_WIDTHS|
  {
    [r.surface.kind, r.surface.generation, r.surface.objectId, r.storage.kind, r.storage.generation, r.storage.objectId,
     r.subresource, r.touched, r.currentBackbuffer, r.contentAuthority]
  }

  lemma Widths()
    ensures Width(HEADER_WIDTHS) == 64 && Width(ROW_WIDTHS) == 48
  {
    WidthOf(HEADER_WIDTHS);
    WidthOf(ROW_WIDTHS);
  }

  lemma WidthOf(w: seq<nat>)
    requires |w| == 10
    ensures Width(w) == w[0] + w[1] + w[2] + w[3] + w[4] + w[5] + w[6] + w[7] + w[8] + w[9]
  {
    forall k: nat | k < 10 ensures Width(w[k..]) == w[k] + Width(w[k + 1..]) {
      assert w[k..][1..] == w[k + 1..];
    }
    hide Width;
    NoWidth(w[10..]);
    assert w[0..] == w;
  }

  lemma NoWidth(w: seq<nat>)
    requires w == []
    ensures Width(w) == 0
  {
  }

  predicate Within(values: seq<nat>, widths: seq<nat>, i: nat)
    requires i < |values| == |widths|
  {
    values[i] < if widths[i] == 4 then 0x1_0000_0000 else 0x1_0000_0000_0000_0000
  }

  /** Values that fit fields of 4 or 8 bytes are 32- or 64-bit values. */
  lemma FitsWidths(values: seq<nat>, widths: seq<nat>)
    requires |values| == |widths| && forall i :: 0 <= i < |widths| ==> widths[i] == 4 || widths[i] == 8
    ensures Fits(values, widths) <==> forall i: nat :: i < |widths| ==> Within(values, widths, i)
  {
    RangeValues();
    hide Range;
    if Fits(values, widths) {
      forall i: nat | i < |widths| ensures Within(values, widths, i) {
        assert values[i] < Range(widths[i]);
      }
    }
    if forall i: nat :: i < |widths| ==> Within(values, widths, i) {
      forall i: nat | i < |widths| ensures values[i] < Range(widths[i]) {
        assert Within(values, widths, i);
      }
    }
  }

  lemma FieldsWithin(v: seq<nat>, widths: seq<nat>)
    requires |v| == |widths| == 10 && forall i :: 0 <= i < 10 ==> widths[i] == 4 || widths[i] == 8
    ensures Fits(v, widths) <==>
      && Within(v, widths, 0) && Within(v, widths, 1) && Within(v, widths, 2) && Within(v, widths, 3) && Within(v, widths, 4)
      && Within(v, widths, 5) && Within(v, widths, 6) && Within(v, widths, 7) && Within(v, widths, 8) && Within(v, widths, 9)
  {
    FitsWidths(v, widths);
    hide Within, Fits;
  }

  function EncodeHeader(h: Header): (bytes: seq<Byte>)
    ensures |bytes| == 64
  {
    Widths();
    EncodeFields(HeaderValues(h), HEADER_WIDTHS)
  }

  function EncodeRow(r: Row): (bytes: seq<Byte>)
    ensures |bytes| == 48
  {
    Widths();
    EncodeFields(RowValues(r), ROW_WIDTHS)
  }

  function HeaderOf(v: seq<nat>): (h: Header)
    requires Fits(v, HEADER_WIDTHS)
    ensures HeaderValues(h) == v
  {
    FieldsWithin(v, HEADER_WIDTHS);
    Header(v[0], v[1], v[2], v[3], v[4], v[5], v[6], v[7], v[8], v[9])
  }

  function RowOf(v: seq<nat>): (r: Row)
    requires Fits(v, ROW_WIDTHS)
    ensures RowValues(r) == v
  {
    FieldsWithin(v, ROW_WIDTHS);
    Row(Identity(v[0], v[1], v[2]), Identity(v[3], v[4], v[5]), v[6], v[7], v[8], v[9])
  }

  lemma HeaderFits(h: Header)
    ensures Fits(HeaderValues(h), HEADER_WIDTHS)
    ensures HeaderOf(HeaderValues(h)) == h
  {
    FieldsWithin(HeaderValues(h), HEADER_WIDTHS);
  }

  lemma RowFits(r: Row)
    ensures Fits(RowValues(r), ROW_WIDTHS)
    ensures RowOf(RowValues(r)) == r
  {
    FieldsWithin(RowValues(r), ROW_WIDTHS);
  }

  function DecodeHeader(bytes: seq<Byte>): (h: Header)
    requires |bytes| == 64
  {
    Widths();
    RecordRoundTrip(bytes, HEADER_WIDTHS);
    HeaderOf(DecodeFields(bytes, HEADER_WIDTHS))
  }

  function DecodeRow(bytes: seq<Byte>): (r: Row)
    requires |bytes| == 48
  {
    Widths();
    RecordRoundTrip(bytes, ROW_WIDTHS);
    RowOf(DecodeFields(bytes, ROW_WIDTHS))
  }

  lemma HeaderRoundTrip(h: Header)
    ensures DecodeHeader(EncodeHeader(h)) == h
  {
    HeaderFits(h);
    FieldsRoundTrip(HeaderValues(h), HEADER_WIDTHS);
    hide HeaderValues, Fits, EncodeFields, DecodeFields, HeaderOf;
  }

  lemma HeaderBytes(bytes: seq<Byte>)
    requires |bytes| == 64
    ensures EncodeHeader(DecodeHeader(bytes)) == bytes
  {
    Widths();
    RecordRoundTrip(bytes, HEADER_WIDTHS);
    hide HeaderValues, Fits, EncodeFields, DecodeFields, HeaderOf;
  }

  lemma RowRoundTrip(r: Row)
    ensures DecodeRow(EncodeRow(r)) == r
  {
    RowFits(r);
    FieldsRoundTrip(RowValues(r), ROW_WIDTHS);
    hide RowValues, Fits, EncodeFields, DecodeFields, RowOf;
  }

  lemma RowBytes(bytes: seq<Byte>)
    requires |bytes| == 48
    ensures EncodeRow(DecodeRow(bytes)) == bytes
  {
    Widths();
    RecordRoundTrip(bytes, ROW_WIDTHS);
    hide RowValues, Fits, EncodeFields, DecodeFields, RowOf;
  }

  function EncodeRows(rows: seq<Row>): (bytes: seq<Byte>)
    ensures |bytes| == 48 * |rows|
  {
    if rows == [] then [] else EncodeRow(rows[0]) + EncodeRows(rows[1..])
  }

  function DecodeRows(bytes: seq<Byte>, count: nat): (rows: seq<Row>)
    requires |bytes| == 48 * count
    ensures |rows| == count
  {
    if count == 0 then [] else [DecodeRow(bytes[..48])] + DecodeRows(bytes[48..], count - 1)
  }

  lemma {:induction false} RowsRoundTrip(rows: seq<Row>)
    ensures DecodeRows(EncodeRows(rows), |rows|) == rows
  {
    if rows != [] {
      RowsRoundTrip(rows[1..]);
      RowRoundTrip(rows[0]);
      assert EncodeRows(rows)[..48] == EncodeRow(rows[0]);
      assert EncodeRows(rows)[48..] == EncodeRows(rows[1..]);
    }
  }

  lemma {:induction false} RowsBytes(bytes: seq<Byte>, count: nat)
    requires |bytes| == 48 * count
    ensures EncodeRows(DecodeRows(bytes, count)) == bytes
  {
    if count > 0 {
      hide EncodeRow, DecodeRow, EncodeRows, DecodeRows;
      RowsBytes(bytes[48..], count - 1);
      RowBytes(bytes[..48]);
      DecodeFirst(bytes, count);
      EncodeFirst(DecodeRow(bytes[..48]), DecodeRows(bytes[48..], count - 1));
      Whole(bytes, 48);
    } else {
      assert bytes == [];
    }
  }

  lemma DecodeFirst(bytes: seq<Byte>, count: nat)
    requires 0 < count && |bytes| == 48 * count
    ensures DecodeRows(bytes, count) == [DecodeRow(bytes[..48])] + DecodeRows(bytes[48..], count - 1)
  {
  }

  lemma EncodeFirst(row: Row, rows: seq<Row>)
    ensures EncodeRows([row] + rows) == EncodeRow(row) + EncodeRows(rows)
  {
    assert ([row] + rows)[1..] == rows;
  }

  lemma Whole(bytes: seq<Byte>, n: nat)
    requires n <= |bytes|
    ensures bytes[..n] + bytes[n..] == bytes
  {
  }

  /** The bytes of a history. */
  function Wire(h: Header, rows: seq<Row>): (bytes: seq<Byte>)
    ensures |bytes| == 64 + 48 * |rows|
  {
    EncodeHeader(h) + EncodeRows(rows)
  }

  // ----- where each number stands in the bytes -----

  /** The little-endian number of four bytes at an offset. */
  function U32At(bytes: seq<Byte>, at: nat): nat
    requires at + 4 <= |bytes|
  {
    var b0: nat, b1: nat, b2: nat, b3: nat := bytes[at], bytes[at + 1], bytes[at + 2], bytes[at + 3];
    b0 + 0x100 * b1 + 0x1_0000 * b2 + 0x100_0000 * b3
  }

  function U64At(bytes: seq<Byte>, at: nat): nat
    requires at + 8 <= |bytes|
  {
    U32At(bytes, at) + 0x1_0000_0000 * U32At(bytes, at + 4)
  }

  lemma DecodesFour(bytes: seq<Byte>)
    requires |bytes| == 4
    ensures DecodeField(bytes) == U32At(bytes, 0)
  {
    assert bytes[1..][1..] == bytes[2..] && bytes[2..][1..] == bytes[3..] && bytes[3..][1..] == [];
    assert DecodeField([]) == 0;
    assert DecodeField(bytes[3..]) == bytes[3] + 256 * DecodeField(bytes[3..][1..]);
    assert DecodeField(bytes[2..]) == bytes[2] + 256 * DecodeField(bytes[3..]);
    assert DecodeField(bytes[1..]) == bytes[1] + 256 * DecodeField(bytes[2..]);
  }

  lemma {:induction false} DecodesJoined(low: seq<Byte>, high: seq<Byte>)
    ensures DecodeField(low + high) == DecodeField(low) + Range(|low|) * DecodeField(high)
  {
    if low == [] {
      assert low + high == high;
    } else {
      DecodesJoined(low[1..], high);
      assert (low + high)[1..] == low[1..] + high;
      Regroup(DecodeField(low[1..]), Range(|low| - 1), DecodeField(high));
    }
  }

  lemma Regroup(a: nat, r: nat, b: nat)
    ensures 256 * (a + r * b) == 256 * a + (256 * r) * b
  {
  }

  lemma DecodesEight(bytes: seq<Byte>)
    requires |bytes| == 8
    ensures DecodeField(bytes) == U64At(bytes, 0)
  {
    assert bytes == bytes[..4] + bytes[4..];
    DecodesJoined(bytes[..4], bytes[4..]);
    DecodesFour(bytes[..4]);
    DecodesFour(bytes[4..]);
    RangeValues();
    hide DecodeField, Range;
  }

  /** Field k begins where the fields before it end. */
  lemma {:induction false} FieldStands(values: seq<nat>, widths: seq<nat>, k: nat)
    requires |values| == |widths| && k < |widths|
    ensures Width(widths[..k]) + widths[k] <= Width(widths)
    ensures
      var at := Width(widths[..k]);
      EncodeFields(values, widths)[at..at + widths[k]] == EncodeField(values[k], widths[k])
  {
    if k == 0 {
      assert widths[..0] == [];
    } else {
      FieldStands(values[1..], widths[1..], k - 1);
      assert widths[..k][1..] == widths[1..][..k - 1];
      var at, rest := Width(widths[1..][..k - 1]), EncodeFields(values[1..], widths[1..]);
      assert EncodeFields(values, widths)[widths[0] + at..widths[0] + at + widths[k]] == rest[at..at + widths[k]];
    }
  }

  /** A number of four or eight bytes, read back from where it stands. */
  lemma NumberStands(values: seq<nat>, widths: seq<nat>, bytes: seq<Byte>, at: nat, k: nat)
    requires Fits(values, widths) && k < |widths| && at == Width(widths[..k]) && bytes == EncodeFields(values, widths)
    ensures widths[k] == 4 ==> at + 4 <= |bytes| && U32At(bytes, at) == values[k]
    ensures widths[k] == 8 ==> at + 8 <= |bytes| && U64At(bytes, at) == values[k]
  {
    FieldStands(values, widths, k);
    FieldRoundTrip(values[k], widths[k]);
    hide EncodeField, DecodeField, EncodeFields, Width, Range;
    if widths[k] == 4 {
      var field := bytes[at..at + 4];
      DecodesFour(field);
      assert U32At(bytes, at) == U32At(field, 0);
    }
    if widths[k] == 8 {
      var field := bytes[at..at + 8];
      DecodesEight(field);
      assert U32At(bytes, at) == U32At(field, 0) && U32At(bytes, at + 4) == U32At(field, 4);
    }
  }

  lemma HeaderOffsets()
    ensures
      var w := HEADER_WIDTHS;
      && Width(w[..0]) == 0 && Width(w[..1]) == 8 && Width(w[..2]) == 12 && Width(w[..3]) == 16 && Width(w[..4]) == 24
      && Width(w[..5]) == 32 && Width(w[..6]) == 40 && Width(w[..7]) == 48 && Width(w[..8]) == 56 && Width(w[..9]) == 60
  {
    WidthNext(HEADER_WIDTHS);
    NoWidth(HEADER_WIDTHS[..0]);
  }

  lemma RowOffsets()
    ensures
      var w := ROW_WIDTHS;
      && Width(w[..0]) == 0 && Width(w[..1]) == 4 && Width(w[..2]) == 8 && Width(w[..3]) == 16 && Width(w[..4]) == 20
      && Width(w[..5]) == 24 && Width(w[..6]) == 32 && Width(w[..7]) == 36 && Width(w[..8]) == 40 && Width(w[..9]) == 44
  {
    WidthNext(ROW_WIDTHS);
    NoWidth(ROW_WIDTHS[..0]);
  }

  lemma WidthNext(w: seq<nat>)
    ensures forall k: nat :: k < |w| ==> Width(w[..k + 1]) == Width(w[..k]) + w[k]
  {
    forall k: nat | k < |w| ensures Width(w[..k + 1]) == Width(w[..k]) + w[k] {
      assert w[..k + 1] == w[..k] + [w[k]];
      WidthSnoc(w[..k], w[k]);
    }
  }

  lemma {:induction false} WidthSnoc(w: seq<nat>, x: nat)
    ensures Width(w + [x]) == Width(w) + x
  {
    if w == [] {
      assert w + [x] == [x] && [x][1..] == [];
      assert Width([]) == 0;
    } else {
      WidthSnoc(w[1..], x);
      assert (w + [x])[1..] == w[1..] + [x];
    }
  }

  /** The layout of the header: every number at its offset, low byte first. */
  lemma HeaderLayout(h: Header)
    ensures
      var b := EncodeHeader(h);
      && U64At(b, 0) == h.magic && U32At(b, 8) == h.version && U32At(b, 12) == h.headerBytes
      && U64At(b, 16) == h.token && U64At(b, 24) == h.epoch && U64At(b, 32) == h.queue
      && U64At(b, 40) == h.completedSequence && U64At(b, 48) == h.completedInitializer
      && U32At(b, 56) == h.count && U32At(b, 60) == h.flags
  {
    hide Width, EncodeFields, U32At, U64At, Fits, HeaderOf;
    var b, v := EncodeHeader(h), HeaderValues(h);
    HeaderFits(h);
    HeaderOffsets();
    NumberStands(v, HEADER_WIDTHS, b, 0, 0);
    NumberStands(v, HEADER_WIDTHS, b, 8, 1);
    NumberStands(v, HEADER_WIDTHS, b, 12, 2);
    NumberStands(v, HEADER_WIDTHS, b, 16, 3);
    NumberStands(v, HEADER_WIDTHS, b, 24, 4);
    NumberStands(v, HEADER_WIDTHS, b, 32, 5);
    NumberStands(v, HEADER_WIDTHS, b, 40, 6);
    NumberStands(v, HEADER_WIDTHS, b, 48, 7);
    NumberStands(v, HEADER_WIDTHS, b, 56, 8);
    NumberStands(v, HEADER_WIDTHS, b, 60, 9);
  }

  lemma RowLayout(r: Row)
    ensures
      var b := EncodeRow(r);
      && U32At(b, 0) == r.surface.kind && U32At(b, 4) == r.surface.generation && U64At(b, 8) == r.surface.objectId
      && U32At(b, 16) == r.storage.kind && U32At(b, 20) == r.storage.generation && U64At(b, 24) == r.storage.objectId
      && U32At(b, 32) == r.subresource && U32At(b, 36) == r.touched
      && U32At(b, 40) == r.currentBackbuffer && U32At(b, 44) == r.contentAuthority
  {
    hide Width, EncodeFields, U32At, U64At, Fits, RowOf;
    var b, v := EncodeRow(r), RowValues(r);
    RowFits(r);
    RowOffsets();
    NumberStands(v, ROW_WIDTHS, b, 0, 0);
    NumberStands(v, ROW_WIDTHS, b, 4, 1);
    NumberStands(v, ROW_WIDTHS, b, 8, 2);
    NumberStands(v, ROW_WIDTHS, b, 16, 3);
    NumberStands(v, ROW_WIDTHS, b, 20, 4);
    NumberStands(v, ROW_WIDTHS, b, 24, 5);
    NumberStands(v, ROW_WIDTHS, b, 32, 6);
    NumberStands(v, ROW_WIDTHS, b, 36, 7);
    NumberStands(v, ROW_WIDTHS, b, 40, 8);
    NumberStands(v, ROW_WIDTHS, b, 44, 9);
  }

  /** The wire form is the header's 64 bytes and then 48 bytes for each row, in order. */
  lemma {:induction false} RowsLayout(rows: seq<Row>, k: nat)
    requires k < |rows|
    ensures EncodeRows(rows)[48 * k..48 * k + 48] == EncodeRow(rows[k])
  {
    hide EncodeRow;
    if k > 0 {
      RowsLayout(rows[1..], k - 1);
      var rest := EncodeRows(rows[1..]);
      assert EncodeRows(rows)[48 * k..48 * k + 48] == rest[48 * (k - 1)..48 * (k - 1) + 48];
    }
  }

  lemma WireLayout(h: Header, rows: seq<Row>, k: nat)
    requires k < |rows|
    ensures |Wire(h, rows)| == 64 + 48 * |rows| && 64 + 48 * k + 48 <= |Wire(h, rows)|
    ensures Wire(h, rows)[..64] == EncodeHeader(h)
    ensures Wire(h, rows)[64 + 48 * k..64 + 48 * k + 48] == EncodeRow(rows[k])
  {
    hide EncodeHeader, EncodeRow, EncodeRows;
    RowsLayout(rows, k);
    assert Wire(h, rows)[64 + 48 * k..64 + 48 * k + 48] == EncodeRows(rows)[48 * k..48 * k + 48];
  }

  // ----- validity -----

  predicate RowValid(r: Row) {
    && r.surface.kind == KIND_SURFACE && r.surface.generation != 0 && r.surface.objectId != 0
    && r.storage.generation != 0 && r.storage.objectId != 0
    && (r.storage.kind == KIND_SURFACE || r.storage.kind == KIND_TEXTURE)
    && r.touched <= 1 && r.currentBackbuffer <= 1 && r.contentAuthority == 0
    && (r.storage.kind == KIND_SURFACE ==> r.subresource == 0 && r.storage == r.surface)
  }

  predicate Marked(rows: seq<Row>) {
    exists i :: 0 <= i < |rows| && rows[i].currentBackbuffer != 0
  }

  /** Rows in strictly rising surface order; a row is marked current exactly when the header says one exists. */
  ghost predicate HistoryValid(h: Header, rows: seq<Row>) {
    && h.magic == MAGIC && h.version == 1 && h.headerBytes == 64
    && h.token != 0 && h.epoch != 0 && h.queue != 0
    && h.flags in {0, 2, 3} && h.count == |rows| <= MAX_ROWS
    && (forall i :: 0 <= i < |rows| ==> RowValid(rows[i]))
    && (forall i, j :: 0 <= i < j < |rows| ==> rows[i].surface.objectId < rows[j].surface.objectId)
    && (Marked(rows) <==> h.flags != 0)
  }

  /** The checks of one row, against the surface of the row before it. */
  predicate RowRefused(row: Row, previous: U64)
    ensures RowRefused(row, previous) <==> !RowValid(row) || row.surface.objectId <= previous
  {
    || row.surface.kind != KIND_SURFACE || row.surface.generation == 0 || row.surface.objectId <= previous
    || row.storage.generation == 0 || row.storage.objectId == 0
    || (row.storage.kind != KIND_SURFACE && row.storage.kind != KIND_TEXTURE)
    || row.touched > 1 || row.currentBackbuffer > 1 || row.contentAuthority != 0
    || (row.storage.kind == KIND_SURFACE
        && (row.subresource != 0 || row.storage.objectId != row.surface.objectId
            || row.storage.generation != row.surface.generation))
  }

  method CheckHistory(h: Header, rows: seq<Row>) returns (valid: bool)
    ensures valid <==> HistoryValid(h, rows)
  {
    if h.magic != MAGIC || h.version != 1 || h.headerBytes != 64 || h.token == 0 || h.epoch == 0 || h.queue == 0
       || h.flags > 3 || h.count != |rows| || |rows| > MAX_ROWS || (h.flags % 2 == 1 && h.flags / 2 % 2 != 1) {
      return false;
    }
    var previous: U64, current := 0, false;
    for i := 0 to |rows|
      invariant forall j :: 0 <= j < i ==> RowValid(rows[j])
      invariant forall j :: 0 <= j < i ==> rows[j].surface.objectId <= previous
      invariant previous == if i == 0 then 0 else rows[i - 1].surface.objectId
      invariant forall j, k :: 0 <= j < k < i ==> rows[j].surface.objectId < rows[k].surface.objectId
      invariant current <==> exists j :: 0 <= j < i && rows[j].currentBackbuffer != 0
    {
      if RowRefused(rows[i], previous) {
        assert i > 0 && RowValid(rows[i]) ==> rows[i - 1].surface.objectId >= rows[i].surface.objectId;
        return false;
      }
      previous := rows[i].surface.objectId;
      current := current || rows[i].currentBackbuffer != 0;
    }
    valid := current == (h.flags / 2 % 2 == 1);
  }

  // ----- encode and decode -----

  method Encode(h: Header, rows: seq<Row>) returns (ok: bool, out: seq<Byte>)
    ensures ok <==> HistoryValid(h, rows)
    ensures out == if ok then Wire(h, rows) else []
  {
    ok := CheckHistory(h, rows);
    out := if ok then EncodeHeader(h) + EncodeRows(rows) else [];
  }

  /** Accepts exactly the encodings of valid histories, and returns the one history each encodes. */
  method Decode(bytes: seq<Byte>) returns (ok: bool, h: Header, rows: seq<Row>)
    ensures ok <==> exists header, history :: HistoryValid(header, history) && bytes == Wire(header, history)
    ensures ok ==> HistoryValid(h, rows) && bytes == Wire(h, rows)
    ensures !ok ==> h == EMPTY_HEADER && rows == []
  {
    h, rows := EMPTY_HEADER, [];
    hide HistoryValid, EncodeHeader, EncodeRows, DecodeHeader, DecodeRows;
    EncodingsDecode(bytes);
    if |bytes| < 64 {
      return false, h, rows;
    }
    var candidate := DecodeHeader(bytes[..64]);
    if candidate.count > MAX_ROWS || |bytes| != 64 + candidate.count * 48 {
      return false, h, rows;
    }
    var pending := DecodeRows(bytes[64..], candidate.count);
    ok := CheckHistory(candidate, pending);
    DecodedEncodes(bytes);
    if ok {
      h, rows := candidate, pending;
    }
  }

  /** The candidate a byte string decodes to is the only history it could encode. */
  lemma EncodingsDecode(bytes: seq<Byte>)
    ensures forall header, history :: HistoryValid(header, history) && bytes == Wire(header, history) ==>
      && |bytes| >= 64 && DecodeHeader(bytes[..64]) == header
      && header.count <= MAX_ROWS && |bytes| == 64 + header.count * 48
      && DecodeRows(bytes[64..], header.count) == history
  {
    forall header, history | HistoryValid(header, history) && bytes == Wire(header, history)
      ensures
        && |bytes| >= 64 && DecodeHeader(bytes[..64]) == header
        && header.count <= MAX_ROWS && |bytes| == 64 + header.count * 48
        && DecodeRows(bytes[64..], header.count) == history
    {
      assert bytes[..64] == EncodeHeader(header) && bytes[64..] == EncodeRows(history);
      HeaderRoundTrip(header);
      RowsRoundTrip(history);
    }
  }

  lemma DecodedEncodes(bytes: seq<Byte>)
    requires |bytes| >= 64 && |bytes| == 64 + DecodeHeader(bytes[..64]).count * 48
    ensures
      var h := DecodeHeader(bytes[..64]);
      Wire(h, DecodeRows(bytes[64..], h.count)) == bytes
  {
    hide EncodeHeader, DecodeHeader, EncodeRows, DecodeRows;
    HeaderBytes(bytes[..64]);
    RowsBytes(bytes[64..], DecodeHeader(bytes[..64]).count);
    Whole(bytes, 64);
  }
}
