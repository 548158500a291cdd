/**
  Row images (pkg/replication/binlog_encoder.go, encodeRowData): for every row a NULL bitmap followed by the
  encodings of the values that are not NULL.
 */
module Rows {
  import opened Wrappers
  import opened Bytes
  import opened Decimal
  import opened Values

  datatype Cell = Null | Val(v: Value)
  type Row = seq<Cell>

  datatype Column = Column(t: byte, meta: Meta)

  /** A row a table map describes, in which every value can be encoded in its column. */
  predicate RowFor(row: Row, cols: seq<Column>) {
    |row| == |cols| && forall i :: 0 <= i < |row| && row[i].Val? ==> Encodable(row[i].v, cols[i].t)
  }

  ghost predicate RepresentableRow(row: Row, cols: seq<Column>) {
    |row| == |cols| && forall i :: 0 <= i < |row| && row[i].Val? ==> Representable(row[i].v, cols[i].t, cols[i].meta)
  }

  lemma RepresentableRowFor(row: Row, cols: seq<Column>)
    requires RepresentableRow(row, cols)
    ensures RowFor(row, cols)
  {
    forall i | 0 <= i < |row| && row[i].Val? ensures Encodable(row[i].v, cols[i].t) {
      RepresentableEncodable(row[i].v, cols[i].t, cols[i].meta);
    }
  }

  // -------------------------------------------------------------------- NULL bitmaps

  predicate TestBit(b: nat, k: nat) {
    if k == 0 then b % 2 == 1 else TestBit(b / 2, k - 1)
  }

  /** b | 1 << k */
  function OrBit(b: nat, k: nat): nat {
    if k == 0 then (if b % 2 == 1 then b else b + 1) else b % 2 + 2 * OrBit(b / 2, k - 1)
  }

  function P2(n: nat): (r: nat)
    ensures r > 0
  {
    if n == 0 then 1 else 2 * P2(n - 1)
  }

  lemma {:induction false} OrBitBound(b: nat, k: nat, n: nat)
    requires b < P2(n) && k < n
    ensures OrBit(b, k) < P2(n)
  {
    var p := P2(n - 1);
    HalfLess(b, p);
    if k > 0 {
      OrBitBound(b / 2, k - 1, n - 1);
      HalfBound(b, p, OrBit(b / 2, k - 1));
    }
  }

  lemma HalfLess(b: nat, p: nat)
    requires b < 2 * p
    ensures b / 2 < p && (b % 2 == 0 ==> b + 1 < 2 * p)
  {
  }

  lemma HalfBound(b: nat, p: nat, r: nat)
    requires r < p
    ensures b % 2 + 2 * r < 2 * p
  {
  }

  lemma Bytes256()
    ensures P2(8) == 256
  {
    assert P2(4) == 16;
    assert P2(8) == 2 * P2(7) == 4 * P2(6) == 8 * P2(5) == 16 * P2(4);
  }

  function SetBit(b: byte, k: nat): byte
    requires k < 8
  {
    Bytes256();
    OrBitBound(b, k, 8);
    OrBit(b, k)
  }

  function Flag(flags: seq<bool>, i: nat): (n: nat)
    ensures n <= 1
  {
    if i < |flags| && flags[i] then 1 else 0
  }

  /** Flags i .. i+n-1 as a number: bit k stands for flag i + k. */
  function Packed(flags: seq<bool>, i: nat, n: nat): (r: nat)
    ensures r < P2(n)
    decreases n
  {
    if n == 0 then 0 else Flag(flags, i) + 2 * Packed(flags, i + 1, n - 1)
  }

  function BitmapByte(flags: seq<bool>, j: nat): byte {
    Bytes256();
    Packed(flags, 8 * j, 8)
  }

  function Bitmap(flags: seq<bool>, n: nat): (r: Bytes)
    ensures |r| == n
  {
    seq(n, j requires 0 <= j < n => BitmapByte(flags, j))
  }

  function BitmapSize(columns: nat): (n: nat)
    ensures columns <= 8 * n < columns + 8
  {
    (columns + 7) / 8
  }

  /** Bit i of a bitmap. */
  predicate BitAt(bitmap: Bytes, i: nat)
    requires i < 8 * |bitmap|
  {
    TestBit(bitmap[i / 8], i % 8)
  }

  /** A byte of ones has every bit set. */
  lemma {:induction false} AllOnes(n: nat, k: nat)
    requires k < n
    ensures TestBit(P2(n) - 1, k)
  {
    if k > 0 {
      assert (P2(n) - 1) / 2 == P2(n - 1) - 1;
      AllOnes(n - 1, k - 1);
    }
  }

  lemma {:induction false} PackedBit(flags: seq<bool>, i: nat, n: nat, k: nat)
    requires k < n
    ensures TestBit(Packed(flags, i, n), k) <==> Flag(flags, i + k) == 1
    decreases n
  {
    var f, r := Flag(flags, i), Packed(flags, i + 1, n - 1);
    assert (f + 2 * r) % 2 == f && (f + 2 * r) / 2 == r;
    if k > 0 {
      PackedBit(flags, i + 1, n - 1, k - 1);
    }
  }

  lemma Halves(b: nat, r: nat)
    requires b <= 1
    ensures (b + 2 * r) % 2 == b && (b + 2 * r) / 2 == r
  {
  }

  lemma OrBitStep(b: nat, r: nat, k: int)
    requires b <= 1
    ensures k > 0 ==> OrBit(b + 2 * r, k) == b + 2 * OrBit(r, k - 1)
    ensures k == 0 ==> OrBit(b + 2 * r, k) == 1 + 2 * r
  {
    Halves(b, r);
  }

  /** One more flag changes at most its own bit. */
  lemma {:induction false} PackedStep(flags: seq<bool>, f: bool, i: nat, n: nat)
    ensures Packed(flags + [f], i, n)
         == if f && i <= |flags| < i + n then OrBit(Packed(flags, i, n), |flags| - i) else Packed(flags, i, n)
    decreases n
  {
    if n > 0 {
      PackedStep(flags, f, i + 1, n - 1);
      var b, r := Flag(flags, i), Packed(flags, i + 1, n - 1);
      Halves(b, r);
      OrBitStep(b, r, |flags| - i);
    }
  }

  lemma BitmapStep(flags: seq<bool>, f: bool, j: nat)
    ensures BitmapByte(flags + [f], j)
         == if f && j == |flags| / 8 then SetBit(BitmapByte(flags, j), |flags| % 8) else BitmapByte(flags, j)
  {
    PackedStep(flags, f, 8 * j, 8);
    assert j == |flags| / 8 ==> |flags| % 8 == |flags| - 8 * j;
  }

  /** One more flag, in place. */
  lemma BitmapAppend(flags: seq<bool>, f: bool, n: nat)
    requires |flags| < 8 * n
    ensures var b, j := Bitmap(flags, n), |flags| / 8;
            Bitmap(flags + [f], n) == if f then b[j := SetBit(b[j], |flags| % 8)] else b
  {
    hide BitmapByte, SetBit;
    forall j | 0 <= j < n ensures BitmapByte(flags + [f], j)
        == if f && j == |flags| / 8 then SetBit(BitmapByte(flags, j), |flags| % 8) else BitmapByte(flags, j)
    {
      BitmapStep(flags, f, j);
    }
  }

  lemma BitmapEmpty(n: nat)
    ensures Bitmap([], n) == seq(n, _ => 0)
  {
    forall j: nat ensures BitmapByte([], j) == 0 {
      PackedNone(8 * j, 8);
    }
  }

  lemma {:induction false} PackedNone(i: nat, n: nat)
    ensures Packed([], i, n) == 0
    decreases n
  {
    if n > 0 {
      PackedNone(i + 1, n - 1);
    }
  }

  // --------------------------------------------------------------- specification of rows

  function NullFlags(row: Row): (f: seq<bool>)
    ensures |f| == |row|
  {
    seq(|row|, i requires 0 <= i < |row| => row[i].Null?)
  }

  /** The values of columns i, i+1, ... that are not NULL, one after the other. */
  function ValuesFrom(row: Row, cols: seq<Column>, i: nat): Bytes
    requires RowFor(row, cols) && i <= |row|
    decreases |row| - i
  {
    if i == |row| then []
    else (if row[i].Null? then [] else EncodeValue(row[i].v, cols[i].t, cols[i].meta)) + ValuesFrom(row, cols, i + 1)
  }

  function RowBytes(row: Row, cols: seq<Column>): Bytes
    requires RowFor(row, cols)
  {
    Bitmap(NullFlags(row), BitmapSize(|cols|)) + ValuesFrom(row, cols, 0)
  }

  predicate RowsFor(rows: seq<Row>, cols: seq<Column>) {
    forall k :: 0 <= k < |rows| ==> RowFor(rows[k], cols)
  }

  function RowsBytes(rows: seq<Row>, cols: seq<Column>): Bytes
    requires RowsFor(rows, cols)
  {
    if rows == [] then [] else RowBytes(rows[0], cols) + RowsBytes(rows[1..], cols)
  }

  // ------------------------------------------------------------------------ the encoder

  /** One more column: nothing for a NULL, else its encoding. */
  lemma {:induction false} ValuesNext(row: Row, cols: seq<Column>, i: nat, values: Bytes)
    requires RowFor(row, cols) && i < |row|
    ensures var more := if row[i].Null? then values else values + EncodeValue(row[i].v, cols[i].t, cols[i].meta);
            values + ValuesFrom(row, cols, i) == more + ValuesFrom(row, cols, i + 1)
  {
    hide EncodeValue, Encodable;
    var tail := ValuesFrom(row, cols, i + 1);
    if row[i].Null? {
      assert [] + tail == tail;
    } else {
      var e := EncodeValue(row[i].v, cols[i].t, cols[i].meta);
      assert values + (e + tail) == values + e + tail;
    }
  }

  lemma {:induction false} ValuesDone(row: Row, cols: seq<Column>, values: Bytes)
    requires RowFor(row, cols)
    ensures values + ValuesFrom(row, cols, |row|) == values
  {
    assert values + [] == values;
  }

  /** The inner loop of encodeRowData: sets NULL bits in place and appends the other values. */
  method EncodeRow(row: Row, cols: seq<Column>) returns (r: Bytes)
    requires RowFor(row, cols)
    ensures r == RowBytes(row, cols)
  {
    hide EncodeValue, Encodable, Bitmap, SetBit, BitmapSize, ValuesFrom;
    var size := BitmapSize(|cols|);
    var nullBitmap := new byte[size](_ => 0);
    var values: Bytes := [];
    ghost var flags := NullFlags(row);
    BitmapEmpty(size);
    assert nullBitmap[..] == seq(size, _ => 0) && flags[..0] == [];
    for i := 0 to |row|
      invariant nullBitmap[..] == Bitmap(flags[..i], size)
      invariant values + ValuesFrom(row, cols, i) == ValuesFrom(row, cols, 0)
    {
      ValuesNext(row, cols, i, values);
      assert flags[..i + 1] == flags[..i] + [row[i].Null?];
      BitmapAppend(flags[..i], row[i].Null?, size);
      if row[i].Null? {
        assert nullBitmap[..][i / 8] == nullBitmap[i / 8];
        nullBitmap[i / 8] := SetBit(nullBitmap[i / 8], i % 8);
      } else {
        values := values + EncodeValue(row[i].v, cols[i].t, cols[i].meta);
      }
    }
    assert flags[..|row|] == flags;
    ValuesDone(row, cols, values);
    r := nullBitmap[..] + values;
  }

  method EncodeRowData(rows: seq<Row>, cols: seq<Column>) returns (data: Bytes)
    requires RowsFor(rows, cols)
    ensures data == RowsBytes(rows, cols)
  {
    data := [];
    for k := 0 to |rows|
      invariant data + RowsBytes(rows[k..], cols) == RowsBytes(rows, cols)
    {
      var r := EncodeRow(rows[k], cols);
      assert rows[k..][1..] == rows[k + 1..];
      data := data + r;
    }
  }

  // ------------------------------------------------------------------------ the decoder

  /** Reads the values of columns i, i+1, ...; the bitmap says which are NULL. */
  function DecodeValues(s: Bytes, bitmap: Bytes, cols: seq<Column>, i: nat): Decoded<Row>
    requires i <= |cols| && |bitmap| == BitmapSize(|cols|)
    decreases |cols| - i
  {
    if i == |cols| then Got([], s)
    else if BitAt(bitmap, i) then
      match DecodeValues(s, bitmap, cols, i + 1)
      case Bad => Bad
      case Got(row, rest) => Got([Null] + row, rest)
    else
      match DecodeValue(s, cols[i].t, cols[i].meta)
      case Bad => Bad
      case Got(v, s') =>
        match DecodeValues(s', bitmap, cols, i + 1)
        case Bad => Bad
        case Got(row, rest) => Got([Val(v)] + row, rest)
  }

  function DecodeRow(s: Bytes, cols: seq<Column>): Decoded<Row> {
    match Take(s, BitmapSize(|cols|))
    case Bad => Bad
    case Got(bitmap, rest) => DecodeValues(rest, bitmap, cols, 0)
  }

  /** Reads rows until the data is used up; a row that takes no bytes cannot be told from no row. */
  function DecodeRows(s: Bytes, cols: seq<Column>): Option<seq<Row>>
    decreases |s|
  {
    if s == [] then Some([])
    else
      match DecodeRow(s, cols)
      case Bad => None
      case Got(row, rest) =>
        if |rest| >= |s| then None
        else
          match DecodeRows(rest, cols)
          case None => None
          case Some(rows) => Some([row] + rows)
  }

  // ------------------------------------------------------------------------- round trip

  /** Bit i of a row's bitmap is set exactly when value i is NULL. */
  lemma NullBitExact(row: Row, columns: nat, i: nat)
    requires |row| == columns && i < columns
    ensures BitAt(Bitmap(NullFlags(row), BitmapSize(columns)), i) <==> row[i].Null?
  {
    hide TestBit, Packed;
    var j, k := i / 8, i % 8;
    assert 8 * j + k == i;
    PackedBit(NullFlags(row), 8 * j, 8, k);
  }

  function SettledCell(c: Cell, col: Column): Cell {
    match c
    case Null => Null
    case Val(v) => Val(Settled(v, col.t, col.meta))
  }

  /** The row as the decoder returns it: decimals in the places of their columns. */
  function SettledRow(row: Row, cols: seq<Column>): (r: Row)
    requires |row| == |cols|
    ensures |r| == |row|
  {
    seq(|row|, i requires 0 <= i < |row| => SettledCell(row[i], cols[i]))
  }

  function SettledRows(rows: seq<Row>, cols: seq<Column>): (r: seq<Row>)
    requires forall k :: 0 <= k < |rows| ==> |rows[k]| == |cols|
    ensures |r| == |rows|
  {
    seq(|rows|, k requires 0 <= k < |rows| => SettledRow(rows[k], cols))
  }

  function CellDatum(c: Cell, t: byte): Datum {
    match c
    case Null => DNull
    case Val(v) => DatumOf(v, t)
  }

  /** The data of a row in columns of the given types. */
  function Data(row: Row, cols: seq<Column>): (d: seq<Datum>)
    ensures |d| == |row|
  {
    seq(|row|, i requires 0 <= i < |row| => CellDatum(row[i], if i < |cols| then cols[i].t else 0))
  }

  /** Decoding changes no datum of a representable row. */
  lemma SettledData(row: Row, cols: seq<Column>)
    requires RepresentableRow(row, cols)
    ensures Data(SettledRow(row, cols), cols) == Data(row, cols)
  {
    hide Settled, DatumOf, Representable;
    forall i | 0 <= i < |row|
      ensures CellDatum(SettledCell(row[i], cols[i]), cols[i].t) == CellDatum(row[i], cols[i].t)
    {
      if row[i].Val? {
        SettledDatum(row[i].v, cols[i].t, cols[i].meta);
      }
    }
  }

  lemma SettledFrom(row: Row, cols: seq<Column>, i: nat)
    requires |row| == |cols| && i < |row|
    ensures SettledRow(row, cols)[i..] == [SettledCell(row[i], cols[i])] + SettledRow(row, cols)[i + 1..]
  {
    hide SettledCell;
  }

  predicate BitsAre(bitmap: Bytes, row: Row) {
    |bitmap| == BitmapSize(|row|)
    && forall k :: 0 <= k < |row| ==> (BitAt(bitmap, k) <==> row[k].Null?)
  }

  /** A NULL takes no bytes and its bit is read. */
  lemma {:induction false} DecodeNull(s: Bytes, bitmap: Bytes, cols: seq<Column>, i: nat, after: Row, rest: Bytes)
    requires i < |cols| && |bitmap| == BitmapSize(|cols|) && BitAt(bitmap, i)
    requires DecodeValues(s, bitmap, cols, i + 1) == Got(after, rest)
    ensures DecodeValues(s, bitmap, cols, i) == Got([Null] + after, rest)
  {
    hide DecodeValue, BitAt, BitmapSize;
  }

  /** Any other value is read off the front. */
  lemma {:induction false} DecodeNext(s: Bytes, s': Bytes, v: Value, bitmap: Bytes, cols: seq<Column>, i: nat,
                                      after: Row, rest: Bytes)
    requires i < |cols| && |bitmap| == BitmapSize(|cols|) && !BitAt(bitmap, i)
    requires DecodeValue(s, cols[i].t, cols[i].meta) == Got(v, s')
    requires DecodeValues(s', bitmap, cols, i + 1) == Got(after, rest)
    ensures DecodeValues(s, bitmap, cols, i) == Got([Val(v)] + after, rest)
  {
    hide DecodeValue, BitAt, BitmapSize;
  }

  lemma {:induction false} ValuesUnfold(row: Row, cols: seq<Column>, i: nat, rest: Bytes)
    requires RowFor(row, cols) && i < |row|
    ensures row[i].Null? ==> ValuesFrom(row, cols, i) + rest == ValuesFrom(row, cols, i + 1) + rest
    ensures row[i].Val? ==> ValuesFrom(row, cols, i) + rest
                            == EncodeValue(row[i].v, cols[i].t, cols[i].meta) + (ValuesFrom(row, cols, i + 1) + rest)
  {
    hide EncodeValue, Encodable;
    var tail := ValuesFrom(row, cols, i + 1);
    if row[i].Null? {
      assert [] + tail == tail;
    } else {
      var e := EncodeValue(row[i].v, cols[i].t, cols[i].meta);
      assert (e + tail) + rest == e + (tail + rest);
    }
  }

  lemma ValuesStep(row: Row, cols: seq<Column>, bitmap: Bytes, i: nat, rest: Bytes, after: Row)
    requires RowFor(row, cols) && i < |row| && |bitmap| == BitmapSize(|cols|) && (BitAt(bitmap, i) <==> row[i].Null?)
    requires row[i].Val? ==> Representable(row[i].v, cols[i].t, cols[i].meta)
    requires DecodeValues(ValuesFrom(row, cols, i + 1) + rest, bitmap, cols, i + 1) == Got(after, rest)
    ensures DecodeValues(ValuesFrom(row, cols, i) + rest, bitmap, cols, i) == Got([SettledCell(row[i], cols[i])] + after, rest)
  {
    hide EncodeValue, DecodeValue, Encodable, Representable, BitAt, BitmapSize, Settled, ValuesFrom, DecodeValues;
    var tail := ValuesFrom(row, cols, i + 1) + rest;
    ValuesUnfold(row, cols, i, rest);
    if row[i].Null? {
      DecodeNull(tail, bitmap, cols, i, after, rest);
    } else {
      var v, t, meta := row[i].v, cols[i].t, cols[i].meta;
      ValueRoundTrip(v, t, meta, tail);
      DecodeNext(EncodeValue(v, t, meta) + tail, tail, Settled(v, t, meta), bitmap, cols, i, after, rest);
    }
  }

  lemma {:induction false} ValuesRoundTrip(row: Row, cols: seq<Column>, bitmap: Bytes, i: nat, rest: Bytes)
    requires RepresentableRow(row, cols) && RowFor(row, cols) && i <= |row| && BitsAre(bitmap, row)
    ensures DecodeValues(ValuesFrom(row, cols, i) + rest, bitmap, cols, i) == Got(SettledRow(row, cols)[i..], rest)
    decreases |row| - i
  {
    hide Encodable, Representable, SettledRow, SettledCell, BitAt, BitmapSize, DecodeValues, ValuesFrom, EncodeValue,
         DecodeValue;
    if i == |row| {
      ValuesEnd(row, cols, bitmap, rest);
      assert SettledRow(row, cols)[i..] == [];
    } else {
      ValuesRoundTrip(row, cols, bitmap, i + 1, rest);
      ValuesStep(row, cols, bitmap, i, rest, SettledRow(row, cols)[i + 1..]);
      SettledFrom(row, cols, i);
    }
  }

  lemma {:induction false} ValuesEnd(row: Row, cols: seq<Column>, bitmap: Bytes, rest: Bytes)
    requires RowFor(row, cols) && |bitmap| == BitmapSize(|cols|)
    ensures DecodeValues(ValuesFrom(row, cols, |row|) + rest, bitmap, cols, |row|) == Got([], rest)
  {
    hide Encodable, BitAt, BitmapSize, EncodeValue, DecodeValue;
    assert [] + rest == rest;
  }

  /** A representable row is read off the front of any data, with the same datum in every column. */
  lemma RowRoundTrip(row: Row, cols: seq<Column>, rest: Bytes)
    requires RepresentableRow(row, cols) && RowFor(row, cols)
    ensures DecodeRow(RowBytes(row, cols) + rest, cols) == Got(SettledRow(row, cols), rest)
    ensures Data(SettledRow(row, cols), cols) == Data(row, cols)
  {
    hide ValuesFrom, DecodeValues, Encodable, Representable, Bitmap, TestBit, NullFlags, SettledRow, Data;
    var b := Bitmap(NullFlags(row), BitmapSize(|cols|));
    var s := RowBytes(row, cols) + rest;
    assert s[..|b|] == b && s[|b|..] == ValuesFrom(row, cols, 0) + rest;
    forall k | 0 <= k < |row| ensures BitAt(b, k) <==> row[k].Null? {
      NullBitExact(row, |cols|, k);
    }
    ValuesRoundTrip(row, cols, b, 0, rest);
    assert SettledRow(row, cols)[0..] == SettledRow(row, cols);
    SettledData(row, cols);
  }

  /** Without columns every row is encoded as nothing, so the number of rows is lost. */
  lemma {:induction false} ZeroColumnRows(rows: seq<Row>)
    requires RowsFor(rows, [])
    ensures RowsBytes(rows, []) == []
  {
    if rows != [] {
      ZeroColumnRows(rows[1..]);
      assert RowBytes(rows[0], []) == [];
    }
  }

  /** One row of a table without columns decodes to no row. */
  lemma ZeroColumnRowIsLost()
    ensures RowsFor([[]], []) && RepresentableRow([], []) && DecodeRows(RowsBytes([[]], []), []) == Some([])
  {
    assert RowFor([], []);
    ZeroColumnRows([[]]);
  }

  lemma {:induction false} RowsDecode(rows: seq<Row>, cols: seq<Column>)
    requires cols != [] && RowsFor(rows, cols)
    requires forall k :: 0 <= k < |rows| ==> RepresentableRow(rows[k], cols)
    ensures DecodeRows(RowsBytes(rows, cols), cols) == Some(SettledRows(rows, cols))
  {
    hide SettledRow, DecodeRow, Representable, Encodable, ValuesFrom, Bitmap;
    if rows == [] {
    } else {
      RowRoundTrip(rows[0], cols, RowsBytes(rows[1..], cols));
      RowsDecode(rows[1..], cols);
      assert |RowBytes(rows[0], cols)| >= BitmapSize(|cols|) > 0;
      assert SettledRows(rows, cols) == [SettledRow(rows[0], cols)] + SettledRows(rows[1..], cols);
    }
  }

  /** Row data round trip: any number of representable rows decodes back, exactly when the table has a column
      (or there was no row to lose). */
  lemma RowsRoundTrip(rows: seq<Row>, cols: seq<Column>)
    requires RowsFor(rows, cols) && forall k :: 0 <= k < |rows| ==> RepresentableRow(rows[k], cols)
    ensures DecodeRows(RowsBytes(rows, cols), cols) == Some(SettledRows(rows, cols)) <==> cols != [] || rows == []
    ensures forall k :: 0 <= k < |rows| ==> Data(SettledRows(rows, cols)[k], cols) == Data(rows[k], cols)
  {
    hide SettledRow, Data, RepresentableRow;
    forall k | 0 <= k < |rows| ensures Data(SettledRows(rows, cols)[k], cols) == Data(rows[k], cols) {
      SettledData(rows[k], cols);
    }
    if cols != [] {
      RowsDecode(rows, cols);
    } else {
      ZeroColumnRows(rows);
    }
  }
}
