/**
  What the rows of the source mean: PostgreSQL values, the text in which logical replication sends them, and the data
  they stand for.  The theorem of this module is that the streamer's conversion of that text
  (pkg/replication/pg_streamer.go, convertPGValue) loses nothing of a value its MySQL column can hold.
 */
module SourceValues {
  import opened Wrappers
  import opened Bytes
  import opened Digits
  import opened Scanning
  import opened Decimal
  import opened DecimalTheorems
  import opened Values
  import opened Rows
  import opened Streamer
  import opened Server

  /** A value of a source column.  Numerics are numerals; dates, times, strings and documents are their own text; arrays
      are what stands between their braces; binary data are bytes. */
  datatype PgValue =
    | PgNull
    | PgBool(flag: bool)
    | PgInt(i: int)
    | PgFloat4(bits: nat)
    | PgFloat8(bits: nat)
    | PgNumeric(s: Bytes)
    | PgText(s: Bytes)
    | PgArray(body: Bytes)
    | PgBytes(b: Bytes)

  type PgRow = seq<PgValue>

  /** How the source prints floats: a parameter of the model. */
  datatype FloatPrinter = FloatPrinter(single: nat -> Bytes, double: nat -> Bytes)

  /** Both ends of the text: the source's float printer and the streamer's float scanner. */
  datatype Floats = Floats(printer: FloatPrinter, parser: FloatParser)

  const F_TEXT: Bytes := [102]

  function HexDigit(n: nat): byte
    requires n < 16
  {
    if n < 10 then 48 + n else 87 + n
  }

  /** Two lower-case hexadecimal digits per byte. */
  function HexText(b: Bytes): (s: Bytes)
    ensures |s| == 2 * |b|
  {
    if b == [] then [] else [HexDigit(b[0] / 16), HexDigit(b[0] % 16)] + HexText(b[1..])
  }

  /** The text the source sends for a value. */
  function TextOf(v: PgValue, pr: FloatPrinter): SourceCell {
    match v
    case PgNull => SqlNull
    case PgBool(flag) => Text(if flag then T_TEXT else F_TEXT)
    case PgInt(i) => Text(IntText(i))
    case PgFloat4(b) => Text(pr.single(b))
    case PgFloat8(b) => Text(pr.double(b))
    case PgNumeric(s) => Text(s)
    case PgText(s) => Text(s)
    case PgArray(body) => Text([123] + body + [125])
    case PgBytes(b) => Text([92, 120] + HexText(b))
  }

  /** The datum a value stands for.  An array stands for the list with the same elements in brackets. */
  function Meaning(v: PgValue): Datum {
    match v
    case PgNull => DNull
    case PgBool(flag) => DInt(if flag then 1 else 0)
    case PgInt(i) => DInt(i)
    case PgFloat4(b) => DFloat(b)
    case PgFloat8(b) => DFloat(b)
    case PgNumeric(s) => NumberOf(s)
    case PgText(s) => DText(s)
    case PgArray(body) => DText([91] + body + [93])
    case PgBytes(b) => DText(b)
  }

  predicate IsIntOid(oid: nat) {
    oid == 21 || oid == 23 || oid == 26 || oid == 20
  }

  function IntWidth(oid: nat): nat {
    if oid == 21 then 2 else if oid == 20 then 8 else 4
  }

  /** DECIMAL(10,2): eight digits before the point and two behind it. */
  const DECIMAL_10_2: Meta := 0x0A02

  /** The values of a source column that its MySQL column can hold: integers in the width of the MySQL type, floats that
      the streamer scans back to what the source printed, numerics of DECIMAL(10,2), dates and times without fraction and
      offset, text of at most 255 bytes in character columns, 65535 bytes in varchar and text columns, and less than 4 GiB
      in documents and arrays.  Binary, bit and money columns hold none. */
  ghost predicate ValueOk(v: PgValue, oid: nat, fl: Floats) {
    v.PgNull?
    || if oid == 16 then v.PgBool?
       else if oid == 21 then v.PgInt? && -0x8000 <= v.i < 0x8000
       else if oid == 23 || oid == 26 then v.PgInt? && -0x8000_0000 <= v.i < 0x8000_0000
       else if oid == 20 then v.PgInt? && -0x8000_0000_0000_0000 <= v.i < 0x8000_0000_0000_0000
       else if oid == 700 then
         v.PgFloat4? && v.bits < 0x1_0000_0000 && fl.parser.single(fl.printer.single(v.bits)) == v.bits
       else if oid == 701 then
         v.PgFloat8? && v.bits < 0x1_0000_0000_0000_0000 && fl.parser.double(fl.printer.double(v.bits)) == v.bits
       else if oid == 1700 then v.PgNumeric? && Numeral(v.s) && Fits(v.s, DECIMAL_10_2)
       else if oid == 1082 then v.PgText? && exists y, m, d :: IsDate(v.s, y, m, d)
       else if oid == 1083 || oid == 1266 then v.PgText? && exists h, m, c :: IsClock(v.s, h, m, c)
       else if oid == 1114 || oid == 1184 then v.PgText? && exists vs :: IsDatetime(v.s, vs)
       else if IsArrayOid(oid) then v.PgArray? && |v.body| < 0xFFFF_FFFE
       else if oid == 114 || oid == 3802 then v.PgText? && |v.s| < 0x1_0000_0000
       else if oid == 18 || oid == 1042 || oid == 2950 then v.PgText? && |v.s| <= 255
       else oid !in {17, 790, 1560, 1562} && v.PgText? && |v.s| <= 65535
  }

  // ------------------------------------------------------------------------ conversion

  /** Scanning the text of an integer into `k` bytes gives the integer when it fits, and zero when it does not. */
  lemma ScanSizedOfText(v: int, k: nat)
    requires k <= 8
    ensures ScanSized(IntText(v), k) == if FitsSigned(v, k) then v else 0
  {
    hide ScanInt, IntText;
    ScanOfIntText(v);
    Pow256Table();
    WidthBound(k, 8);
  }

  lemma {:induction false} WidthBound(k: nat, n: nat)
    requires k <= n
    ensures P256(k) <= P256(n)
  {
    if k < n {
      WidthBound(k, n - 1);
    }
  }

  /** Converting the text of an integer gives that integer, in the Go type of the column, exactly when it fits. */
  lemma IntConverts(i: int, oid: nat, fp: FloatParser)
    requires IsIntOid(oid)
    ensures DatumOf(ConvertValue(IntText(i), oid, fp), MySQLType(oid))
         == DInt(if FitsSigned(i, IntWidth(oid)) then i else 0)
  {
    hide IntText, FitsSigned;
    ScanSizedOfText(i, IntWidth(oid));
  }

  /** An oid is unsigned and its MySQL column signed: exactly the oids below 2^31 are replicated, the others become 0. */
  lemma OidSurvivesIff(oid: nat, fp: FloatParser)
    requires 0 <= oid < 0x1_0000_0000
    ensures DatumOf(ConvertValue(IntText(oid), 26, fp), MySQLType(26)) == Meaning(PgInt(oid)) <==> oid < 0x8000_0000
    ensures oid >= 0x8000_0000 ==> DatumOf(ConvertValue(IntText(oid), 26, fp), MySQLType(26)) == DInt(0)
  {
    hide IntText;
    IntConverts(oid, 26, fp);
    Pow256Table();
  }

  lemma LargeOidBecomesZero(fp: FloatParser)
    ensures DatumOf(ConvertValue(IntText(3_000_000_000), 26, fp), MySQLType(26)) == DInt(0)
    ensures Meaning(PgInt(3_000_000_000)) == DInt(3_000_000_000)
  {
    hide IntText;
    OidSurvivesIff(3_000_000_000, fp);
  }

  /** Binary data travels as hexadecimal text and stays that: no value of a bytea column, not even the empty one, is what
      the replica gets. */
  lemma {:induction false} ByteaNeverSurvives(b: Bytes, pr: FloatPrinter, fp: FloatParser)
    ensures DatumOf(ConvertValue(TextOf(PgBytes(b), pr).data, 17, fp), MySQLType(17)) == DText([92, 120] + HexText(b))
    ensures DatumOf(ConvertValue(TextOf(PgBytes(b), pr).data, 17, fp), MySQLType(17)) != Meaning(PgBytes(b))
  {
    hide HexText, ScanSized;
    var text := [92, 120] + HexText(b);
    assert ConvertValue(text, 17, fp) == Str(text) && |text| == 2 + 2 * |b|;
  }

  predicate Converts(w: Value, v: PgValue, t: byte) {
    DatumOf(w, t) == Meaning(v)
  }

  /** Every value a column can hold is converted to a representable value of the same datum. */
  lemma ValueConverts(v: PgValue, oid: nat, fl: Floats)
    requires ValueOk(v, oid, fl) && !v.PgNull?
    ensures var w, t := ConvertValue(TextOf(v, fl.printer).data, oid, fl.parser), MySQLType(oid);
            Representable(w, t, ColumnMeta(t)) && Converts(w, v, t)
  {
    if IsIntOid(oid) {
      IntLimits(v.i, oid);
      IntRepresentable(v.i, oid, fl.parser);
    } else if oid == 16 {
      BoolConverts(v.flag, fl.parser);
    } else {
      OtherConverts(v, oid, fl);
    }
  }

  lemma IntLimits(i: int, oid: nat)
    requires IsIntOid(oid)
    ensures FitsSigned(i, IntWidth(oid))
       <==> if oid == 21 then -0x8000 <= i < 0x8000
            else if oid == 20 then -0x8000_0000_0000_0000 <= i < 0x8000_0000_0000_0000
            else -0x8000_0000 <= i < 0x8000_0000
  {
    Pow256Table();
  }

  lemma IntRepresentable(i: int, oid: nat, fp: FloatParser)
    requires IsIntOid(oid) && FitsSigned(i, IntWidth(oid))
    ensures var w, t := ConvertValue(IntText(i), oid, fp), MySQLType(oid);
            Representable(w, t, ColumnMeta(t)) && DatumOf(w, t) == DInt(i)
  {
    hide IntText, FitsSigned;
    IntConverts(i, oid, fp);
    ScanSizedOfText(i, IntWidth(oid));
  }

  lemma BoolConverts(b: bool, fp: FloatParser)
    ensures var w := ConvertValue(if b then T_TEXT else F_TEXT, 16, fp);
            Representable(w, TINY, ColumnMeta(TINY)) && DatumOf(w, TINY) == DInt(if b then 1 else 0)
  {
    Pow256Table();
    assert T_TEXT != F_TEXT && F_TEXT != TRUE_TEXT && F_TEXT != ONE_TEXT by { assert F_TEXT[0] == 102; }
  }

  lemma OtherConverts(v: PgValue, oid: nat, fl: Floats)
    requires ValueOk(v, oid, fl) && !v.PgNull? && !IsIntOid(oid) && oid != 16
    ensures var w, t := ConvertValue(TextOf(v, fl.printer).data, oid, fl.parser), MySQLType(oid);
            Representable(w, t, ColumnMeta(t)) && Converts(w, v, t)
  {
    hide Numeral, Fits, P256, ValueOf, IsDate, IsClock, IsDatetime;
    Pow256Table();
    if IsArrayOid(oid) {
      var text := [123] + v.body + [125];
      assert text[1..|text| - 1] == v.body;
      assert |[91] + v.body + [93]| == |v.body| + 2;
    }
  }

  // ------------------------------------------------------------------------------- rows

  function Texts(row: PgRow, pr: FloatPrinter): (r: SourceRow)
    ensures |r| == |row|
  {
    seq(|row|, i requires 0 <= i < |row| => TextOf(row[i], pr))
  }

  function Meanings(row: PgRow): (d: seq<Datum>)
    ensures |d| == |row|
  {
    seq(|row|, i requires 0 <= i < |row| => Meaning(row[i]))
  }

  ghost predicate PgRowOk(row: PgRow, oids: seq<nat>, fl: Floats) {
    |row| == |oids| && forall i :: 0 <= i < |row| ==> ValueOk(row[i], oids[i], fl)
  }

  /** The columns of a table map for the given source types. */
  predicate ColumnsFor(cols: seq<Column>, oids: seq<nat>) {
    |cols| == |oids|
    && forall i :: 0 <= i < |cols| ==> cols[i] == Column(MySQLType(oids[i]), ColumnMeta(MySQLType(oids[i])))
  }

  /** A row the columns can hold is converted to a representable row of the same data. */
  lemma RowConverts(row: PgRow, oids: seq<nat>, cols: seq<Column>, fl: Floats)
    requires PgRowOk(row, oids, fl) && ColumnsFor(cols, oids)
    ensures var r := ConvertRow(Texts(row, fl.printer), oids, fl.parser);
            RepresentableRow(r, cols) && Data(r, cols) == Meanings(row)
  {
    hide ValueOk, ConvertValue, MySQLType, ColumnMeta, Representable, DatumOf, Meaning, TextOf;
    var r := ConvertRow(Texts(row, fl.printer), oids, fl.parser);
    forall i | 0 <= i < |row|
      ensures r[i].Val? ==> Representable(r[i].v, cols[i].t, cols[i].meta)
      ensures CellDatum(r[i], cols[i].t) == Meaning(row[i])
    {
      CellConverts(row[i], oids[i], fl);
    }
  }

  lemma CellConverts(v: PgValue, oid: nat, fl: Floats)
    requires ValueOk(v, oid, fl)
    ensures var c, t := ConvertCell(TextOf(v, fl.printer), oid, fl.parser), MySQLType(oid);
            (c.Val? ==> Representable(c.v, t, ColumnMeta(t))) && CellDatum(c, t) == Meaning(v)
  {
    hide ValueOk, ConvertValue, MySQLType, ColumnMeta, Representable, DatumOf;
    if !v.PgNull? {
      ValueConverts(v, oid, fl);
    }
  }
}
