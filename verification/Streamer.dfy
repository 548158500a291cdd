/**
  From PostgreSQL tuples to change events (pkg/replication/pg_streamer.go): type mapping, text conversion,
  and tuple decoding with the old row standing in for unchanged TOAST columns.
 */
module Streamer {
  import opened Wrappers
  import opened Bytes
  import opened Digits
  import opened Scanning
  import opened Decimal
  import opened Values
  import opened Rows

  // ------------------------------------------------------------------------ types

  /** pgTypeToMySQLType */
  function MySQLType(oid: nat): byte {
    if oid == 16 then TINY
    else if oid == 21 then SHORT
    else if oid == 23 || oid == 26 then LONG
    else if oid == 20 then LONGLONG
    else if oid == 700 then FLOAT
    else if oid == 701 then DOUBLE
    else if oid == 1700 || oid == 790 then NEWDECIMAL
    else if oid == 1082 then DATE
    else if oid == 1083 || oid == 1266 then TIME
    else if oid == 1114 || oid == 1184 then DATETIME
    else if oid == 18 || oid == 1042 || oid == 2950 then STRING
    else if oid == 25 || oid == 17 then BLOB
    else if oid == 114 || oid == 3802 then JSON
    else if oid == 1560 || oid == 1562 then BIT
    else if IsArrayOid(oid) then JSON
    else VAR_STRING
  }

  /** In the numbers of the two protocols: booleans are TINY (1), integers SHORT (2), LONG (3) and LONGLONG (8), floats FLOAT
      (4) and DOUBLE (5), numbers DECIMAL (246), dates and times DATE (10), TIME (11) and DATETIME (12), characters CHAR
      (254), text and binary data BLOB (252), documents and arrays JSON (245), bit strings BIT (16), and everything else
      VARCHAR (253). */
  lemma TypeCodes(oid: nat)
    ensures MySQLType(oid) == 1 <==> oid == 16
    ensures MySQLType(oid) == 2 <==> oid == 21
    ensures MySQLType(oid) == 3 <==> oid in {23, 26}
    ensures MySQLType(oid) == 8 <==> oid == 20
    ensures MySQLType(oid) == 4 <==> oid == 700
    ensures MySQLType(oid) == 5 <==> oid == 701
    ensures MySQLType(oid) == 246 <==> oid in {1700, 790}
    ensures MySQLType(oid) == 10 <==> oid == 1082
    ensures MySQLType(oid) == 11 <==> oid in {1083, 1266}
    ensures MySQLType(oid) == 12 <==> oid in {1114, 1184}
    ensures MySQLType(oid) == 254 <==> oid in {18, 1042, 2950}
    ensures MySQLType(oid) == 252 <==> oid in {25, 17}
    ensures MySQLType(oid) == 245 <==> oid in {114, 3802, 1000, 1005, 1007, 1016, 1009, 1015, 1021, 1022}
    ensures MySQLType(oid) == 16 <==> oid in {1560, 1562}
    ensures MySQLType(oid) in {1, 2, 3, 8, 4, 5, 246, 10, 11, 12, 254, 252, 245, 16, 253}
  {
  }

  predicate IsArrayOid(oid: nat) {
    oid in {1000, 1005, 1007, 1016, 1009, 1015, 1021, 1022}
  }

  /** fmt's %f into a float, as the bit pattern of its result: a parameter of the model. */
  datatype FloatParser = FloatParser(single: Bytes -> nat, double: Bytes -> nat)

  /** Sscanf("%d") into an integer of `k` bytes: zero when there is no number or it does not fit. */
  function ScanSized(s: Bytes, k: nat): (v: int)
    ensures FitsSigned(v, k)
  {
    match ScanInt(s)
    case Failed => 0
    case Scanned(v, _) => if FitsSigned(v, k) then v else 0
  }

  const T_TEXT: Bytes := [116]
  const TRUE_TEXT: Bytes := [116, 114, 117, 101]
  const ONE_TEXT: Bytes := [49]

  /** convertPGValue */
  function ConvertValue(text: Bytes, oid: nat, fp: FloatParser): Value {
    if oid == 16 then Int8(if text == T_TEXT || text == TRUE_TEXT || text == ONE_TEXT then 1 else 0)
    else if oid == 21 then Int16(ScanSized(text, 2))
    else if oid == 23 || oid == 26 then Int32(ScanSized(text, 4))
    else if oid == 20 then Int64(ScanSized(text, 8))
    else if oid == 700 then Float32(fp.single(text))
    else if oid == 701 then Float64(fp.double(text))
    else if IsArrayOid(oid) && |text| > 0 && text[0] == 123 && text[|text| - 1] == 125 then
      // '{' ... '}' becomes '[' ... ']'; a single brace cannot be both, so there are two of them
      Str([91] + text[1..|text| - 1] + [93])
    else Str(text)
  }

  /** A boolean is 1 for t, true and 1, and 0 for any other text. */
  lemma BooleanTexts(text: Bytes, fp: FloatParser)
    ensures ConvertValue(text, 16, fp)
         == Int8(if text in {Ascii("t"), Ascii("true"), Ascii("1")} then 1 else 0)
  {
    assert Ascii("t") == T_TEXT && Ascii("true") == TRUE_TEXT && Ascii("1") == ONE_TEXT;
  }

  /** Whatever the text, the converted value has the Go type its MySQL column type is encoded from. */
  lemma ConvertedEncodable(text: Bytes, oid: nat, fp: FloatParser)
    ensures Encodable(ConvertValue(text, oid, fp), MySQLType(oid))
  {
  }

  // ----------------------------------------------------------------------- tuples

  /** A column of a logical-replication tuple: 'n', 'u', or 't' with its text. */
  datatype TupleColumn = TNull | TUnchanged | TText(data: Bytes)

  /** What one tuple column decodes to, given the value to fall back on. */
  function DecodeColumn(c: TupleColumn, oids: seq<nat>, fallback: Option<Row>, i: nat, fp: FloatParser): Cell {
    match c
    case TNull => Null
    case TUnchanged => if fallback.Some? && i < |fallback.value| then fallback.value[i] else Null
    case TText(data) => Val(if i < |oids| then ConvertValue(data, oids[i], fp) else Str(data))
  }

  function DecodeTupleSpec(t: seq<TupleColumn>, oids: seq<nat>, fallback: Option<Row>, fp: FloatParser): (row: Row)
    ensures |row| == |t|
  {
    seq(|t|, i requires 0 <= i < |t| => DecodeColumn(t[i], oids, fallback, i, fp))
  }

  /** decodeTupleData on a tuple that is present. */
  method DecodeTuple(t: seq<TupleColumn>, oids: seq<nat>, fallback: Option<Row>, fp: FloatParser) returns (row: Row)
    ensures row == DecodeTupleSpec(t, oids, fallback, fp)
  {
    var values := new Cell[|t|](_ => Null);
    for i := 0 to |t|
      invariant forall j :: 0 <= j < i ==> values[j] == DecodeColumn(t[j], oids, fallback, j, fp)
    {
      match t[i]
      case TNull =>
        values[i] := Null;
      case TUnchanged =>
        if fallback.Some? && i < |fallback.value| {
          values[i] := fallback.value[i];
        } else {
          values[i] := Null;
        }
      case TText(data) =>
        values[i] := Val(if i < |oids| then ConvertValue(data, oids[i], fp) else Str(data));
    }
    row := values[..];
  }

  // --------------------------------------------------- source rows and their tuples

  /** A source row: per column the text form of its value, or SQL NULL. */
  datatype SourceCell = SqlNull | Text(data: Bytes)
  type SourceRow = seq<SourceCell>

  function ConvertCell(c: SourceCell, oid: nat, fp: FloatParser): Cell {
    match c
    case SqlNull => Null
    case Text(data) => Val(ConvertValue(data, oid, fp))
  }

  /** The row a replica should hold for a source row. */
  function ConvertRow(row: SourceRow, oids: seq<nat>, fp: FloatParser): (r: Row)
    requires |row| == |oids|
    ensures |r| == |row|
  {
    seq(|row|, i requires 0 <= i < |row| => ConvertCell(row[i], oids[i], fp))
  }

  /** The tuple the source server sends for a row, with the columns in `toasted` marked unchanged. */
  function TupleOf(row: SourceRow, toasted: set<nat>): (t: seq<TupleColumn>)
    ensures |t| == |row|
  {
    seq(|row|, i requires 0 <= i < |row| =>
      if i in toasted then TUnchanged else match row[i] case SqlNull => TNull case Text(d) => TText(d))
  }

  /** A complete tuple decodes to the row. */
  lemma DecodeComplete(row: SourceRow, oids: seq<nat>, fallback: Option<Row>, fp: FloatParser)
    requires |row| == |oids|
    ensures DecodeTupleSpec(TupleOf(row, {}), oids, fallback, fp) == ConvertRow(row, oids, fp)
  {
  }

  /** Filling 'u' columns from the decoded old tuple gives the full new row exactly when the
      columns left out really were unchanged. */
  lemma DecodeWithToast(prev: SourceRow, row: SourceRow, toasted: set<nat>, oids: seq<nat>, fp: FloatParser)
    requires |prev| == |row| == |oids|
    ensures DecodeTupleSpec(TupleOf(row, toasted), oids, Some(ConvertRow(prev, oids, fp)), fp) == ConvertRow(row, oids, fp)
       <==> forall i :: 0 <= i < |row| && i in toasted ==>
              ConvertCell(row[i], oids[i], fp) == ConvertCell(prev[i], oids[i], fp)
  {
    var got := DecodeTupleSpec(TupleOf(row, toasted), oids, Some(ConvertRow(prev, oids, fp)), fp);
    var want := ConvertRow(row, oids, fp);
    forall i | 0 <= i < |row|
      ensures got[i] == if i in toasted then ConvertCell(prev[i], oids[i], fp) else want[i]
    {
    }
    if got == want {
      forall i | 0 <= i < |row| && i in toasted
        ensures ConvertCell(row[i], oids[i], fp) == ConvertCell(prev[i], oids[i], fp)
      {
        assert got[i] == want[i];
      }
    }
  }
}
