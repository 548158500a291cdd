/**
  Binlog events as bytes (pkg/replication/binlog_encoder.go): the common header and checksum, and the payloads
  of query, XID, table-map and rows events, each with the parser it has to satisfy.
 */
module Events {
  import opened Wrappers
  import opened Bytes
  import opened Decimal
  import opened Values
  import opened Rows

  const QUERY_EVENT: byte := 2
  const XID_EVENT: byte := 16
  const TABLE_MAP_EVENT: byte := 19
  const WRITE_ROWS_EVENT: byte := 30
  const UPDATE_ROWS_EVENT: byte := 31
  const DELETE_ROWS_EVENT: byte := 32
  const GTID_EVENT: byte := 33

  datatype TableMap = TableMap(id: nat, flags: nat, schema: Bytes, table: Bytes, cols: seq<Column>, nullBitmap: Bytes)

  datatype RowsEvent =
    RowsEvent(id: nat, flags: nat, cols: seq<Column>, bitmap1: Bytes, bitmap2: Bytes, rows: seq<Row>)

  datatype QueryEvent =
    QueryEvent(proxyId: nat, execTime: nat, errorCode: nat, statusVars: Bytes, schema: Bytes, query: Bytes)

  // ------------------------------------------------------------- length-encoded integers

  /** mysql.PutLengthEncodedInt */
  function LenEnc(n: nat): Bytes {
    if n <= 250 then [n]
    else if n <= 0xffff then [0xfc] + LE(n, 2)
    else if n <= 0xff_ffff then [0xfd] + LE(n, 3)
    else [0xfe] + LE(n, 8)
  }

  function TakeLE(s: Bytes, k: nat): Decoded<nat> {
    match Take(s, k)
    case Bad => Bad
    case Got(b, rest) => Got(FromLE(b), rest)
  }

  function TakeLenEnc(s: Bytes): Decoded<nat> {
    if s == [] then Bad
    else if s[0] <= 250 then Got(s[0], s[1..])
    else if s[0] == 0xfc then TakeLE(s[1..], 2)
    else if s[0] == 0xfd then TakeLE(s[1..], 3)
    else if s[0] == 0xfe then TakeLE(s[1..], 8)
    else Bad
  }

  lemma TakeOfConcat(a: Bytes, rest: Bytes)
    ensures Take(a + rest, |a|) == Got(a, rest)
  {
    assert (a + rest)[..|a|] == a && (a + rest)[|a|..] == rest;
  }

  lemma TakeLEOfLE(n: nat, k: nat, rest: Bytes)
    requires n < P256(k)
    ensures TakeLE(LE(n, k) + rest, k) == Got(n, rest)
  {
    TakeOfConcat(LE(n, k), rest);
    FromLEOfLE(n, k);
  }

  lemma LenEncRoundTrip(n: nat, rest: Bytes)
    requires n < P256(8)
    ensures TakeLenEnc(LenEnc(n) + rest) == Got(n, rest)
  {
    hide LE, TakeLE;
    Pow256Table();
    if n <= 250 {
      assert ([n] + rest)[1..] == rest;
    } else {
      var tag, k: nat := if n <= 0xffff then 0xfc else if n <= 0xff_ffff then 0xfd else 0xfe,
                         if n <= 0xffff then 2 else if n <= 0xff_ffff then 3 else 8;
      var s := LenEnc(n) + rest;
      assert s[1..] == LE(n, k) + rest;
      TakeLEOfLE(n, k, rest);
    }
  }

  // --------------------------------------------------------------- column metadata

  datatype MetaShape = NoMeta | OneByte | TwoLittle | TwoBig

  /** Which metadata encodeColumnMeta writes for a column type. */
  function ShapeOf(t: byte): MetaShape {
    if t == STRING || t == NEWDECIMAL then TwoBig
    else if t == VAR_STRING || t == VARCHAR || t == BIT then TwoLittle
    else if t in {BLOB, DOUBLE, FLOAT, 255, JSON, 17, 18, 19} then OneByte
    else NoMeta
  }

  function MetaBytes(c: Column): Bytes {
    match ShapeOf(c.t)
    case NoMeta => []
    case OneByte => [c.meta % 256]
    case TwoLittle => LE(c.meta, 2)
    case TwoBig => BE(c.meta, 2)
  }

  /** The metadata survives in the bytes its column type is given. */
  predicate MetaFits(c: Column) {
    match ShapeOf(c.t)
    case NoMeta => c.meta == 0
    case OneByte => c.meta < 256
    case _ => true
  }

  function AllMeta(cols: seq<Column>): Bytes {
    if cols == [] then [] else MetaBytes(cols[0]) + AllMeta(cols[1..])
  }

  method EncodeColumnMeta(cols: seq<Column>) returns (metadata: Bytes)
    ensures metadata == AllMeta(cols)
  {
    metadata := [];
    for i := 0 to |cols|
      invariant metadata + AllMeta(cols[i..]) == AllMeta(cols)
    {
      assert cols[i..][1..] == cols[i + 1..];
      metadata := metadata + MetaBytes(cols[i]);
    }
  }

  /** The metadata of a column by the type codes of the MySQL protocol: CHAR (254) and DECIMAL (246) have two bytes, the
      higher first; VARCHAR (15, 253) and BIT (16) two bytes, the lower first; BLOB (252), DOUBLE (5), FLOAT (4), GEOMETRY
      (255), JSON (245) and the types with fractional seconds (17 to 19) one byte; other types none. */
  function TakeMeta(s: Bytes, t: byte): Decoded<Meta> {
    if t == 254 || t == 246 then (if |s| < 2 then Bad else Got(256 * (s[0] as int) + (s[1] as int), s[2..]))
    else if t == 15 || t == 253 || t == 16 then (if |s| < 2 then Bad else Got((s[0] as int) + 256 * (s[1] as int), s[2..]))
    else if t in {252, 5, 4, 255, 245, 17, 18, 19} then (if s == [] then Bad else Got(s[0], s[1..]))
    else Got(0, s)
  }

  function TakeColumns(s: Bytes, types: Bytes): Decoded<seq<Column>> {
    if types == [] then Got([], s)
    else
      match TakeMeta(s, types[0])
      case Bad => Bad
      case Got(m, s') =>
        match TakeColumns(s', types[1..])
        case Bad => Bad
        case Got(cols, rest) => Got([Column(types[0], m)] + cols, rest)
  }

  function TypesOf(cols: seq<Column>): (ts: Bytes)
    ensures |ts| == |cols|
  {
    seq(|cols|, i requires 0 <= i < |cols| => cols[i].t)
  }

  lemma MetaRoundTrip(c: Column, rest: Bytes)
    requires MetaFits(c)
    ensures TakeMeta(MetaBytes(c) + rest, c.t) == Got(c.meta, rest)
  {
    var s := MetaBytes(c) + rest;
    var m := c.meta;
    assert m / 256 % 256 == m / 256 && m == 256 * (m / 256) + m % 256;
    match ShapeOf(c.t)
    case NoMeta => assert s == rest;
    case OneByte => assert s[1..] == rest;
    case TwoLittle =>
      assert LE(m, 2) == [m % 256] + LE(m / 256, 1) && LE(m / 256, 1) == [m / 256 % 256] + LE(m / 256 / 256, 0);
      assert s[0] == m % 256 && s[1] == m / 256 && s[2..] == rest;
    case TwoBig =>
      assert BE(m, 2) == BE(m / 256, 1) + [m % 256] && BE(m / 256, 1) == BE(m / 256 / 256, 0) + [m / 256 % 256];
      assert s[0] == m / 256 && s[1] == m % 256 && s[2..] == rest;
  }

  /** Types and metadata parse back column by column. */
  lemma {:induction false} ColumnsRoundTrip(cols: seq<Column>, rest: Bytes)
    requires forall i :: 0 <= i < |cols| ==> MetaFits(cols[i])
    ensures TakeColumns(AllMeta(cols) + rest, TypesOf(cols)) == Got(cols, rest)
  {
    hide TakeMeta, MetaBytes, MetaFits;
    if cols == [] {
      assert AllMeta(cols) + rest == rest;
    } else {
      var tail := AllMeta(cols[1..]) + rest;
      assert AllMeta(cols) + rest == MetaBytes(cols[0]) + tail;
      MetaRoundTrip(cols[0], tail);
      assert TypesOf(cols)[1..] == TypesOf(cols[1..]);
      ColumnsRoundTrip(cols[1..], rest);
      assert cols == [cols[0]] + cols[1..];
      assert Column(TypesOf(cols)[0], cols[0].meta) == cols[0];
    }
  }

  // -------------------------------------------------------------------- table maps

  /** What the encoder writes for the nullability bitmap: the given one, or all ones. */
  function NullabilityBytes(m: TableMap): Bytes {
    if m.nullBitmap == [] then seq(BitmapSize(|m.cols|), _ => 0xFF) else m.nullBitmap
  }

  /** A one-byte length, the name, and a terminating zero byte. */
  function NameBytes(name: Bytes): Bytes {
    LE(|name|, 1) + name + [0]
  }

  function TableMapBytes(m: TableMap): Bytes {
    LE(m.id, 6) + LE(m.flags, 2) + NameBytes(m.schema) + NameBytes(m.table)
    + LenEnc(|m.cols|) + TypesOf(m.cols) + LenEnc(|AllMeta(m.cols)|) + AllMeta(m.cols) + NullabilityBytes(m)
  }

  method EncodeTableMap(m: TableMap) returns (r: Bytes)
    requires m.nullBitmap == [] || |m.nullBitmap| == BitmapSize(|m.cols|)
    ensures r == TableMapBytes(m)
  {
    hide LenEnc, AllMeta, LE, TypesOf, NameBytes;
    var metadata := EncodeColumnMeta(m.cols);
    var count, metaLen := LenEnc(|m.cols|), LenEnc(|metadata|);
    var payload := new byte[6 + 2 + |NameBytes(m.schema)| + |NameBytes(m.table)|
                            + |count| + |m.cols| + |metaLen| + |metadata| + BitmapSize(|m.cols|)];
    var pos := PutIdAndFlags(payload, m.id, m.flags);
    pos := Append(payload, pos, NameBytes(m.schema));
    pos := Append(payload, pos, NameBytes(m.table));
    pos := Append(payload, pos, count);
    pos := Append(payload, pos, TypesOf(m.cols));
    pos := Append(payload, pos, metaLen);
    pos := Append(payload, pos, metadata);
    pos := Append(payload, pos, NullabilityBytes(m));
    r := payload[..];
    assert r == payload[..pos];
  }

  method PutIdAndFlags(payload: array<byte>, id: nat, flags: nat) returns (pos: nat)
    requires payload.Length >= 8
    modifies payload
    ensures pos == 8 && payload[..8] == LE(id, 6) + LE(flags, 2)
  {
    hide LE;
    pos := Append(payload, 0, LE(id, 6));
    pos := Append(payload, pos, LE(flags, 2));
  }

  function TakeName(s: Bytes): Decoded<Bytes> {
    match TakeLE(s, 1)
    case Bad => Bad
    case Got(n, s') => if |s'| < n + 1 then Bad else Got(s'[..n], s'[n + 1..])
  }

  /** The parts of a table map after its names. */
  function TakeSchema(s: Bytes): Decoded<seq<Column>> {
    match TakeLenEnc(s)
    case Bad => Bad
    case Got(n, s1) =>
      match Take(s1, n)
      case Bad => Bad
      case Got(types, s2) =>
        match TakeLenEnc(s2)
        case Bad => Bad
        case Got(k, s3) =>
          match Take(s3, k)
          case Bad => Bad
          case Got(meta, s4) =>
            match TakeColumns(meta, types)
            case Bad => Bad
            case Got(cols, _) => Got(cols, s4)
  }

  function ParseTableMap(s: Bytes): Option<TableMap> {
    match TakeLE(s, 6)
    case Bad => None
    case Got(id, s1) =>
      match TakeLE(s1, 2)
      case Bad => None
      case Got(flags, s2) =>
        match TakeName(s2)
        case Bad => None
        case Got(schema, s3) =>
          match TakeName(s3)
          case Bad => None
          case Got(table, s4) =>
            match TakeSchema(s4)
            case Bad => None
            case Got(cols, bitmap) => Some(TableMap(id, flags, schema, table, cols, bitmap))
  }

  predicate WellFormedTableMap(m: TableMap) {
    && m.id < P256(6) && m.flags < P256(2)
    && |m.schema| <= 255 && |m.table| <= 255
    && |m.cols| < P256(4)
    && (forall i :: 0 <= i < |m.cols| ==> MetaFits(m.cols[i]))
    && |m.nullBitmap| == BitmapSize(|m.cols|)
  }

  lemma NameRoundTrip(name: Bytes, rest: Bytes)
    requires |name| <= 255
    ensures TakeName(NameBytes(name) + rest) == Got(name, rest)
  {
    var s' := name + [0] + rest;
    assert NameBytes(name) + rest == LE(|name|, 1) + s';
    Pow256Table();
    TakeLEOfLE(|name|, 1, s');
    assert s'[..|name|] == name && s'[|name| + 1..] == rest;
  }

  lemma {:induction false} MetaSize(cols: seq<Column>)
    ensures |AllMeta(cols)| <= 2 * |cols|
  {
    if cols != [] {
      MetaSize(cols[1..]);
    }
  }

  lemma SchemaRoundTrip(cols: seq<Column>, rest: Bytes)
    requires |cols| < P256(4) && forall i :: 0 <= i < |cols| ==> MetaFits(cols[i])
    ensures TakeSchema(LenEnc(|cols|) + TypesOf(cols) + LenEnc(|AllMeta(cols)|) + AllMeta(cols) + rest)
         == Got(cols, rest)
  {
    hide LenEnc, TakeLenEnc, AllMeta, TakeColumns, Take, MetaFits, TypesOf;
    var types, meta := TypesOf(cols), AllMeta(cols);
    MetaSize(cols);
    Pow256Table();
    var s3 := meta + rest;
    var s2 := LenEnc(|meta|) + s3;
    var s1 := types + s2;
    assert LenEnc(|cols|) + types + LenEnc(|meta|) + meta + rest == LenEnc(|cols|) + s1;
    LenEncRoundTrip(|cols|, s1);
    TakeOfConcat(types, s2);
    LenEncRoundTrip(|meta|, s3);
    TakeOfConcat(meta, rest);
    ColumnsRoundTrip(cols, []);
    assert meta + [] == meta;
  }

  /** A table map parses back to the same ids, names, types, metadata and bitmap. */
  lemma TableMapRoundTrip(m: TableMap)
    requires WellFormedTableMap(m)
    ensures ParseTableMap(TableMapBytes(m)) == Some(m)
  {
    hide LenEnc, AllMeta, LE, TakeLE, TakeName, NameBytes, TakeSchema, TypesOf;
    var bitmap := NullabilityBytes(m);
    var s4 := LenEnc(|m.cols|) + TypesOf(m.cols) + LenEnc(|AllMeta(m.cols)|) + AllMeta(m.cols) + bitmap;
    var s3 := NameBytes(m.table) + s4;
    var s2 := NameBytes(m.schema) + s3;
    var s1 := LE(m.flags, 2) + s2;
    assert TableMapBytes(m) == LE(m.id, 6) + s1;
    TakeLEOfLE(m.id, 6, s1);
    TakeLEOfLE(m.flags, 2, s2);
    NameRoundTrip(m.schema, s3);
    NameRoundTrip(m.table, s4);
    SchemaRoundTrip(m.cols, bitmap);
    assert bitmap == m.nullBitmap;
  }

  // -------------------------------------------------------------------- rows events

  function PresentBytes(e: RowsEvent): Bytes {
    if e.bitmap1 == [] then seq(BitmapSize(|e.cols|), _ => 0xFF) else e.bitmap1
  }

  function RowsEventBytes(e: RowsEvent): Bytes
    requires RowsFor(e.rows, e.cols)
  {
    LE(e.id, 6) + LE(e.flags, 2) + LE(2, 2) + LenEnc(|e.cols|) + PresentBytes(e) + e.bitmap2 + RowsBytes(e.rows, e.cols)
  }

  method EncodeRowsEvent(e: RowsEvent) returns (r: Bytes)
    requires RowsFor(e.rows, e.cols)
    requires e.bitmap1 == [] || |e.bitmap1| == BitmapSize(|e.cols|)
    requires e.bitmap2 == [] || |e.bitmap2| == BitmapSize(|e.cols|)
    ensures r == RowsEventBytes(e)
  {
    hide LenEnc, RowsBytes, LE, RowsFor;
    var bitmapSize, count := BitmapSize(|e.cols|), LenEnc(|e.cols|);
    var rowData := EncodeRowData(e.rows, e.cols);
    var needBitmap2 := |e.bitmap2| > 0;
    var payload := new byte[6 + 2 + 2 + |count| + bitmapSize + (if needBitmap2 then bitmapSize else 0) + |rowData|];
    var pos := PutIdAndFlags(payload, e.id, e.flags);
    pos := Append(payload, pos, LE(2, 2));
    pos := Append(payload, pos, count);
    pos := Append(payload, pos, PresentBytes(e));
    if needBitmap2 {
      pos := Append(payload, pos, e.bitmap2);
    } else {
      assert payload[..pos] == payload[..pos] + e.bitmap2;
    }
    pos := Append(payload, pos, rowData);
    r := payload[..];
    assert r == payload[..pos];
  }

  datatype ParsedRows = ParsedRows(id: nat, flags: nat, bitmap1: Bytes, bitmap2: Bytes, rows: seq<Row>)

  /** Reads a rows payload against the columns of the table map announced for its table id. */
  function ParseRows(s: Bytes, update: bool, tables: map<nat, seq<Column>>): Option<ParsedRows> {
    match TakeLE(s, 6)
    case Bad => None
    case Got(id, s1) =>
      match TakeLE(s1, 2)
      case Bad => None
      case Got(flags, s2) =>
        match TakeLE(s2, 2)
        case Bad => None
        case Got(extra, s3) =>
          match TakeLenEnc(s3)
          case Bad => None
          case Got(n, s4) =>
            if extra != 2 || id !in tables || n != |tables[id]| then None
            else ParseRowsTail(id, flags, s4, update, tables[id])
  }

  /** Every one of the first `n` bits is set. */
  predicate AllSet(bitmap: Bytes, n: nat) {
    n <= 8 * |bitmap| && forall i :: 0 <= i < n ==> BitAt(bitmap, i)
  }

  /** Full images only: every column must be marked present, before and after an update. */
  function ParseRowsTail(id: nat, flags: nat, s: Bytes, update: bool, cols: seq<Column>): Option<ParsedRows> {
    match Take(s, BitmapSize(|cols|))
    case Bad => None
    case Got(bitmap1, s1) =>
      match Take(s1, if update then BitmapSize(|cols|) else 0)
      case Bad => None
      case Got(bitmap2, s2) =>
        if !AllSet(bitmap1, |cols|) || (update && !AllSet(bitmap2, |cols|)) then None
        else
          match DecodeRows(s2, cols)
          case None => None
          case Some(rows) => Some(ParsedRows(id, flags, bitmap1, bitmap2, rows))
  }

  ghost predicate WellFormedRows(e: RowsEvent, update: bool) {
    && e.id < P256(6) && e.flags < P256(2) && 0 < |e.cols| < P256(4)
    && |e.bitmap1| == BitmapSize(|e.cols|)
    && |e.bitmap2| == (if update then BitmapSize(|e.cols|) else 0)
    && AllSet(e.bitmap1, |e.cols|) && (update ==> AllSet(e.bitmap2, |e.cols|))
    && RowsFor(e.rows, e.cols)
    && (forall k :: 0 <= k < |e.rows| ==> RepresentableRow(e.rows[k], e.cols))
  }

  lemma RowsTailRoundTrip(e: RowsEvent, update: bool)
    requires WellFormedRows(e, update)
    ensures ParseRowsTail(e.id, e.flags, PresentBytes(e) + e.bitmap2 + RowsBytes(e.rows, e.cols), update, e.cols)
         == Some(ParsedRows(e.id, e.flags, e.bitmap1, e.bitmap2, SettledRows(e.rows, e.cols)))
  {
    hide RowsBytes, DecodeRows, RowsFor, Take, RepresentableRow, AllSet;
    var data := RowsBytes(e.rows, e.cols);
    assert PresentBytes(e) + e.bitmap2 + data == e.bitmap1 + (e.bitmap2 + data);
    TakeOfConcat(e.bitmap1, e.bitmap2 + data);
    TakeOfConcat(e.bitmap2, data);
    RowsRoundTrip(e.rows, e.cols);
  }

  /** A rows payload parses back to its ids, bitmaps and rows, decimals in the places of their columns, under the table
      map of the same table. */
  lemma RowsEventRoundTrip(e: RowsEvent, update: bool, tables: map<nat, seq<Column>>)
    requires WellFormedRows(e, update) && e.id in tables && tables[e.id] == e.cols
    ensures ParseRows(RowsEventBytes(e), update, tables)
         == Some(ParsedRows(e.id, e.flags, e.bitmap1, e.bitmap2, SettledRows(e.rows, e.cols)))
  {
    hide RowsBytes, ParseRowsTail, TakeLE, TakeLenEnc, LE, LenEnc, RowsFor, RepresentableRow, PresentBytes, AllSet;
    Pow256Table();
    var s4 := PresentBytes(e) + e.bitmap2 + RowsBytes(e.rows, e.cols);
    var s3 := LenEnc(|e.cols|) + s4;
    var s2 := LE(2, 2) + s3;
    var s1 := LE(e.flags, 2) + s2;
    assert RowsEventBytes(e) == LE(e.id, 6) + s1;
    TakeLEOfLE(e.id, 6, s1);
    TakeLEOfLE(e.flags, 2, s2);
    TakeLEOfLE(2, 2, s3);
    LenEncRoundTrip(|e.cols|, s4);
    RowsTailRoundTrip(e, update);
  }

  /** Bitmaps that are not given count as all ones: every column nullable, and every column present. */
  lemma DefaultBitmaps(m: TableMap, e: RowsEvent)
    ensures m.nullBitmap == [] ==> AllSet(NullabilityBytes(m), |m.cols|)
    ensures e.bitmap1 == [] ==> AllSet(PresentBytes(e), |e.cols|)
  {
    OnesAllSet(|m.cols|);
    OnesAllSet(|e.cols|);
  }

  lemma OnesAllSet(n: nat)
    ensures AllSet(seq(BitmapSize(n), _ => 0xFF), n)
  {
    hide TestBit;
    Bytes256();
    var b: Bytes := seq(BitmapSize(n), _ => 0xFF);
    forall i | 0 <= i < n ensures BitAt(b, i) {
      AllOnes(8, i % 8);
      assert b[i / 8] == 0xFF;
    }
  }

  // ---------------------------------------------------------------- query and XID events

  function QueryBytes(q: QueryEvent): Bytes {
    LE(q.proxyId, 4) + LE(q.execTime, 4) + LE(|q.schema|, 1) + LE(q.errorCode, 2) + LE(|q.statusVars|, 2)
    + q.statusVars + q.schema + [0] + q.query
  }

  method EncodeQuery(q: QueryEvent) returns (r: Bytes)
    ensures r == QueryBytes(q)
  {
    hide LE;
    var payload := new byte[4 + 4 + 1 + 2 + 2 + |q.statusVars| + |q.schema| + 1 + |q.query|];
    var pos := PutQueryHeader(payload, q);
    pos := Append(payload, pos, q.statusVars);
    pos := Append(payload, pos, q.schema);
    pos := Append(payload, pos, [0]);
    pos := Append(payload, pos, q.query);
    r := payload[..];
    assert r == payload[..pos];
  }

  method PutQueryHeader(payload: array<byte>, q: QueryEvent) returns (pos: nat)
    requires payload.Length >= 13
    modifies payload
    ensures pos == 13 && payload[..13] == LE(q.proxyId, 4) + LE(q.execTime, 4) + LE(|q.schema|, 1)
                                         + LE(q.errorCode, 2) + LE(|q.statusVars|, 2)
  {
    hide LE;
    pos := Append(payload, 0, LE(q.proxyId, 4));
    pos := Append(payload, pos, LE(q.execTime, 4));
    pos := Append(payload, pos, LE(|q.schema|, 1));
    pos := Append(payload, pos, LE(q.errorCode, 2));
    pos := Append(payload, pos, LE(|q.statusVars|, 2));
  }

  function ParseQuery(s: Bytes): Option<QueryEvent> {
    if |s| < 13 then None
    else
      var dbLen, varsLen := FromLE(s[8..9]), FromLE(s[11..13]);
      if |s| < 13 + varsLen + dbLen + 1 then None
      else
        var t := s[13..];
        Some(QueryEvent(FromLE(s[..4]), FromLE(s[4..8]), FromLE(s[9..11]),
                        t[..varsLen], t[varsLen..varsLen + dbLen], t[varsLen + dbLen + 1..]))
  }

  predicate WellFormedQuery(q: QueryEvent) {
    q.proxyId < P256(4) && q.execTime < P256(4) && q.errorCode < P256(2)
    && |q.statusVars| < P256(2) && |q.schema| <= 255
  }

  /** A query payload parses back to its ids, status variables, schema and statement text. */
  lemma QueryRoundTrip(q: QueryEvent)
    requires WellFormedQuery(q)
    ensures ParseQuery(QueryBytes(q)) == Some(q)
  {
    hide LE, FromLE;
    Pow256Table();
    FromLEOfLE(q.proxyId, 4);
    FromLEOfLE(q.execTime, 4);
    FromLEOfLE(|q.schema|, 1);
    FromLEOfLE(q.errorCode, 2);
    FromLEOfLE(|q.statusVars|, 2);
    var s := QueryBytes(q);
    var t := q.statusVars + q.schema + [0] + q.query;
    assert s == LE(q.proxyId, 4) + LE(q.execTime, 4) + LE(|q.schema|, 1) + LE(q.errorCode, 2)
                + LE(|q.statusVars|, 2) + t;
    assert s[..4] == LE(q.proxyId, 4) && s[4..8] == LE(q.execTime, 4) && s[8..9] == LE(|q.schema|, 1);
    assert s[9..11] == LE(q.errorCode, 2) && s[11..13] == LE(|q.statusVars|, 2) && s[13..] == t;
    QueryTail(q);
  }

  lemma QueryTail(q: QueryEvent)
    ensures var t := q.statusVars + q.schema + [0] + q.query;
            t[..|q.statusVars|] == q.statusVars
            && t[|q.statusVars|..|q.statusVars| + |q.schema|] == q.schema
            && t[|q.statusVars| + |q.schema| + 1..] == q.query
  {
  }

  function XidBytes(xid: nat): Bytes {
    LE(xid, 8)
  }

  method EncodeXid(xid: nat) returns (r: Bytes)
    ensures r == XidBytes(xid)
  {
    var payload := new byte[8];
    Put(payload, 0, LE(xid, 8));
    r := payload[..];
    assert payload[..8] == payload[..] && payload[..8] == LE(xid, 8);
  }

  function ParseXid(s: Bytes): Option<nat> {
    if |s| == 8 then Some(FromLE(s)) else None
  }

  /** A transaction id of 64 bits comes back. */
  lemma XidRoundTrip(xid: nat)
    requires xid < 0x1_0000_0000_0000_0000
    ensures ParseXid(XidBytes(xid)) == Some(xid)
  {
    hide LE, FromLE;
    Pow256Table();
    FromLEOfLE(xid, 8);
  }

  // --------------------------------------------------------------------- event framing

  datatype Header = Header(timestamp: nat, eventType: byte, serverId: nat, logPos: nat, flags: nat)

  /** The checksum is a parameter: any function of the bytes it covers. */
  type Checksum = Bytes -> nat

  function HeaderBytes(h: Header, size: nat): (r: Bytes)
    ensures |r| == 19
  {
    LE(h.timestamp, 4) + [h.eventType] + LE(h.serverId, 4) + LE(size, 4) + LE(h.logPos, 4) + LE(h.flags, 2)
  }

  /** EncodeEvent: header, payload and checksum, with the total size in the header. */
  function EventBytes(h: Header, payload: Bytes, crc: Checksum): (r: Bytes)
    ensures |r| == 23 + |payload|
  {
    var body := HeaderBytes(h, 23 + |payload|) + payload;
    body + LE(crc(body), 4)
  }

  method EncodeEvent(h: Header, payload: Bytes, crc: Checksum) returns (r: Bytes)
    ensures r == EventBytes(h, payload, crc)
  {
    hide LE, HeaderBytes;
    var size := 19 + |payload| + 4;
    var data := new byte[size];
    var pos := PutHeader(data, h, size);
    pos := Append(data, pos, payload);
    var checksum := crc(data[..pos]);
    pos := Append(data, pos, LE(checksum, 4));
    r := data[..];
    assert r == data[..pos];
  }

  method PutHeader(data: array<byte>, h: Header, size: nat) returns (pos: nat)
    requires data.Length >= 19
    modifies data
    ensures pos == 19 && data[..19] == HeaderBytes(h, size)
  {
    hide LE;
    pos := Append(data, 0, LE(h.timestamp, 4));
    pos := Append(data, pos, [h.eventType]);
    pos := Append(data, pos, LE(h.serverId, 4));
    pos := Append(data, pos, LE(size, 4));
    pos := Append(data, pos, LE(h.logPos, 4));
    pos := Append(data, pos, LE(h.flags, 2));
  }

  datatype ParsedEvent = ParsedEvent(header: Header, payload: Bytes, checksum: Bytes)

  /** Reads one event off a stream by its size field. */
  function TakeEvent(s: Bytes): Decoded<ParsedEvent> {
    if |s| < 23 then Bad
    else
      var size := FromLE(s[9..13]);
      if size < 23 || |s| < size then Bad
      else
        Got(ParsedEvent(Header(FromLE(s[..4]), s[4], FromLE(s[5..9]), FromLE(s[13..17]), FromLE(s[17..19])),
                        s[19..size - 4], s[size - 4..size]),
            s[size..])
  }

  predicate WellFormedHeader(h: Header) {
    h.timestamp < P256(4) && h.serverId < P256(4) && h.logPos < P256(4) && h.flags < P256(2)
  }

  lemma HeaderFields(h: Header, size: nat)
    requires WellFormedHeader(h) && size < P256(4)
    ensures var b := HeaderBytes(h, size);
            && FromLE(b[..4]) == h.timestamp && b[4] == h.eventType && FromLE(b[5..9]) == h.serverId
            && FromLE(b[9..13]) == size && FromLE(b[13..17]) == h.logPos && FromLE(b[17..19]) == h.flags
  {
    hide LE, FromLE;
    FromLEOfLE(h.timestamp, 4);
    FromLEOfLE(h.serverId, 4);
    FromLEOfLE(size, 4);
    FromLEOfLE(h.logPos, 4);
    FromLEOfLE(h.flags, 2);
    var b := HeaderBytes(h, size);
    assert b[..4] == LE(h.timestamp, 4) && b[5..9] == LE(h.serverId, 4) && b[9..13] == LE(size, 4);
    assert b[13..17] == LE(h.logPos, 4) && b[17..19] == LE(h.flags, 2);
  }

  /** Event framing: an event is read back whole off the front of any stream. */
  lemma EventRoundTrip(h: Header, payload: Bytes, crc: Checksum, rest: Bytes)
    requires WellFormedHeader(h) && 23 + |payload| < P256(4)
    ensures TakeEvent(EventBytes(h, payload, crc) + rest)
         == Got(ParsedEvent(h, payload, LE(crc(HeaderBytes(h, 23 + |payload|) + payload), 4)), rest)
  {
    hide HeaderBytes, LE, FromLE;
    var size := 23 + |payload|;
    var head := HeaderBytes(h, size);
    var sum := LE(crc(head + payload), 4);
    var s := EventBytes(h, payload, crc) + rest;
    HeaderFields(h, size);
    assert s == head + (payload + (sum + rest));
    assert s[..4] == head[..4] && s[4] == head[4] && s[5..9] == head[5..9] && s[9..13] == head[9..13];
    assert s[13..17] == head[13..17] && s[17..19] == head[17..19];
    assert s[19..size - 4] == payload && s[size - 4..size] == sum && s[size..] == rest;
  }

  function TakeEvents(s: Bytes): Option<seq<ParsedEvent>>
    decreases |s|
  {
    if s == [] then Some([])
    else
      match TakeEvent(s)
      case Bad => None
      case Got(e, rest) =>
        if |rest| >= |s| then None
        else
          match TakeEvents(rest)
          case None => None
          case Some(es) => Some([e] + es)
  }

  datatype Framed = Framed(header: Header, payload: Bytes)

  function StreamBytes(es: seq<Framed>, crc: Checksum): Bytes {
    if es == [] then [] else EventBytes(es[0].header, es[0].payload, crc) + StreamBytes(es[1..], crc)
  }

  function ParsedOf(e: Framed, crc: Checksum): ParsedEvent {
    ParsedEvent(e.header, e.payload, LE(crc(HeaderBytes(e.header, 23 + |e.payload|) + e.payload), 4))
  }

  predicate WellFramed(e: Framed) {
    WellFormedHeader(e.header) && 23 + |e.payload| < P256(4)
  }

  function AllParsed(es: seq<Framed>, crc: Checksum): seq<ParsedEvent> {
    seq(|es|, i requires 0 <= i < |es| => ParsedOf(es[i], crc))
  }

  /** A concatenation of encoded events splits into exactly the originals. */
  lemma {:induction false} StreamRoundTrip(es: seq<Framed>, crc: Checksum)
    requires forall i :: 0 <= i < |es| ==> WellFramed(es[i])
    ensures TakeEvents(StreamBytes(es, crc)) == Some(AllParsed(es, crc))
  {
    hide EventBytes, TakeEvent;
    if es != [] {
      var rest := StreamBytes(es[1..], crc);
      assert WellFramed(es[0]);
      EventRoundTrip(es[0].header, es[0].payload, crc, rest);
      StreamRoundTrip(es[1..], crc);
      assert AllParsed(es, crc) == [ParsedOf(es[0], crc)] + AllParsed(es[1..], crc);
    }
  }
}
