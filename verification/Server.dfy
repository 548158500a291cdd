/**
  From change events to binlog events (pkg/replication/server.go): convertToMySQLEvents and the event
  constructors, the server state they update, and what holds of every stream they emit.
 */
module Server {
  import opened Wrappers
  import opened Bytes
  import opened Decimal
  import opened Values
  import opened Rows
  import opened Events

  datatype ChangeKind = Insert | Update | Delete | Begin | Commit | Ddl | Truncate

  datatype ChangeColumn = ChangeColumn(name: Bytes, t: byte, nullable: bool)

  /** A change event; None is Go's nil slice. */
  datatype ChangeEvent = ChangeEvent(kind: ChangeKind, schema: Bytes, table: Bytes, tableId: nat,
                                     columns: seq<ChangeColumn>, oldValues: Option<Row>, newValues: Option<Row>)

  datatype BinlogEvent =
    | GtidEvent(header: Header, gno: nat, lastCommitted: int, sequenceNumber: nat)
    | QueryEvt(header: Header, query: QueryEvent)
    | XidEvent(header: Header, xid: nat)
    | TableMapEvt(header: Header, tableMap: TableMap)
    | RowsEvt(header: Header, update: bool, rows: RowsEvent)

  /** Readings of the wall clock taken while one change is converted. */
  datatype Clock = Clock(first: nat, second: nat, nanos: nat)

  datatype State = State(serverId: nat, gtidEnabled: bool, tx: nat, pos: nat)

  // --------------------------------------------------------------- event constructors

  /** getColumnMeta */
  function ColumnMeta(t: byte): Meta {
    if t == VARCHAR || t == VAR_STRING then 65535
    else if t == STRING then 255
    else if t == BLOB then 2
    else if t == JSON then 4
    else if t == NEWDECIMAL then 10 * 256 + 2
    else if t == FLOAT then 4
    else if t == DOUBLE then 8
    else 0
  }

  /** By type code: VARCHAR (15, 253) is declared with 65535 bytes and CHAR (254) with 255; TEXT (252) has a length of two
      bytes and JSON (245) of four; DECIMAL (246) has ten digits, two of them behind the point; FLOAT (4) and DOUBLE (5) say
      their own width; other types have no metadata. */
  lemma ColumnMetas(t: byte)
    ensures ColumnMeta(t) != 0 <==> t in {15, 253, 254, 252, 245, 246, 4, 5}
    ensures ColumnMeta(15) == 65535 && ColumnMeta(253) == 65535 && ColumnMeta(254) == 255
    ensures PrefixWidth(252, ColumnMeta(252)) == 2 && PrefixWidth(245, ColumnMeta(245)) == 4
    ensures ColumnMeta(252) == 2 && IntDigits(ColumnMeta(246)) == 8 && Scale(ColumnMeta(246)) == 2
    ensures ColumnMeta(4) == FixedWidth(4, 0) && ColumnMeta(5) == FixedWidth(5, 0)
  {
  }

  function ColumnsOf(columns: seq<ChangeColumn>): (cols: seq<Column>)
    ensures |cols| == |columns|
  {
    seq(|columns|, i requires 0 <= i < |columns| => Column(columns[i].t, ColumnMeta(columns[i].t)))
  }

  /** The metadata the server chooses always fits the bytes a table map gives it. */
  lemma ColumnMetaFits(columns: seq<ChangeColumn>)
    ensures forall i :: 0 <= i < |columns| ==> MetaFits(ColumnsOf(columns)[i])
  {
  }

  function NullableFlags(columns: seq<ChangeColumn>): (f: seq<bool>)
    ensures |f| == |columns|
  {
    seq(|columns|, i requires 0 <= i < |columns| => columns[i].nullable)
  }

  function HeaderFor(st: State, time: nat, t: byte): Header {
    Header(time % 0x1_0000_0000, t, st.serverId, st.pos, 0)
  }

  function TableMapFor(e: ChangeEvent): TableMap {
    TableMap(e.tableId, 0, e.schema, e.table, ColumnsOf(e.columns),
             Bitmap(NullableFlags(e.columns), BitmapSize(|e.columns|)))
  }

  /** createTableMapEvent: the slices are filled in one pass over the columns. */
  method CreateTableMap(e: ChangeEvent) returns (m: TableMap)
    ensures m == TableMapFor(e)
  {
    hide Bitmap, SetBit, BitmapSize;
    var n := |e.columns|;
    var size := BitmapSize(n);
    var cols := new Column[n](_ => Column(0, 0));
    var nullBitmap := new byte[size](_ => 0);
    ghost var flags := NullableFlags(e.columns);
    BitmapEmpty(size);
    assert nullBitmap[..] == seq(size, _ => 0) && flags[..0] == [];
    for i := 0 to n
      invariant forall j :: 0 <= j < i ==> cols[j] == Column(e.columns[j].t, ColumnMeta(e.columns[j].t))
      invariant nullBitmap[..] == Bitmap(flags[..i], size)
    {
      cols[i] := Column(e.columns[i].t, ColumnMeta(e.columns[i].t));
      ghost var f := e.columns[i].nullable;
      assert flags[..i + 1] == flags[..i] + [f];
      BitmapAppend(flags[..i], f, size);
      if e.columns[i].nullable {
        assert nullBitmap[..][i / 8] == nullBitmap[i / 8];
        nullBitmap[i / 8] := SetBit(nullBitmap[i / 8], i % 8);
      }
    }
    assert flags[..n] == flags;
    m := TableMap(e.tableId, 0, e.schema, e.table, cols[..], nullBitmap[..]);
    assert m.cols == ColumnsOf(e.columns);
  }

  /** Bit i of the nullability bitmap is set exactly when column i is nullable. */
  lemma NullabilityExact(e: ChangeEvent, i: nat)
    requires i < |e.columns|
    ensures BitAt(TableMapFor(e).nullBitmap, i) <==> e.columns[i].nullable
  {
    hide TestBit, Packed;
    var j, k := i / 8, i % 8;
    assert 8 * j + k == i;
    PackedBit(NullableFlags(e.columns), 8 * j, 8, k);
  }

  function OrNil(r: Option<Row>): Row {
    match r case None => [] case Some(row) => row
  }

  /** The row images of a change: the new values stand in for old values that are missing. */
  function RowImages(e: ChangeEvent): seq<Row> {
    var before := OrNil(if e.oldValues.None? then e.newValues else e.oldValues);
    if e.kind == Update then [before, OrNil(e.newValues)]
    else if e.kind == Insert then [OrNil(e.newValues)]
    else [before]
  }

  function AllPresent(columns: nat): (r: Bytes)
    ensures |r| == BitmapSize(columns)
  {
    seq(BitmapSize(columns), _ => 0xFF)
  }

  /** Every column is marked present. */
  lemma PresentEverywhere(columns: nat)
    ensures AllSet(AllPresent(columns), columns)
  {
    OnesAllSet(columns);
    assert AllPresent(columns) == seq(BitmapSize(columns), _ => 0xFF);
  }

  /** createRowsEvent; the flag is STMT_END. */
  function RowsEventFor(e: ChangeEvent): RowsEvent {
    var present := AllPresent(|e.columns|);
    RowsEvent(e.tableId, 1, ColumnsOf(e.columns), present, if e.kind == Update then present else [], RowImages(e))
  }

  method CreateRowsEvent(e: ChangeEvent) returns (r: RowsEvent)
    ensures r == RowsEventFor(e)
  {
    var n := |e.columns|;
    var columnBitmap := new byte[BitmapSize(n)];
    for i := 0 to columnBitmap.Length
      invariant forall j :: 0 <= j < i ==> columnBitmap[j] == 0xFF
    {
      columnBitmap[i] := 0xFF;
    }
    var present := columnBitmap[..];
    assert present == AllPresent(n);
    var cols := new Column[n](_ => Column(0, 0));
    for i := 0 to n
      invariant forall j :: 0 <= j < i ==> cols[j] == Column(e.columns[j].t, ColumnMeta(e.columns[j].t))
    {
      cols[i] := Column(e.columns[i].t, ColumnMeta(e.columns[i].t));
    }
    assert cols[..] == ColumnsOf(e.columns);
    r := RowsEvent(e.tableId, 1, cols[..], present, if e.kind == Update then present else [], RowImages(e));
  }

  function RowsEventType(kind: ChangeKind): byte {
    if kind == Insert then WRITE_ROWS_EVENT else if kind == Update then UPDATE_ROWS_EVENT else DELETE_ROWS_EVENT
  }

  function QueryFor(text: Bytes): QueryEvent {
    QueryEvent(0, 0, 0, [], [], text)
  }

  const BEGIN_TEXT: Bytes := [66, 69, 71, 73, 78]
  const DDL_TEXT: Bytes := [45, 45, 32, 68, 68, 76, 32, 101, 118, 101, 110, 116]
  const TRUNCATE_TEXT: Bytes := [84, 82, 85, 78, 67, 65, 84, 69, 32, 84, 65, 66, 76, 69, 32]
  const BACKQUOTE: byte := 96
  const PERIOD: byte := 46

  function TruncateText(schema: Bytes, table: Bytes): Bytes {
    TRUNCATE_TEXT + [BACKQUOTE] + schema + [BACKQUOTE, PERIOD, BACKQUOTE] + table + [BACKQUOTE]
  }

  // ---------------------------------------------------------------------- conversion

  /** A statement with its own transaction id: the GTID event, when enabled, and then the query. */
  function Statement(st: State, text: Bytes, c: Clock): seq<BinlogEvent> {
    (if st.gtidEnabled then [GtidEvent(HeaderFor(st, c.first, GTID_EVENT), st.tx, st.tx - 1, st.tx)] else [])
    + [QueryEvt(HeaderFor(st, c.second, QUERY_EVENT), QueryFor(text))]
  }

  predicate IsRowChange(kind: ChangeKind) {
    kind == Insert || kind == Update || kind == Delete
  }

  predicate StartsTransaction(kind: ChangeKind) {
    kind == Begin || kind == Ddl || kind == Truncate
  }

  function Bump(st: State, e: ChangeEvent): State {
    if StartsTransaction(e.kind) then st.(tx := st.tx + 1) else st
  }

  /** convertToMySQLEvents, as a function of the state before the change. */
  function Convert(st: State, e: ChangeEvent, c: Clock): (events: seq<BinlogEvent>)
    ensures 1 <= |events| <= 2
  {
    var st1 := Bump(st, e);
    match e.kind
    case Begin => Statement(st1, BEGIN_TEXT, c)
    case Ddl => Statement(st1, DDL_TEXT, c)
    case Truncate => Statement(st1, TruncateText(e.schema, e.table), c)
    case Commit => [XidEvent(HeaderFor(st1, c.first, XID_EVENT), c.nanos % 0x1_0000_0000_0000_0000)]
    case _ => [TableMapEvt(HeaderFor(st1, c.first, TABLE_MAP_EVENT), TableMapFor(e)),
               RowsEvt(HeaderFor(st1, c.second, RowsEventType(e.kind)), e.kind == Update, RowsEventFor(e))]
  }

  /** The state after processChangeEvent: the transaction id of the conversion and the advanced position. */
  function After(st: State, e: ChangeEvent, c: Clock): State {
    Bump(st, e).(pos := (st.pos + |Convert(st, e, c)| * 100) % 0x1_0000_0000)
  }

  /** The server object; broadcasting is modelled separately as a state machine. */
  class BinlogServer {
    const serverId: nat
    const gtidEnabled: bool
    var transactionId: nat
    var position: nat

    function View(): State
      reads this
    {
      State(serverId, gtidEnabled, transactionId, position)
    }

    constructor (serverId: nat, startPosition: nat)
      ensures View() == State(serverId, true, 0, startPosition)
    {
      this.serverId := serverId;
      gtidEnabled := true;
      transactionId := 0;
      position := startPosition;
    }

    method ConvertToMySQLEvents(e: ChangeEvent, c: Clock) returns (events: seq<BinlogEvent>)
      modifies this`transactionId
      ensures events == Convert(old(View()), e, c) && View() == Bump(old(View()), e)
    {
      events := [];
      match e.kind {
        case Begin =>
          events := CreateStatement(BEGIN_TEXT, c);
        case Ddl =>
          events := CreateStatement(DDL_TEXT, c);
        case Truncate =>
          events := CreateStatement(TruncateText(e.schema, e.table), c);
        case Commit =>
          events := [XidEvent(HeaderFor(View(), c.first, XID_EVENT), c.nanos % 0x1_0000_0000_0000_0000)];
        case _ =>
          var m := CreateTableMap(e);
          events := [TableMapEvt(HeaderFor(View(), c.first, TABLE_MAP_EVENT), m)];
          var r := CreateRowsEvent(e);
          events := events + [RowsEvt(HeaderFor(View(), c.second, RowsEventType(e.kind)), e.kind == Update, r)];
      }
    }

    method CreateStatement(text: Bytes, c: Clock) returns (events: seq<BinlogEvent>)
      modifies this`transactionId
      ensures View() == old(View()).(tx := old(View()).tx + 1) && events == Statement(View(), text, c)
    {
      transactionId := transactionId + 1;
      events := [];
      if gtidEnabled {
        events := [GtidEvent(HeaderFor(View(), c.first, GTID_EVENT), transactionId, transactionId - 1, transactionId)];
      }
      events := events + [QueryEvt(HeaderFor(View(), c.second, QUERY_EVENT), QueryFor(text))];
    }

    /** processChangeEvent without the sends. */
    method ProcessChangeEvent(e: ChangeEvent, c: Clock) returns (events: seq<BinlogEvent>)
      modifies this`transactionId, this`position
      ensures events == Convert(old(View()), e, c) && View() == After(old(View()), e, c)
    {
      events := ConvertToMySQLEvents(e, c);
      position := (position + |events| * 100 % 0x1_0000_0000) % 0x1_0000_0000;
      WrapAdd(old(position), |events| * 100);
    }
  }

  lemma WrapAdd(a: nat, b: nat)
    ensures (a + b % 0x1_0000_0000) % 0x1_0000_0000 == (a + b) % 0x1_0000_0000
  {
  }

  // ------------------------------------------------------------------- whole streams

  datatype Input = Input(change: ChangeEvent, clock: Clock)

  function FinalState(st: State, ins: seq<Input>): State
    decreases |ins|
  {
    if ins == [] then st else FinalState(After(st, ins[0].change, ins[0].clock), ins[1..])
  }

  function Emitted(st: State, ins: seq<Input>): seq<BinlogEvent>
    decreases |ins|
  {
    if ins == [] then []
    else Convert(st, ins[0].change, ins[0].clock) + Emitted(After(st, ins[0].change, ins[0].clock), ins[1..])
  }

  /** The GTID events of a stream, in order. */
  function Gtids(es: seq<BinlogEvent>): seq<BinlogEvent> {
    if es == [] then [] else (if es[0].GtidEvent? then [es[0]] else []) + Gtids(es[1..])
  }

  lemma {:induction false} GtidsConcat(a: seq<BinlogEvent>, b: seq<BinlogEvent>)
    ensures Gtids(a + b) == Gtids(a) + Gtids(b)
  {
    if a == [] {
      assert a + b == b;
    } else {
      assert (a + b)[1..] == a[1..] + b;
      GtidsConcat(a[1..], b);
    }
  }

  predicate Numbered(g: BinlogEvent, n: nat) {
    g.GtidEvent? && g.gno == n && g.lastCommitted == n - 1 && g.sequenceNumber == n
  }

  lemma ConvertGtids(st: State, e: ChangeEvent, c: Clock)
    requires st.gtidEnabled
    ensures var g := Gtids(Convert(st, e, c));
            if StartsTransaction(e.kind) then |g| == 1 && Numbered(g[0], st.tx + 1) else g == []
    ensures After(st, e, c).gtidEnabled && After(st, e, c).tx == st.tx + |Gtids(Convert(st, e, c))|
  {
    var es := Convert(st, e, c);
    assert es == [es[0]] + es[1..];
    if |es| == 2 {
      assert es[1..] == [es[1]] && es[1..][1..] == [];
      assert Gtids([es[1]]) == [];
    } else {
      assert es[1..] == [];
    }
  }

  lemma NoGtids(es: seq<BinlogEvent>)
    requires es == []
    ensures Gtids(es) == []
  {
  }

  /** GTIDs number the transactions: over every run they are tx+1, tx+2, ... without a gap, each pointing
      at its predecessor, and the counter ends at the last one. */
  lemma {:induction false} GtidsConsecutive(st: State, ins: seq<Input>)
    requires st.gtidEnabled
    ensures var g := Gtids(Emitted(st, ins));
            && FinalState(st, ins).tx == st.tx + |g|
            && forall k :: 0 <= k < |g| ==> Numbered(g[k], st.tx + k + 1)
    decreases |ins|
  {
    hide Convert, After, Gtids;
    if ins == [] {
      assert Gtids(Emitted(st, ins)) == [] by { NoGtids(Emitted(st, ins)); }
    } else {
      var head := Convert(st, ins[0].change, ins[0].clock);
      var st1 := After(st, ins[0].change, ins[0].clock);
      ConvertGtids(st, ins[0].change, ins[0].clock);
      GtidsConsecutive(st1, ins[1..]);
      GtidsConcat(head, Emitted(st1, ins[1..]));
    }
  }

  /** A rows event directly after the table map of its own table. */
  predicate Announced(m: BinlogEvent, r: BinlogEvent) {
    m.TableMapEvt? && r.RowsEvt? && m.tableMap.id == r.rows.id && m.tableMap.cols == r.rows.cols
    && m.header.logPos == r.header.logPos
  }

  /** Every rows event is immediately preceded by a table map with the same table id, column count, types and
      metadata. */
  lemma {:induction false} RowsFollowTheirTableMap(st: State, ins: seq<Input>, i: nat)
    requires i < |Emitted(st, ins)| && Emitted(st, ins)[i].RowsEvt?
    ensures i > 0 && Announced(Emitted(st, ins)[i - 1], Emitted(st, ins)[i])
    decreases |ins|
  {
    var head := Convert(st, ins[0].change, ins[0].clock);
    var st1 := After(st, ins[0].change, ins[0].clock);
    if i >= |head| {
      RowsFollowTheirTableMap(st1, ins[1..], i - |head|);
    }
  }

  /** The position advances by 100 per event emitted, modulo 2^32. */
  lemma {:induction false} PositionCountsEvents(st: State, ins: seq<Input>)
    requires st.pos < 0x1_0000_0000
    ensures FinalState(st, ins).pos == (st.pos + 100 * |Emitted(st, ins)|) % 0x1_0000_0000
    decreases |ins|
  {
    if ins != [] {
      var st1 := After(st, ins[0].change, ins[0].clock);
      PositionCountsEvents(st1, ins[1..]);
      var n, m := |Convert(st, ins[0].change, ins[0].clock)| * 100, 100 * |Emitted(st1, ins[1..])|;
      WrapAdd(m, st.pos + n);
    }
  }

  lemma {:induction false} EmittedConcat(st: State, a: seq<Input>, b: seq<Input>)
    ensures Emitted(st, a + b) == Emitted(st, a) + Emitted(FinalState(st, a), b)
    ensures FinalState(st, a + b) == FinalState(FinalState(st, a), b)
    decreases |a|
  {
    hide Convert, After;
    if a == [] {
      assert a + b == b;
    } else {
      assert (a + b)[1..] == a[1..] + b && (a + b)[0] == a[0];
      EmittedConcat(After(st, a[0].change, a[0].clock), a[1..], b);
    }
  }

  /** The log position stamped in every header of a change counts the events emitted before that change. */
  lemma LogPosCountsEventsBefore(st: State, ins: seq<Input>, next: Input, k: nat)
    requires st.pos < 0x1_0000_0000
    requires k < |Convert(FinalState(st, ins), next.change, next.clock)|
    ensures Convert(FinalState(st, ins), next.change, next.clock)[k].header.logPos
         == (st.pos + 100 * |Emitted(st, ins)|) % 0x1_0000_0000
  {
    PositionCountsEvents(st, ins);
  }

  // ----------------------------------------------------------------- events as bytes

  function PayloadOf(e: BinlogEvent): Bytes
    requires e.RowsEvt? ==> RowsFor(e.rows.rows, e.rows.cols)
  {
    match e
    case GtidEvent(_, _, _, _) => [0, 0, 0, 0]
    case QueryEvt(_, q) => QueryBytes(q)
    case XidEvent(_, x) => XidBytes(x)
    case TableMapEvt(_, m) => TableMapBytes(m)
    case RowsEvt(_, _, r) => RowsEventBytes(r)
  }

  /** Bitmaps of the size their column count calls for, and rows that match their columns. */
  predicate Shaped(e: BinlogEvent) {
    match e
    case TableMapEvt(_, m) => |m.nullBitmap| == BitmapSize(|m.cols|)
    case RowsEvt(_, _, r) =>
      && RowsFor(r.rows, r.cols) && |r.bitmap1| == BitmapSize(|r.cols|)
      && (r.bitmap2 == [] || |r.bitmap2| == BitmapSize(|r.cols|))
    case _ => true
  }

  /** Every event the conversion makes has such bitmaps. */
  lemma ConvertShaped(st: State, e: ChangeEvent, c: Clock, i: nat)
    requires i < |Convert(st, e, c)|
    requires IsRowChange(e.kind) ==> RowsFor(RowImages(e), ColumnsOf(e.columns))
    ensures Shaped(Convert(st, e, c)[i])
  {
    hide RowsFor, Bitmap, ColumnsOf;
  }

  /** EncodeEvent without the shortcut for raw data: the payload by event type, then the frame. */
  method EncodeBinlogEvent(e: BinlogEvent, crc: Checksum) returns (r: Bytes)
    requires Shaped(e)
    ensures r == EventBytes(e.header, PayloadOf(e), crc)
  {
    hide EventBytes, QueryBytes, TableMapBytes, RowsEventBytes, XidBytes;
    var payload: Bytes;
    match e {
      case QueryEvt(_, q) => payload := EncodeQuery(q);
      case XidEvent(_, x) => payload := EncodeXid(x);
      case TableMapEvt(_, m) => payload := EncodeTableMap(m);
      case RowsEvt(_, _, rows) => payload := EncodeRowsEvent(rows);
      case GtidEvent(_, _, _, _) => payload := [0, 0, 0, 0];
    }
    r := EncodeEvent(e.header, payload, crc);
  }

  // ------------------------------------------------------- what a reader of the bytes finds

  /** The event types of the MySQL protocol that a change calls for: GTID (33), query (2), XID (16), table map (19), and rows
      written (30), updated (31) or deleted (32). */
  function EventCodes(kind: ChangeKind, gtid: bool): seq<byte> {
    match kind
    case Commit => [16]
    case Insert => [19, 30]
    case Update => [19, 31]
    case Delete => [19, 32]
    case _ => if gtid then [33, 2] else [2]
  }

  predicate InWidth(st: State) {
    st.serverId < 0x1_0000_0000 && st.pos < 0x1_0000_0000
  }

  /** Every event of a change is read back with the code of its kind, the id of this server, the position before the change
      and a reading of the clock. */
  lemma HeadersReadBack(st: State, e: ChangeEvent, c: Clock, i: nat, crc: Checksum, rest: Bytes)
    requires InWidth(st) && i < |Convert(st, e, c)|
    requires var ev := Convert(st, e, c)[i]; Shaped(ev) && 23 + |PayloadOf(ev)| < 0x1_0000_0000
    ensures |Convert(st, e, c)| == |EventCodes(e.kind, st.gtidEnabled)|
    ensures var ev := Convert(st, e, c)[i];
            var got := TakeEvent(EventBytes(ev.header, PayloadOf(ev), crc) + rest);
            && got.Got? && got.rest == rest && got.value.payload == PayloadOf(ev)
            && got.value.header.eventType == EventCodes(e.kind, st.gtidEnabled)[i]
            && got.value.header.serverId == st.serverId && got.value.header.logPos == st.pos
            && got.value.header.timestamp in {c.first % 0x1_0000_0000, c.second % 0x1_0000_0000}
  {
    hide TakeEvent, EventBytes, PayloadOf, RowsEventFor, TableMapFor, RowsFor;
    Pow256Table();
    var ev := Convert(st, e, c)[i];
    EventRoundTrip(ev.header, PayloadOf(ev), crc, rest);
  }

  /** The statement text of a change that is not about rows. */
  function StatementText(e: ChangeEvent): Bytes {
    if e.kind == Begin then Ascii("BEGIN")
    else if e.kind == Ddl then Ascii("-- DDL event")
    else Ascii("TRUNCATE TABLE `") + e.schema + Ascii("`.`") + e.table + Ascii("`")
  }

  /** The last event of a begin, a DDL statement or a truncation is read back as a query of that text, the truncation naming
      schema and then table; the event of a commit as an XID. */
  lemma StatementsReadBack(st: State, e: ChangeEvent, c: Clock)
    requires !IsRowChange(e.kind)
    ensures var es := Convert(st, e, c);
            var last := es[|es| - 1];
            && (e.kind == Commit ==> ParseXid(PayloadOf(last)) == Some(c.nanos % 0x1_0000_0000_0000_0000))
            && (e.kind != Commit ==> ParseQuery(PayloadOf(last)) == Some(QueryEvent(0, 0, 0, [], [], StatementText(e))))
  {
    hide QueryBytes, ParseQuery, XidBytes, ParseXid, HeaderFor;
    Pow256Table();
    if e.kind == Commit {
      XidRoundTrip(c.nanos % 0x1_0000_0000_0000_0000);
    } else {
      StatementTexts(e);
      QueryRoundTrip(QueryFor(StatementText(e)));
    }
  }

  lemma StatementTexts(e: ChangeEvent)
    ensures Ascii("BEGIN") == BEGIN_TEXT && Ascii("-- DDL event") == DDL_TEXT
    ensures Ascii("TRUNCATE TABLE `") + e.schema + Ascii("`.`") + e.table + Ascii("`") == TruncateText(e.schema, e.table)
  {
    assert Ascii("TRUNCATE TABLE `") == TRUNCATE_TEXT + [BACKQUOTE];
    assert Ascii("`.`") == [BACKQUOTE, PERIOD, BACKQUOTE] && Ascii("`") == [BACKQUOTE];
  }

  /** An old row that is missing is replaced by the new one, before an update and in a deletion. */
  lemma MissingOldRow(e: ChangeEvent)
    requires e.oldValues == None && e.newValues.Some?
    ensures e.kind == Update ==> RowsEventFor(e).rows == [e.newValues.value, e.newValues.value]
    ensures e.kind == Delete ==> RowsEventFor(e).rows == [e.newValues.value]
  {
  }
}
