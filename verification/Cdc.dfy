/**
  The change-data-capture pipeline end to end: source tables, the logical-replication messages for their
  changes, the streamer's handlers (pkg/replication/pg_streamer.go), the server's conversion and encoding, and
  a replica that decodes the bytes and applies them.
 */
module Cdc {
  import opened Wrappers
  import opened Bytes
  import opened Decimal
  import opened Values
  import opened Rows
  import opened Events
  import opened Streamer
  import opened Server
  import opened SourceValues

  // ------------------------------------------------------------------ streamer handlers

  datatype RelationColumn = RelationColumn(name: Bytes, oid: nat)
  datatype Relation = Relation(schema: Bytes, name: Bytes, columns: seq<RelationColumn>)

  /** The table cache filled by relation messages. */
  type Catalog = map<nat, Relation>

  datatype Message =
    | InsertMsg(rel: nat, tuple: seq<TupleColumn>)
    | UpdateMsg(rel: nat, oldTuple: Option<seq<TupleColumn>>, newTuple: seq<TupleColumn>)
    | DeleteMsg(rel: nat, oldTuple: Option<seq<TupleColumn>>)
    | BeginMsg
    | CommitMsg

  function Oids(r: Relation): (s: seq<nat>)
    ensures |s| == |r.columns|
  {
    seq(|r.columns|, i requires 0 <= i < |r.columns| => r.columns[i].oid)
  }

  /** convertColumns; relation messages leave Nullable at its zero value. */
  function ChangeColumns(r: Relation): (cs: seq<ChangeColumn>)
    ensures |cs| == |r.columns|
  {
    seq(|r.columns|, i requires 0 <= i < |r.columns| =>
      ChangeColumn(r.columns[i].name, MySQLType(r.columns[i].oid), false))
  }

  /** handleInsertMessage, handleUpdateMessage, handleDeleteMessage, ...: the event sent, if the table is known. */
  function Handle(cat: Catalog, m: Message, fp: FloatParser): Option<ChangeEvent> {
    match m
    case BeginMsg => Some(ChangeEvent(Begin, [], [], 0, [], None, None))
    case CommitMsg => Some(ChangeEvent(Commit, [], [], 0, [], None, None))
    case InsertMsg(rel, tuple) =>
      if rel !in cat then None
      else Some(RowEvent(Insert, cat[rel], rel, None, Some(DecodeTupleSpec(tuple, Oids(cat[rel]), None, fp))))
    case UpdateMsg(rel, oldTuple, newTuple) =>
      if rel !in cat then None
      else
        var before := DecodeOld(oldTuple, cat[rel], fp);
        Some(RowEvent(Update, cat[rel], rel, before, Some(DecodeTupleSpec(newTuple, Oids(cat[rel]), before, fp))))
    case DeleteMsg(rel, oldTuple) =>
      if rel !in cat then None
      else Some(RowEvent(Delete, cat[rel], rel, DecodeOld(oldTuple, cat[rel], fp), None))
  }

  function DecodeOld(t: Option<seq<TupleColumn>>, r: Relation, fp: FloatParser): Option<Row> {
    match t
    case None => None
    case Some(tuple) => Some(DecodeTupleSpec(tuple, Oids(r), None, fp))
  }

  function RowEvent(kind: ChangeKind, r: Relation, rel: nat, before: Option<Row>, now: Option<Row>): ChangeEvent {
    ChangeEvent(kind, r.schema, r.name, rel, ChangeColumns(r), before, now)
  }

  /** A change of a relation that was not announced sends nothing; begins and commits always send something. */
  lemma SendsIffKnown(cat: Catalog, m: Message, fp: FloatParser)
    ensures Handle(cat, m, fp).Some? <==> (m.InsertMsg? || m.UpdateMsg? || m.DeleteMsg? ==> m.rel in cat)
  {
  }

  // ----------------------------------------------------------------------- the source

  /** The rows of every table, in heap order. */
  type Database = map<nat, seq<PgRow>>

  datatype Change =
    | Ins(rel: nat, row: PgRow)
    | Upd(rel: nat, k: nat, row: PgRow, toasted: set<nat>)
    | Del(rel: nat, k: nat)
    | TxBegin
    | TxCommit

  function Heap(db: Database, rel: nat): seq<PgRow> {
    if rel in db then db[rel] else []
  }

  /** What a change does to the source tables. */
  function Apply(db: Database, c: Change): Database
    requires InHeap(db, c)
  {
    match c
    case Ins(rel, row) => db[rel := Heap(db, rel) + [row]]
    case Upd(rel, k, row, _) => db[rel := Heap(db, rel)[k := row]]
    case Del(rel, k) => db[rel := Heap(db, rel)[..k] + Heap(db, rel)[k + 1..]]
    case _ => db
  }

  /** The source: its tables as they are now, as they were last committed, and whether a transaction is open. */
  datatype Source = Source(db: Database, committed: Database, inTx: bool)

  /** A change inside a transaction shows only when the transaction commits. */
  function Next(src: Source, c: Change): Source
    requires InHeap(src.db, c)
  {
    var db := Apply(src.db, c);
    match c
    case TxBegin => src.(inTx := true)
    case TxCommit => Source(db, db, false)
    case _ => Source(db, if src.inTx then src.committed else db, src.inTx)
  }

  predicate InHeap(db: Database, c: Change) {
    match c
    case Upd(rel, k, _, _) => k < |Heap(db, rel)|
    case Del(rel, k) => k < |Heap(db, rel)|
    case _ => true
  }

  /** The message the source sends, with its values as text: REPLICA IDENTITY FULL, so the old tuple is complete; a toasted
      column that the update left alone is sent as unchanged. */
  function MessageOf(db: Database, c: Change, pr: FloatPrinter): Message
    requires InHeap(db, c)
  {
    match c
    case Ins(rel, row) => InsertMsg(rel, TupleOf(Texts(row, pr), {}))
    case Upd(rel, k, row, toasted) =>
      UpdateMsg(rel, Some(TupleOf(Texts(Heap(db, rel)[k], pr), {})), TupleOf(Texts(row, pr), toasted))
    case Del(rel, k) => DeleteMsg(rel, Some(TupleOf(Texts(Heap(db, rel)[k], pr), {})))
    case TxBegin => BeginMsg
    case TxCommit => CommitMsg
  }

  function Cols(r: Relation): seq<Column> {
    ColumnsOf(ChangeColumns(r))
  }

  /** A row of the relation whose every value its MySQL column can hold. */
  ghost predicate RowOk(r: Relation, row: PgRow, fl: Floats) {
    PgRowOk(row, Oids(r), fl)
  }

  /** The row image the streamer makes of a source row. */
  function ImageOf(row: PgRow, r: Relation, fl: Floats): (image: Row)
    requires |row| == |r.columns|
    ensures |image| == |row|
  {
    ConvertRow(Texts(row, fl.printer), Oids(r), fl.parser)
  }

  ghost predicate DatabaseOk(cat: Catalog, db: Database, fl: Floats) {
    forall rel :: rel in db ==>
      rel in cat && forall k :: 0 <= k < |db[rel]| ==> RowOk(cat[rel], db[rel][k], fl)
  }

  /** Names of at most 255 bytes, at least one column, and a table map below the 4 GiB event limit. */
  predicate RelationOk(rel: nat, r: Relation) {
    && rel < P256(4) && |r.schema| <= 255 && |r.name| <= 255 && 0 < |r.columns| < P256(4)
    && 23 + |TableMapBytes(MapOf(rel, r))| < P256(4)
  }

  /** The table map the server announces for a relation. */
  function MapOf(rel: nat, r: Relation): TableMap {
    TableMapFor(RowEvent(Insert, r, rel, None, None))
  }

  /** Relation messages say nothing of nullability, so every column of every table is announced as not nullable. */
  lemma NeverNullable(rel: nat, r: Relation, i: nat)
    requires i < |r.columns|
    ensures !BitAt(MapOf(rel, r).nullBitmap, i)
  {
    hide BitAt, Bitmap;
    NullabilityExact(RowEvent(Insert, r, rel, None, None), i);
  }

  /** The name under which a replica keeps a table. */
  type Name = (Bytes, Bytes)

  function NameOf(r: Relation): Name {
    (r.schema, r.name)
  }

  /** Relations within the limits, no two of the same name. */
  ghost predicate CatalogOk(cat: Catalog) {
    && (forall rel :: rel in cat ==> RelationOk(rel, cat[rel]))
    && (forall a, b :: a in cat && b in cat && NameOf(cat[a]) == NameOf(cat[b]) ==> a == b)
  }

  /** A valid change, with transactions begun and committed in turn. */
  ghost predicate StepOk(cat: Catalog, src: Source, c: Change, fl: Floats) {
    ChangeOk(cat, src.db, c, fl) && (c.TxBegin? ==> !src.inTx) && (c.TxCommit? ==> src.inTx)
  }

  /** A change of a known table to values its columns can hold, whose rows event stays below 4 GiB. */
  ghost predicate ChangeOk(cat: Catalog, db: Database, c: Change, fl: Floats) {
    && InHeap(db, c)
    && match c
       case Ins(rel, row) =>
         rel in cat && RowOk(cat[rel], row, fl) && SmallImages(cat[rel], [ImageOf(row, cat[rel], fl)])
       case Upd(rel, k, row, toasted) =>
         rel in cat && RowOk(cat[rel], row, fl) && |Heap(db, rel)[k]| == |row|
         && (forall i :: 0 <= i < |row| && i in toasted ==> row[i] == Heap(db, rel)[k][i])
         && SmallImages(cat[rel], [ImageOf(Heap(db, rel)[k], cat[rel], fl), ImageOf(row, cat[rel], fl)])
       case Del(rel, k) =>
         rel in cat && |Heap(db, rel)[k]| == |cat[rel].columns|
         && SmallImages(cat[rel], [ImageOf(Heap(db, rel)[k], cat[rel], fl)])
       case _ => true
  }

  /** Row images small enough for the size field of an event. */
  predicate SmallImages(r: Relation, rows: seq<Row>) {
    RowsFor(rows, Cols(r)) ==> |RowsBytes(rows, Cols(r))| + 2 * |r.columns| < P256(4) - 0x1000
  }

  // ----------------------------------------------------------------------- the replica

  /** The data of the rows of each table. */
  type Store = map<Name, multiset<seq<Datum>>>

  /** A replica knows the table maps announced so far.  It shows `data`; the changes of an open transaction are made on a
      copy that replaces it at the commit. */
  datatype Replica = Replica(tables: map<nat, TableMap>, data: Store, open: Option<Store>)

  function RowsIn(d: Store, name: Name): multiset<seq<Datum>> {
    if name in d then d[name] else multiset{}
  }

  function Current(r: Replica): Store {
    if r.open.Some? then r.open.value else r.data
  }

  function WithCurrent(r: Replica, d: Store): Replica {
    if r.open.Some? then r.(open := Some(d)) else r.(data := d)
  }

  /** Pairs of before and after images, one after the other. */
  function UpdateRows(m: multiset<seq<Datum>>, rows: seq<seq<Datum>>): multiset<seq<Datum>>
    decreases |rows|
  {
    if |rows| < 2 then m else UpdateRows(m - multiset{rows[0]} + multiset{rows[1]}, rows[2..])
  }

  /** The event types of the MySQL protocol: 30 writes rows, 31 updates them, 32 deletes them. */
  function ApplyData(d: Store, t: byte, name: Name, rows: seq<seq<Datum>>): Store {
    var m := RowsIn(d, name);
    d[name := if t == 30 then m + multiset(rows) else if t == 31 then UpdateRows(m, rows) else m - multiset(rows)]
  }

  function AllData(rows: seq<Row>, cols: seq<Column>): (d: seq<seq<Datum>>)
    ensures |d| == |rows|
  {
    seq(|rows|, k requires 0 <= k < |rows| => Data(rows[k], cols))
  }

  function ColumnsKnown(tables: map<nat, TableMap>): map<nat, seq<Column>> {
    map id | id in tables :: tables[id].cols
  }

  /** Takes over the data of the decoded rows, read in the column types of their table map, into the table it names. */
  function ApplyRows(r: Replica, t: byte, p: ParsedRows): Option<Replica> {
    if p.id !in r.tables then None
    else
      var m := r.tables[p.id];
      Some(WithCurrent(r, ApplyData(Current(r), t, (m.schema, m.table), AllData(p.rows, m.cols))))
  }

  /** A query: BEGIN opens a transaction, and is refused inside one; other statements are not interpreted. */
  function ApplyQuery(r: Replica, q: QueryEvent): Option<Replica> {
    if q.query != Ascii("BEGIN") then Some(r)
    else if r.open.Some? then None
    else Some(r.(open := Some(r.data)))
  }

  /** An XID commits the open transaction, and is refused without one. */
  function ApplyXid(r: Replica): Option<Replica> {
    if r.open.None? then None else Some(r.(data := r.open.value, open := None))
  }

  /** Decodes and applies one event, by the event types of the MySQL protocol: 19 announces a table, 30 to 32 carry rows,
      2 is a query and 16 an XID; other events change nothing. */
  function ApplyEvent(r: Replica, t: byte, payload: Bytes): Option<Replica> {
    if t == 19 then
      match ParseTableMap(payload)
      case None => None
      case Some(m) => Some(r.(tables := r.tables[m.id := m]))
    else if 30 <= t <= 32 then
      match ParseRows(payload, t == 31, ColumnsKnown(r.tables))
      case None => None
      case Some(p) => ApplyRows(r, t, p)
    else if t == 2 then
      match ParseQuery(payload)
      case None => None
      case Some(q) => ApplyQuery(r, q)
    else if t == 16 then
      match ParseXid(payload)
      case None => None
      case Some(_) => ApplyXid(r)
    else Some(r)
  }

  /** Decodes and applies a whole byte stream. */
  function Replay(r: Replica, s: Bytes): Option<Replica>
    decreases |s|
  {
    if s == [] then Some(r)
    else
      match TakeEvent(s)
      case Bad => None
      case Got(e, rest) =>
        if |rest| >= |s| then None
        else
          match ApplyEvent(r, e.header.eventType, e.payload)
          case None => None
          case Some(r') => Replay(r', rest)
  }

  /** The data of a heap: what its values mean, row by row. */
  function Contents(heap: seq<PgRow>): (rows: seq<seq<Datum>>)
    ensures |rows| == |heap|
  {
    seq(|heap|, k requires 0 <= k < |heap| => Meanings(heap[k]))
  }

  /** Under the name of each known table there is exactly the data of its rows. */
  ghost predicate Holds(d: Store, cat: Catalog, db: Database) {
    forall rel :: rel in cat ==> RowsIn(d, NameOf(cat[rel])) == multiset(Contents(Heap(db, rel)))
  }

  /** The replica shows exactly what the source has committed, and has, in a transaction exactly when the source is in one,
      exactly the data of the source as it is now. */
  ghost predicate Mirrors(r: Replica, cat: Catalog, src: Source) {
    Holds(r.data, cat, src.committed) && Holds(Current(r), cat, src.db) && (r.open.Some? <==> src.inTx)
  }

  // ----------------------------------------------------- what a change is turned into

  /** Row images of a relation as a rows event of a given kind. */
  function EventFor(rel: nat, r: Relation, kind: ChangeKind, rows: seq<Row>): RowsEvent {
    var present := AllPresent(|r.columns|);
    RowsEvent(rel, 1, Cols(r), present, if kind == Update then present else [], rows)
  }

  /** The source rows a change shows: before, after, or both. */
  function RowsShown(db: Database, c: Change): seq<PgRow>
    requires InHeap(db, c) && (c.Ins? || c.Upd? || c.Del?)
  {
    match c
    case Ins(rel, row) => [row]
    case Upd(rel, k, row, _) => [Heap(db, rel)[k], row]
    case Del(rel, k) => [Heap(db, rel)[k]]
  }

  predicate AllWide(rows: seq<PgRow>, r: Relation) {
    forall k :: 0 <= k < |rows| ==> |rows[k]| == |r.columns|
  }

  function Images(rows: seq<PgRow>, r: Relation, fl: Floats): (images: seq<Row>)
    requires AllWide(rows, r)
    ensures |images| == |rows|
  {
    seq(|rows|, k requires 0 <= k < |rows| => ImageOf(rows[k], r, fl))
  }

  function KindOf(c: Change): ChangeKind
    requires c.Ins? || c.Upd? || c.Del?
  {
    if c.Ins? then Insert else if c.Upd? then Update else Delete
  }

  predicate IsRow(c: Change) {
    c.Ins? || c.Upd? || c.Del?
  }

  lemma ShownWide(cat: Catalog, db: Database, c: Change, fl: Floats)
    requires ChangeOk(cat, db, c, fl) && IsRow(c)
    ensures c.rel in cat && AllWide(RowsShown(db, c), cat[c.rel])
  {
    hide ValueOk, SmallImages, ImageOf;
  }

  /** The streamer and the server turn a change into its table map and its full row images, filling the columns
      that were sent as unchanged. */
  lemma ConvertedChange(cat: Catalog, db: Database, c: Change, fl: Floats, st: State, clk: Clock)
    requires ChangeOk(cat, db, c, fl) && IsRow(c) && c.rel in cat && AllWide(RowsShown(db, c), cat[c.rel])
    ensures var e := Handle(cat, MessageOf(db, c, fl.printer), fl.parser);
            && e.Some?
            && Convert(st, e.value, clk)
            == [TableMapEvt(HeaderFor(st, clk.first, TABLE_MAP_EVENT), MapOf(c.rel, cat[c.rel])),
                RowsEvt(HeaderFor(st, clk.second, RowsEventType(KindOf(c))), KindOf(c) == Update,
                        EventFor(c.rel, cat[c.rel], KindOf(c), Images(RowsShown(db, c), cat[c.rel], fl)))]
  {
    hide ValueOk, SmallImages, ConvertRow, DecodeTupleSpec, TupleOf, ColumnsOf, ConvertCell, TextOf;
    var r := cat[c.rel];
    var oids := Oids(r);
    assert forall k :: 0 <= k < |RowsShown(db, c)| ==> |RowsShown(db, c)[k]| == |oids|;
    match c
    case Ins(rel, row) =>
      assert RowsShown(db, c)[0] == row;
      DecodeComplete(Texts(row, fl.printer), oids, None, fl.parser);
      assert Images(RowsShown(db, c), r, fl) == [ImageOf(row, r, fl)];
    case Upd(rel, k, row, toasted) =>
      var prev := Heap(db, rel)[k];
      assert RowsShown(db, c)[0] == prev && RowsShown(db, c)[1] == row;
      DecodeComplete(Texts(prev, fl.printer), oids, None, fl.parser);
      DecodeWithToast(Texts(prev, fl.printer), Texts(row, fl.printer), toasted, oids, fl.parser);
      assert Images(RowsShown(db, c), r, fl) == [ImageOf(prev, r, fl), ImageOf(row, r, fl)];
    case Del(rel, k) =>
      assert RowsShown(db, c)[0] == Heap(db, rel)[k];
      DecodeComplete(Texts(Heap(db, rel)[k], fl.printer), oids, None, fl.parser);
      assert Images(RowsShown(db, c), r, fl) == [ImageOf(Heap(db, rel)[k], r, fl)];
  }

  // -------------------------------------------------------------- one event at the replica

  lemma ReplayOne(r: Replica, h: Header, payload: Bytes, crc: Checksum, rest: Bytes)
    requires WellFormedHeader(h) && 23 + |payload| < P256(4)
    requires ApplyEvent(r, h.eventType, payload).Some?
    ensures Replay(r, EventBytes(h, payload, crc) + rest) == Replay(ApplyEvent(r, h.eventType, payload).value, rest)
  {
    hide ApplyEvent, TakeEvent, EventBytes;
    EventRoundTrip(h, payload, crc, rest);
  }

  lemma TableMapApplies(r: Replica, rel: nat, relation: Relation)
    requires RelationOk(rel, relation)
    ensures ApplyEvent(r, TABLE_MAP_EVENT, TableMapBytes(MapOf(rel, relation)))
         == Some(r.(tables := r.tables[rel := MapOf(rel, relation)]))
  {
    hide TableMapBytes, ParseTableMap, ColumnsOf, MetaFits, Bitmap;
    var m := MapOf(rel, relation);
    Pow256Table();
    ColumnMetaFits(ChangeColumns(relation));
    TableMapRoundTrip(m);
  }

  ghost predicate ImagesOk(relation: Relation, rows: seq<Row>) {
    RowsFor(rows, Cols(relation)) && forall k :: 0 <= k < |rows| ==> RepresentableRow(rows[k], Cols(relation))
  }

  /** What a replica makes of a rows event: the data of its images goes to the table of that name. */
  function Taken(r: Replica, relation: Relation, kind: ChangeKind, rows: seq<Row>): Replica {
    WithCurrent(r, ApplyData(Current(r), RowsEventType(kind), NameOf(relation), AllData(rows, Cols(relation))))
  }

  lemma RowsApply(r: Replica, rel: nat, relation: Relation, kind: ChangeKind, rows: seq<Row>)
    requires RelationOk(rel, relation) && IsRowChange(kind) && ImagesOk(relation, rows)
    requires rel in r.tables && r.tables[rel] == MapOf(rel, relation)
    ensures ApplyEvent(r, RowsEventType(kind), RowsEventBytes(EventFor(rel, relation, kind, rows)))
         == Some(Taken(r, relation, kind, rows))
  {
    hide RowsEventBytes, ParseRows, ColumnsOf, RepresentableRow, RowsFor, ApplyData, TableMapBytes, Data, SettledRow, WithCurrent,
         Bitmap;
    Pow256Table();
    var e, cols := EventFor(rel, relation, kind, rows), Cols(relation);
    PresentEverywhere(|relation.columns|);
    assert WellFormedRows(e, kind == Update);
    RowsEventRoundTrip(e, kind == Update, ColumnsKnown(r.tables));
    RowsWide(rows, cols);
    RowsRoundTrip(rows, cols);
    assert AllData(SettledRows(rows, cols), cols) == AllData(rows, cols);
  }

  lemma RowsWide(rows: seq<Row>, cols: seq<Column>)
    requires RowsFor(rows, cols)
    ensures forall k :: 0 <= k < |rows| ==> |rows[k]| == |cols|
  {
  }

  lemma RowsEventSize(rel: nat, relation: Relation, kind: ChangeKind, rows: seq<Row>)
    requires RelationOk(rel, relation) && RowsFor(rows, Cols(relation)) && SmallImages(relation, rows)
    ensures 23 + |RowsEventBytes(EventFor(rel, relation, kind, rows))| < P256(4)
  {
    hide RowsBytes, RowsFor, TableMapBytes, ColumnsOf, LE;
    Pow256Table();
  }

  // ------------------------------------------------------------------ heaps and contents

  lemma ContentsAppend(heap: seq<PgRow>, row: PgRow)
    ensures multiset(Contents(heap + [row])) == multiset(Contents(heap)) + multiset{Meanings(row)}
  {
    hide Meanings;
    assert Contents(heap + [row]) == Contents(heap) + [Meanings(row)];
  }

  lemma ContentsUpdate(heap: seq<PgRow>, k: nat, row: PgRow)
    requires k < |heap|
    ensures multiset(Contents(heap[k := row]))
         == multiset(Contents(heap)) - multiset{Meanings(heap[k])} + multiset{Meanings(row)}
  {
    hide Meanings;
    var cs := Contents(heap);
    assert Contents(heap[k := row]) == cs[k := Meanings(row)];
    assert cs[k] == Meanings(heap[k]);
  }

  lemma ContentsRemove(heap: seq<PgRow>, k: nat)
    requires k < |heap|
    ensures multiset(Contents(heap[..k] + heap[k + 1..])) == multiset(Contents(heap)) - multiset{Meanings(heap[k])}
  {
    hide Meanings;
    var cs := Contents(heap);
    assert Contents(heap[..k] + heap[k + 1..]) == cs[..k] + cs[k + 1..];
    assert cs == cs[..k] + [cs[k]] + cs[k + 1..];
  }

  lemma ApplyKeepsDatabase(cat: Catalog, db: Database, c: Change, fl: Floats)
    requires DatabaseOk(cat, db, fl) && ChangeOk(cat, db, c, fl)
    ensures DatabaseOk(cat, Apply(db, c), fl)
  {
    hide PgRowOk, SmallImages, ImageOf;
  }

  lemma OnePair(m: multiset<seq<Datum>>, a: seq<Datum>, b: seq<Datum>)
    ensures UpdateRows(m, [a, b]) == m - multiset{a} + multiset{b}
  {
    assert [a, b][2..] == [];
  }

  lemma One<T>(a: T)
    ensures multiset([a]) == multiset{a}
  {
  }

  /** Taking over the data of the rows a change shows gives the contents of the changed table. */
  lemma ChangedContents(m: multiset<seq<Datum>>, db: Database, c: Change)
    requires InHeap(db, c) && IsRow(c) && m == multiset(Contents(Heap(db, c.rel)))
    ensures multiset(Contents(Heap(Apply(db, c), c.rel)))
         == if c.Ins? then m + multiset(Contents(RowsShown(db, c)))
            else if c.Upd? then UpdateRows(m, Contents(RowsShown(db, c)))
            else m - multiset(Contents(RowsShown(db, c)))
  {
    hide Meanings, UpdateRows;
    var heap := Heap(db, c.rel);
    match c
    case Ins(_, row) =>
      ContentsAppend(heap, row);
      assert Contents([row]) == [Meanings(row)];
      One(Meanings(row));
    case Upd(_, k, row, _) =>
      ContentsUpdate(heap, k, row);
      assert Contents([heap[k], row]) == [Meanings(heap[k]), Meanings(row)];
      OnePair(m, Meanings(heap[k]), Meanings(row));
    case Del(_, k) =>
      ContentsRemove(heap, k);
      assert Contents([heap[k]]) == [Meanings(heap[k])];
      One(Meanings(heap[k]));
  }

  /** Applying the data of a change to the contents of the tables gives the contents of the changed tables. */
  lemma HoldsStep(d: Store, cat: Catalog, db: Database, c: Change)
    requires CatalogOk(cat) && InHeap(db, c) && IsRow(c) && c.rel in cat && Holds(d, cat, db)
    ensures Holds(ApplyData(d, RowsEventType(KindOf(c)), NameOf(cat[c.rel]), Contents(RowsShown(db, c))), cat, Apply(db, c))
  {
    hide Contents, UpdateRows, RowsShown, ApplyData, Apply, Heap, RelationOk;
    var name, rows := NameOf(cat[c.rel]), Contents(RowsShown(db, c));
    var d' := ApplyData(d, RowsEventType(KindOf(c)), name, rows);
    ChangedContents(RowsIn(d, name), db, c);
    AppliedHere(d, c, name, rows);
    forall rel | rel in cat ensures RowsIn(d', NameOf(cat[rel])) == multiset(Contents(Heap(Apply(db, c), rel))) {
      if rel != c.rel {
        OtherTables(d, db, c, name, rows, rel, NameOf(cat[rel]));
      }
    }
  }

  lemma AppliedHere(d: Store, c: Change, name: Name, rows: seq<seq<Datum>>)
    requires IsRow(c)
    ensures RowsIn(ApplyData(d, RowsEventType(KindOf(c)), name, rows), name)
         == if c.Ins? then RowsIn(d, name) + multiset(rows)
            else if c.Upd? then UpdateRows(RowsIn(d, name), rows)
            else RowsIn(d, name) - multiset(rows)
  {
    hide UpdateRows;
  }

  lemma OtherTables(d: Store, db: Database, c: Change, name: Name, rows: seq<seq<Datum>>, rel: nat, other: Name)
    requires InHeap(db, c) && IsRow(c) && rel != c.rel && other != name
    ensures RowsIn(ApplyData(d, RowsEventType(KindOf(c)), name, rows), other) == RowsIn(d, other)
    ensures Heap(Apply(db, c), rel) == Heap(db, rel)
  {
    hide UpdateRows;
  }

  /** So a replica that takes over the data of a change mirrors the changed source. */
  lemma MirrorStep(r: Replica, cat: Catalog, src: Source, c: Change, rows: seq<Row>)
    requires CatalogOk(cat) && InHeap(src.db, c) && IsRow(c) && c.rel in cat && Mirrors(r, cat, src)
    requires AllData(rows, Cols(cat[c.rel])) == Contents(RowsShown(src.db, c))
    ensures Mirrors(Taken(r, cat[c.rel], KindOf(c), rows), cat, Next(src, c))
  {
    hide Holds, ApplyData, Contents, CatalogOk, Apply, AllData, RowsShown;
    HoldsStep(Current(r), cat, src.db, c);
  }

  /** The images of the rows a change shows carry the data of those rows. */
  lemma ImagesMean(cat: Catalog, db: Database, c: Change, fl: Floats)
    requires DatabaseOk(cat, db, fl) && ChangeOk(cat, db, c, fl) && IsRow(c)
    requires c.rel in cat && AllWide(RowsShown(db, c), cat[c.rel])
    ensures var images := Images(RowsShown(db, c), cat[c.rel], fl);
            && ImagesOk(cat[c.rel], images) && SmallImages(cat[c.rel], images)
            && AllData(images, Cols(cat[c.rel])) == Contents(RowsShown(db, c))
  {
    hide RepresentableRow, SmallImages, RowFor, Data, Meanings, ImageOf, PgRowOk;
    var shown, r := RowsShown(db, c), cat[c.rel];
    ShownOk(cat, db, c, fl);
    var images, cols := Images(shown, r, fl), Cols(r);
    forall k | 0 <= k < |shown|
      ensures RepresentableRow(images[k], cols) && RowFor(images[k], cols) && Data(images[k], cols) == Meanings(shown[k])
    {
      ImageMeans(shown[k], r, fl);
    }
    SmallShown(cat, db, c, fl);
  }

  lemma ShownOk(cat: Catalog, db: Database, c: Change, fl: Floats)
    requires DatabaseOk(cat, db, fl) && ChangeOk(cat, db, c, fl) && IsRow(c)
    ensures c.rel in cat && forall k :: 0 <= k < |RowsShown(db, c)| ==> RowOk(cat[c.rel], RowsShown(db, c)[k], fl)
  {
    hide PgRowOk, SmallImages, ImageOf;
  }

  lemma SmallShown(cat: Catalog, db: Database, c: Change, fl: Floats)
    requires ChangeOk(cat, db, c, fl) && IsRow(c) && c.rel in cat && AllWide(RowsShown(db, c), cat[c.rel])
    ensures SmallImages(cat[c.rel], Images(RowsShown(db, c), cat[c.rel], fl))
  {
    hide PgRowOk, SmallImages, ImageOf;
    var r, images := cat[c.rel], Images(RowsShown(db, c), cat[c.rel], fl);
    match c
    case Ins(rel, row) => assert images == [ImageOf(RowsShown(db, c)[0], r, fl)];
    case Upd(rel, k, row, _) =>
      assert images == [ImageOf(RowsShown(db, c)[0], r, fl), ImageOf(RowsShown(db, c)[1], r, fl)];
    case Del(rel, k) => assert images == [ImageOf(RowsShown(db, c)[0], r, fl)];
  }

  lemma ImageMeans(row: PgRow, r: Relation, fl: Floats)
    requires RowOk(r, row, fl)
    ensures var image := ImageOf(row, r, fl);
            && RepresentableRow(image, Cols(r)) && RowFor(image, Cols(r)) && Data(image, Cols(r)) == Meanings(row)
  {
    hide ValueOk, RepresentableRow, RowFor, Data, Meanings, ConvertRow, MySQLType, ColumnMeta;
    assert ColumnsFor(Cols(r), Oids(r));
    RowConverts(row, Oids(r), Cols(r), fl);
    RepresentableRowFor(ImageOf(row, r, fl), Cols(r));
  }

  // ------------------------------------------------------------------------ whole runs

  datatype Timed = Timed(change: Change, clock: Clock)

  /** The changes of a run are valid one after the other. */
  ghost predicate RunOk(cat: Catalog, src: Source, cs: seq<Timed>, fl: Floats)
    decreases |cs|
  {
    cs == [] || (StepOk(cat, src, cs[0].change, fl) && RunOk(cat, Next(src, cs[0].change), cs[1..], fl))
  }

  ghost function FinalSource(cat: Catalog, src: Source, cs: seq<Timed>, fl: Floats): Source
    requires RunOk(cat, src, cs, fl)
    decreases |cs|
  {
    if cs == [] then src else FinalSource(cat, Next(src, cs[0].change), cs[1..], fl)
  }

  predicate Sendable(e: BinlogEvent) {
    e.RowsEvt? ==> RowsFor(e.rows.rows, e.rows.cols)
  }

  function EventsBytes(es: seq<BinlogEvent>, crc: Checksum): Bytes
    requires forall i :: 0 <= i < |es| ==> Sendable(es[i])
  {
    if es == [] then []
    else (assert Sendable(es[0]); EventBytes(es[0].header, PayloadOf(es[0]), crc) + EventsBytes(es[1..], crc))
  }

  /** The bytes the pipeline produces for one change: handler, conversion, encoding. */
  ghost function ChangeBytes(cat: Catalog, db: Database, st: State, t: Timed, fl: Floats, crc: Checksum): Bytes
    requires InHeap(db, t.change)
  {
    match Handle(cat, MessageOf(db, t.change, fl.printer), fl.parser)
    case None => []
    case Some(e) =>
      var es := Convert(st, e, t.clock);
      if forall i :: 0 <= i < |es| ==> Sendable(es[i]) then EventsBytes(es, crc) else []
  }

  ghost function NextState(cat: Catalog, db: Database, st: State, t: Timed, fl: Floats): State
    requires InHeap(db, t.change)
  {
    match Handle(cat, MessageOf(db, t.change, fl.printer), fl.parser)
    case None => st
    case Some(e) => After(st, e, t.clock)
  }

  /** The byte stream of a whole run. */
  ghost function RunBytes(cat: Catalog, src: Source, st: State, cs: seq<Timed>, fl: Floats, crc: Checksum): Bytes
    requires RunOk(cat, src, cs, fl)
    decreases |cs|
  {
    if cs == [] then []
    else ChangeBytes(cat, src.db, st, cs[0], fl, crc)
         + RunBytes(cat, Next(src, cs[0].change), NextState(cat, src.db, st, cs[0], fl), cs[1..], fl, crc)
  }

  predicate StateOk(st: State) {
    st.serverId < P256(4) && st.pos < P256(4)
  }

  lemma TwoEvents(a: BinlogEvent, b: BinlogEvent, crc: Checksum, rest: Bytes)
    requires Sendable(a) && Sendable(b)
    ensures EventsBytes([a, b], crc) + rest
         == EventBytes(a.header, PayloadOf(a), crc) + (EventBytes(b.header, PayloadOf(b), crc) + rest)
  {
    hide EventBytes, PayloadOf;
    assert [a, b][1..] == [b] && [b][1..] == [];
    assert EventsBytes([b], crc) == EventBytes(b.header, PayloadOf(b), crc) + [];
  }

  /** A row change: the replica parses its two events and takes over its images. */
  lemma RowChangeStep(r: Replica, cat: Catalog, src: Source, st: State, t: Timed, fl: Floats, crc: Checksum,
                      rest: Bytes)
    returns (r': Replica)
    requires CatalogOk(cat) && DatabaseOk(cat, src.db, fl) && ChangeOk(cat, src.db, t.change, fl) && StateOk(st)
    requires IsRow(t.change) && Mirrors(r, cat, src)
    ensures DatabaseOk(cat, Next(src, t.change).db, fl) && Mirrors(r', cat, Next(src, t.change))
    ensures Replay(r, ChangeBytes(cat, src.db, st, t, fl, crc) + rest) == Replay(r', rest)
  {
    hide SmallImages, ImageOf, Contents, DatabaseOk, RowsEventBytes, TableMapBytes, RelationOk, EventBytes, Replay,
         ApplyEvent, ApplyData, Handle, Convert, EventsBytes, RowsFor, Mirrors, HeaderFor, RowsShown, RepresentableRow,
         MapOf, Taken, Apply;
    var c, db := t.change, src.db;
    ShownWide(cat, db, c, fl);
    var rel, relation, kind, rows := c.rel, cat[c.rel], KindOf(c), Images(RowsShown(db, c), cat[c.rel], fl);
    ImagesMean(cat, db, c, fl);
    ConvertedChange(cat, db, c, fl, st, t.clock);
    var h1, h2 := HeaderFor(st, t.clock.first, TABLE_MAP_EVENT), HeaderFor(st, t.clock.second, RowsEventType(kind));
    HeaderOk(st, t.clock.first, TABLE_MAP_EVENT);
    HeaderOk(st, t.clock.second, RowsEventType(kind));
    var m, e := MapOf(rel, relation), EventFor(rel, relation, kind, rows);
    var evM, evR := TableMapEvt(h1, m), RowsEvt(h2, kind == Update, e);
    TwoEvents(evM, evR, crc, rest);
    TableMapApplies(r, rel, relation);
    var r1 := r.(tables := r.tables[rel := m]);
    RelationSize(rel, relation);
    ReplayOne(r, h1, TableMapBytes(m), crc, EventBytes(h2, RowsEventBytes(e), crc) + rest);
    RowsApply(r1, rel, relation, kind, rows);
    RowsEventSize(rel, relation, kind, rows);
    ReplayOne(r1, h2, RowsEventBytes(e), crc, rest);
    r' := Taken(r1, relation, kind, rows);
    ApplyKeepsDatabase(cat, db, c, fl);
    MirrorIgnoresTables(r, r1, cat, src);
    MirrorStep(r1, cat, src, c, rows);
  }

  lemma HeaderOk(st: State, time: nat, t: byte)
    requires StateOk(st)
    ensures WellFormedHeader(HeaderFor(st, time, t)) && HeaderFor(st, time, t).eventType == t
  {
    Pow256Table();
  }

  lemma RelationSize(rel: nat, relation: Relation)
    requires RelationOk(rel, relation)
    ensures 23 + |TableMapBytes(MapOf(rel, relation))| < P256(4)
  {
  }

  lemma MirrorIgnoresTables(r: Replica, r1: Replica, cat: Catalog, src: Source)
    requires Mirrors(r, cat, src) && r1.data == r.data && r1.open == r.open
    ensures Mirrors(r1, cat, src)
  {
    hide Holds;
  }

  lemma OneEvent(a: BinlogEvent, crc: Checksum, rest: Bytes)
    requires Sendable(a)
    ensures EventsBytes([a], crc) + rest == EventBytes(a.header, PayloadOf(a), crc) + rest
  {
    hide EventBytes, PayloadOf;
    assert [a][1..] == [];
    assert EventsBytes([a], crc) == EventBytes(a.header, PayloadOf(a), crc) + [];
  }

  lemma GtidApplies(r: Replica)
    ensures ApplyEvent(r, GTID_EVENT, [0, 0, 0, 0]) == Some(r)
  {
  }

  lemma BeginApplies(r: Replica)
    requires r.open.None?
    ensures ApplyEvent(r, QUERY_EVENT, QueryBytes(QueryFor(BEGIN_TEXT))) == Some(r.(open := Some(r.data)))
  {
    hide QueryBytes, ParseQuery;
    Pow256Table();
    QueryRoundTrip(QueryFor(BEGIN_TEXT));
    assert Ascii("BEGIN") == BEGIN_TEXT;
  }

  lemma XidApplies(r: Replica, xid: nat)
    requires r.open.Some? && xid < 0x1_0000_0000_0000_0000
    ensures ApplyEvent(r, XID_EVENT, XidBytes(xid)) == Some(r.(data := r.open.value, open := None))
  {
    hide XidBytes, ParseXid;
    XidRoundTrip(xid);
  }

  /** BEGIN, with or without a GTID before it, opens a transaction at the replica. */
  lemma BeginStep(r: Replica, cat: Catalog, db: Database, st: State, t: Timed, fl: Floats, crc: Checksum, rest: Bytes)
    requires StateOk(st) && t.change.TxBegin? && r.open.None?
    ensures Replay(r, ChangeBytes(cat, db, st, t, fl, crc) + rest) == Replay(r.(open := Some(r.data)), rest)
  {
    hide Replay, EventBytes, HeaderFor, EventsBytes, QueryBytes, ApplyEvent, WellFormedHeader;
    var e := ChangeEvent(Begin, [], [], 0, [], None, None);
    var es, st1 := Convert(st, e, t.clock), Bump(st, e);
    var h1, h2 := HeaderFor(st1, t.clock.first, GTID_EVENT), HeaderFor(st1, t.clock.second, QUERY_EVENT);
    HeaderOk(st1, t.clock.first, GTID_EVENT);
    HeaderOk(st1, t.clock.second, QUERY_EVENT);
    Pow256Table();
    BeginPayloadSize();
    var q := QueryEvt(h2, QueryFor(BEGIN_TEXT));
    BeginApplies(r);
    ReplayOne(r, h2, PayloadOf(q), crc, rest);
    if st.gtidEnabled {
      var g := GtidEvent(h1, st1.tx, st1.tx - 1, st1.tx);
      assert es == [g, q];
      TwoEvents(g, q, crc, rest);
      GtidApplies(r);
      ReplayOne(r, h1, PayloadOf(g), crc, EventBytes(h2, PayloadOf(q), crc) + rest);
    } else {
      assert es == [q];
      OneEvent(q, crc, rest);
    }
  }

  /** COMMIT makes the open transaction visible at the replica. */
  lemma CommitStep(r: Replica, cat: Catalog, db: Database, st: State, t: Timed, fl: Floats, crc: Checksum, rest: Bytes)
    requires StateOk(st) && t.change.TxCommit? && r.open.Some?
    ensures Replay(r, ChangeBytes(cat, db, st, t, fl, crc) + rest) == Replay(r.(data := r.open.value, open := None), rest)
  {
    hide Replay, EventBytes, HeaderFor, EventsBytes, ApplyEvent, WellFormedHeader;
    var e := ChangeEvent(Commit, [], [], 0, [], None, None);
    var es := Convert(st, e, t.clock);
    var h, xid := HeaderFor(st, t.clock.first, XID_EVENT), t.clock.nanos % 0x1_0000_0000_0000_0000;
    HeaderOk(st, t.clock.first, XID_EVENT);
    Pow256Table();
    assert es == [XidEvent(h, xid)];
    OneEvent(es[0], crc, rest);
    XidApplies(r, xid);
    ReplayOne(r, h, XidBytes(xid), crc, rest);
  }

  /** BEGIN and COMMIT open and close the transaction of a mirror. */
  lemma MarkerStep(r: Replica, cat: Catalog, src: Source, st: State, t: Timed, fl: Floats, crc: Checksum, rest: Bytes)
    returns (r': Replica)
    requires StateOk(st) && StepOk(cat, src, t.change, fl) && !IsRow(t.change) && Mirrors(r, cat, src)
    ensures Mirrors(r', cat, Next(src, t.change))
    ensures Replay(r, ChangeBytes(cat, src.db, st, t, fl, crc) + rest) == Replay(r', rest)
  {
    hide Replay, ChangeBytes, Holds;
    if t.change.TxBegin? {
      BeginStep(r, cat, src.db, st, t, fl, crc, rest);
      r' := r.(open := Some(r.data));
    } else {
      CommitStep(r, cat, src.db, st, t, fl, crc, rest);
      r' := r.(data := r.open.value, open := None);
    }
  }

  lemma BeginPayloadSize()
    ensures |QueryBytes(QueryFor(BEGIN_TEXT))| == 19
  {
    hide LE;
  }

  /** End-to-end fidelity: for every run of changes on known tables to values their MySQL columns can hold, a replica that
      started as a mirror of the source decodes the whole byte stream and ends as a mirror: it shows, table by table, the
      same numbers, floats and texts in the same rows as the source has committed, unchanged TOAST columns included, and
      what the source has not committed it does not show. */
  lemma {:induction false} CdcFidelity(r: Replica, cat: Catalog, src: Source, st: State, cs: seq<Timed>,
                                       fl: Floats, crc: Checksum)
    requires CatalogOk(cat) && DatabaseOk(cat, src.db, fl) && RunOk(cat, src, cs, fl) && StateOk(st)
    requires Mirrors(r, cat, src)
    ensures DatabaseOk(cat, FinalSource(cat, src, cs, fl).db, fl)
    ensures var out := Replay(r, RunBytes(cat, src, st, cs, fl, crc));
            out.Some? && Mirrors(out.value, cat, FinalSource(cat, src, cs, fl))
    decreases |cs|
  {
    hide ChangeBytes, Mirrors, DatabaseOk, ChangeOk, CatalogOk, Handle, Next;
    if cs != [] {
      var t := cs[0];
      RunStarts(cat, src, cs, fl);
      var src1, st1 := Next(src, t.change), NextState(cat, src.db, st, t, fl);
      StateStaysOk(cat, src.db, st, t, fl);
      var rest := RunBytes(cat, src1, st1, cs[1..], fl, crc);
      var r1 := r;
      if IsRow(t.change) {
        r1 := RowChangeStep(r, cat, src, st, t, fl, crc, rest);
      } else {
        r1 := MarkerStep(r, cat, src, st, t, fl, crc, rest);
      }
      CdcFidelity(r1, cat, src1, st1, cs[1..], fl, crc);
    }
  }

  lemma RunStarts(cat: Catalog, src: Source, cs: seq<Timed>, fl: Floats)
    requires cs != [] && RunOk(cat, src, cs, fl)
    ensures InHeap(src.db, cs[0].change) && ChangeOk(cat, src.db, cs[0].change, fl)
    ensures !IsRow(cs[0].change) ==> Next(src, cs[0].change).db == src.db
  {
  }

  lemma {:induction false} EndsCommitted(cat: Catalog, src: Source, cs: seq<Timed>, fl: Floats)
    requires cs != [] && RunOk(cat, src, cs, fl) && cs[|cs| - 1].change == TxCommit
    ensures var last := FinalSource(cat, src, cs, fl); last.committed == last.db && !last.inTx
    decreases |cs|
  {
    hide ChangeOk;
    RunStarts(cat, src, cs, fl);
    if |cs| > 1 {
      EndsCommitted(cat, Next(src, cs[0].change), cs[1..], fl);
    }
  }

  /** At every commit the data a client of the replica sees is the data of the source tables. */
  lemma CommitShowsSource(r: Replica, cat: Catalog, src: Source, st: State, cs: seq<Timed>, fl: Floats, crc: Checksum)
    requires CatalogOk(cat) && DatabaseOk(cat, src.db, fl) && RunOk(cat, src, cs, fl) && StateOk(st)
    requires Mirrors(r, cat, src) && cs != [] && cs[|cs| - 1].change == TxCommit
    ensures var out := Replay(r, RunBytes(cat, src, st, cs, fl, crc));
            out.Some? && out.value.open == None && Holds(out.value.data, cat, FinalSource(cat, src, cs, fl).db)
  {
    hide Replay, RunBytes, Holds, DatabaseOk, CatalogOk;
    CdcFidelity(r, cat, src, st, cs, fl, crc);
    EndsCommitted(cat, src, cs, fl);
  }

  lemma StateStaysOk(cat: Catalog, db: Database, st: State, t: Timed, fl: Floats)
    requires StateOk(st) && InHeap(db, t.change)
    ensures StateOk(NextState(cat, db, st, t, fl))
  {
    hide Handle, Convert;
    Pow256Table();
  }
}
