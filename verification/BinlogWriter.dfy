/**
  The proxy's own buffered, rotating log (pkg/binlog/binlog.go): the binary record format, and the writer as a
  class whose abstract value is an unbuffered append-only log.
 */
module BinlogWriter {
  import opened Bytes

  // -------------------------------------------------------------------- the record format

  /** The fields of a BinlogEvent that serializeBinary writes. */
  datatype LogEvent = LogEvent(nanos: int, eventType: byte, database: Bytes, table: Bytes,
                               mysqlQuery: Bytes, pgQuery: Bytes, rowsAffected: int, execTime: int)

  function RecordSize(e: LogEvent): nat {
    4 + 8 + 1 + 2 + |e.database| + 2 + |e.table| + 4 + |e.mysqlQuery| + 4 + |e.pgQuery| + 8 + 8
  }

  /** A big-endian length of `k` bytes, then the text. */
  function Sized(k: nat, s: Bytes): (r: Bytes)
    ensures |r| == k + |s|
  {
    BE(|s|, k) + s
  }

  function RecordBytes(e: LogEvent): (r: Bytes)
    ensures |r| == RecordSize(e)
  {
    BE(RecordSize(e), 4) + BE(Unsigned(e.nanos, 8), 8) + [e.eventType]
    + Sized(2, e.database) + Sized(2, e.table) + Sized(4, e.mysqlQuery) + Sized(4, e.pgQuery)
    + BE(Unsigned(e.rowsAffected, 8), 8) + BE(Unsigned(e.execTime, 8), 8)
  }

  method SerializeBinary(e: LogEvent) returns (r: Bytes)
    ensures r == RecordBytes(e)
  {
    hide BE, Unsigned;
    var totalLen := RecordSize(e);
    var buf := new byte[totalLen];
    var pos := PutFixed(buf, e, totalLen);
    hide Sized;
    pos := Append(buf, pos, Sized(2, e.database));
    pos := Append(buf, pos, Sized(2, e.table));
    pos := Append(buf, pos, Sized(4, e.mysqlQuery));
    pos := Append(buf, pos, Sized(4, e.pgQuery));
    pos := Append(buf, pos, BE(Unsigned(e.rowsAffected, 8), 8));
    pos := Append(buf, pos, BE(Unsigned(e.execTime, 8), 8));
    r := buf[..];
    assert r == buf[..pos];
  }

  method PutFixed(buf: array<byte>, e: LogEvent, totalLen: nat) returns (pos: nat)
    requires buf.Length >= 13
    modifies buf
    ensures pos == 13 && buf[..13] == BE(totalLen, 4) + BE(Unsigned(e.nanos, 8), 8) + [e.eventType]
  {
    hide BE, Unsigned;
    pos := Append(buf, 0, BE(totalLen, 4));
    pos := Append(buf, pos, BE(Unsigned(e.nanos, 8), 8));
    pos := Append(buf, pos, [e.eventType]);
  }

  function TakeBE(s: Bytes, k: nat): Decoded<nat> {
    if |s| < k then Bad else Got(FromBE(s[..k]), s[k..])
  }

  function TakeSized(s: Bytes, k: nat): Decoded<Bytes> {
    match TakeBE(s, k)
    case Bad => Bad
    case Got(n, t) => if |t| < n then Bad else Got(t[..n], t[n..])
  }

  function TakeSigned(s: Bytes): Decoded<int> {
    match TakeBE(s, 8)
    case Bad => Bad
    case Got(n, t) => Got(Signed(n, 8), t)
  }

  /** The variable part of a record: its four texts. */
  function TakeTexts(s: Bytes): Decoded<(Bytes, Bytes, Bytes, Bytes)> {
    match TakeSized(s, 2)
    case Bad => Bad
    case Got(db, s1) =>
      match TakeSized(s1, 2)
      case Bad => Bad
      case Got(table, s2) =>
        match TakeSized(s2, 4)
        case Bad => Bad
        case Got(mysql, s3) =>
          match TakeSized(s3, 4)
          case Bad => Bad
          case Got(pg, s4) => Got((db, table, mysql, pg), s4)
  }

  /** Reads one record off the front of `s`, checking its length field. */
  function TakeRecord(s: Bytes): Decoded<LogEvent> {
    match TakeBE(s, 4)
    case Bad => Bad
    case Got(len, s0) =>
      match TakeSigned(s0)
      case Bad => Bad
      case Got(nanos, s1) =>
        if s1 == [] then Bad
        else
          match TakeTexts(s1[1..])
          case Bad => Bad
          case Got(t, s2) =>
            match TakeSigned(s2)
            case Bad => Bad
            case Got(rows, s3) =>
              match TakeSigned(s3)
              case Bad => Bad
              case Got(exec, s4) =>
                if len != |s| - |s4| then Bad else Got(LogEvent(nanos, s1[0], t.0, t.1, t.2, t.3, rows, exec), s4)
  }

  /** The lengths and numbers of an event fit their fields. */
  predicate Recordable(e: LogEvent) {
    && FitsSigned(e.nanos, 8) && FitsSigned(e.rowsAffected, 8) && FitsSigned(e.execTime, 8)
    && |e.database| < P256(2) && |e.table| < P256(2) && |e.mysqlQuery| < P256(4) && |e.pgQuery| < P256(4)
    && RecordSize(e) < P256(4)
  }

  lemma TakeBEOfBE(n: nat, k: nat, rest: Bytes)
    requires n < P256(k)
    ensures TakeBE(BE(n, k) + rest, k) == Got(n, rest)
  {
    FromBEOfBE(n, k);
    assert (BE(n, k) + rest)[..k] == BE(n, k) && (BE(n, k) + rest)[k..] == rest;
  }

  lemma TakeSignedOf(v: int, rest: Bytes)
    requires FitsSigned(v, 8)
    ensures TakeSigned(BE(Unsigned(v, 8), 8) + rest) == Got(v, rest)
  {
    hide BE, Unsigned, Signed, FitsSigned;
    TakeBEOfBE(Unsigned(v, 8), 8, rest);
    SignedOfUnsigned(v, 8);
  }

  lemma TakeSizedOf(k: nat, s: Bytes, rest: Bytes)
    requires |s| < P256(k)
    ensures TakeSized(Sized(k, s) + rest, k) == Got(s, rest)
  {
    hide BE;
    assert Sized(k, s) + rest == BE(|s|, k) + (s + rest);
    TakeBEOfBE(|s|, k, s + rest);
    assert (s + rest)[..|s|] == s && (s + rest)[|s|..] == rest;
  }

  lemma TakeTextsOf(e: LogEvent, rest: Bytes)
    requires Recordable(e)
    ensures TakeTexts(Sized(2, e.database) + Sized(2, e.table) + Sized(4, e.mysqlQuery) + Sized(4, e.pgQuery) + rest)
         == Got((e.database, e.table, e.mysqlQuery, e.pgQuery), rest)
  {
    hide TakeSized, Sized;
    var s3 := Sized(4, e.pgQuery) + rest;
    var s2 := Sized(4, e.mysqlQuery) + s3;
    var s1 := Sized(2, e.table) + s2;
    assert Sized(2, e.database) + Sized(2, e.table) + Sized(4, e.mysqlQuery) + Sized(4, e.pgQuery) + rest
        == Sized(2, e.database) + s1;
    TakeSizedOf(2, e.database, s1);
    TakeSizedOf(2, e.table, s2);
    TakeSizedOf(4, e.mysqlQuery, s3);
    TakeSizedOf(4, e.pgQuery, rest);
  }

  /** The record format round-trips in front of anything. */
  lemma RecordRoundTrip(e: LogEvent, rest: Bytes)
    requires Recordable(e)
    ensures TakeRecord(RecordBytes(e) + rest) == Got(e, rest)
  {
    hide BE, TakeBE, TakeSigned, TakeTexts, Sized, FitsSigned;
    var s4 := BE(Unsigned(e.execTime, 8), 8) + rest;
    var s3 := BE(Unsigned(e.rowsAffected, 8), 8) + s4;
    var texts := Sized(2, e.database) + Sized(2, e.table) + Sized(4, e.mysqlQuery) + Sized(4, e.pgQuery);
    var s1 := [e.eventType] + (texts + s3);
    var s0 := BE(Unsigned(e.nanos, 8), 8) + s1;
    assert RecordBytes(e) + rest == BE(RecordSize(e), 4) + s0;
    TakeBEOfBE(RecordSize(e), 4, s0);
    TakeSignedOf(e.nanos, s1);
    assert s1[1..] == texts + s3;
    TakeTextsOf(e, s3);
    TakeSignedOf(e.rowsAffected, s4);
    TakeSignedOf(e.execTime, rest);
  }

  // ------------------------------------------------------------- the unbuffered log

  /** One event written: the file and the offset stamped on it. */
  datatype Entry = Entry(file: nat, pos: nat, event: LogEvent)

  /** An append-only log: per file its bytes and what it started with, the current file, and the entries so far. */
  datatype Log = Log(files: map<nat, Bytes>, starts: map<nat, Bytes>, cur: nat, entries: seq<Entry>)

  predicate WellFormed(l: Log) {
    l.cur in l.files && l.files.Keys == l.starts.Keys && forall f :: f in l.files ==> f <= l.cur
  }

  /** Rotation: a new file that starts with the header. */
  function Rotate(l: Log, header: Bytes): Log {
    l.(files := l.files[l.cur + 1 := header], starts := l.starts[l.cur + 1 := header], cur := l.cur + 1)
  }

  function RotateIfFull(l: Log, max: nat, header: Bytes): Log
    requires WellFormed(l)
  {
    if |l.files[l.cur]| >= max then Rotate(l, header) else l
  }

  function AppendEvent(l: Log, max: nat, header: Bytes, e: LogEvent): Log
    requires WellFormed(l)
  {
    var l1 := RotateIfFull(l, max, header);
    l1.(files := l1.files[l1.cur := l1.files[l1.cur] + RecordBytes(e)],
        entries := l1.entries + [Entry(l1.cur, |l1.files[l1.cur]|, e)])
  }

  // ------------------------------------------------------------------------- the writer

  datatype SyncMode = Async | Sync | Fsync

  class Writer {
    const maxFileSize: nat
    const syncMode: SyncMode
    const buffer: array<byte>
    var bufPos: nat
    var position: nat
    var fileNum: nat
    var files: map<nat, Bytes>
    ghost var starts: map<nat, Bytes>
    ghost var entries: seq<Entry>

    /** position is the length of the current file plus the bytes still in the buffer. */
    ghost predicate Valid()
      reads this, buffer
    {
      && bufPos <= buffer.Length
      && fileNum in files && files.Keys == starts.Keys && (forall f :: f in files ==> f <= fileNum)
      && position == |files[fileNum]| + bufPos
    }

    /** The unbuffered log this writer stands for: the files, with the buffer appended to the current one. */
    ghost function View(): (l: Log)
      reads this, buffer
      requires Valid()
      ensures WellFormed(l)
    {
      Log(files[fileNum := files[fileNum] + buffer[..bufPos]], starts, fileNum, entries)
    }

    /** openOrCreateFile: continues the latest file, or starts the next one when that is full. */
    constructor (maxFileSize: nat, syncMode: SyncMode, bufferSize: nat, disk: map<nat, Bytes>, header: Bytes)
      ensures Valid() && fresh(buffer) && buffer.Length == bufferSize
      ensures this.maxFileSize == maxFileSize && this.syncMode == syncMode
      ensures View() == OpenLog(disk, maxFileSize, header)
    {
      this.maxFileSize := maxFileSize;
      this.syncMode := syncMode;
      buffer := new byte[bufferSize];
      bufPos, position, fileNum := 0, 0, 0;
      files, starts, entries := disk, disk, [];
      new;
      if disk != map[] {
        var maxNum := MaxKey(disk.Keys);
        fileNum := maxNum;
        if |disk[maxNum]| >= maxFileSize {
          fileNum := fileNum + 1;
        } else {
          position := |disk[maxNum]|;
        }
      }
      CreateNewFile(header);
      assert files[fileNum] + buffer[..0] == files[fileNum];
    }

    /** createNewFile: the header goes in only when the file is new or empty. */
    method CreateNewFile(header: Bytes)
      modifies this`position, this`files, this`starts
      requires bufPos == 0 && files.Keys == starts.Keys
      ensures fileNum !in old(files) || old(files)[fileNum] == [] ==>
                position == |header| && files == old(files)[fileNum := header] && starts == old(starts)[fileNum := header]
      ensures fileNum in old(files) && old(files)[fileNum] != [] ==>
                position == old(position) && files == old(files) && starts == old(starts)
    {
      if fileNum !in files || files[fileNum] == [] {
        files := files[fileNum := header];
        starts := starts[fileNum := header];
        position := |header|;
      }
    }

    /** flushBuffer with a successful write. */
    method FlushBuffer()
      requires Valid()
      modifies this`bufPos, this`files
      ensures Valid() && View() == old(View()) && bufPos == 0
      ensures files == old(View()).files && position == old(position)
    {
      if bufPos == 0 {
        assert files[fileNum] + buffer[..0] == files[fileNum];
        assert files == files[fileNum := files[fileNum]];
        return;
      }
      files := files[fileNum := files[fileNum] + buffer[..bufPos]];
      bufPos := 0;
      assert files[fileNum] + buffer[..0] == files[fileNum];
    }

    method RotateFile(header: Bytes)
      requires Valid()
      modifies this`bufPos, this`files, this`starts, this`fileNum, this`position
      ensures Valid() && View() == Rotate(old(View()), header) && bufPos == 0
    {
      FlushBuffer();
      fileNum := fileNum + 1;
      position := 0;
      CreateNewFile(header);
      assert files[fileNum] + buffer[..0] == files[fileNum];
    }

    /** writeEvent in the binary format.  `header` is the header text a rotation would write.  A record larger than the
        whole buffer is cut by copy while the counters advance by its full length: the writer is left with a buffer
        position beyond its buffer, on which the next flush, at once in sync mode, panics. */
    method WriteEvent(e: LogEvent, header: Bytes) returns (stamped: nat, panics: bool)
      requires Valid()
      modifies this, buffer
      ensures Valid() <==> RecordSize(e) <= buffer.Length
      ensures panics <==> RecordSize(e) > buffer.Length && syncMode == Sync
      ensures Valid() ==> View() == AppendEvent(old(View()), maxFileSize, header, e)
      ensures Valid() ==> stamped == View().entries[|old(entries)|].pos
      ensures syncMode == Sync && !panics ==> bufPos == 0
    {
      hide RecordBytes, Rotate;
      panics := false;
      if position >= maxFileSize {
        RotateFile(header);
      }
      ghost var room := View();
      assert room == RotateIfFull(old(View()), maxFileSize, header);
      stamped := position;
      var data := SerializeBinary(e);
      if bufPos + |data| > buffer.Length {
        FlushBuffer();
      }
      assert View() == room;
      if |data| > buffer.Length {
        Put(buffer, 0, data[..buffer.Length]);
        bufPos := bufPos + |data|;
        position := position + |data|;
        panics := syncMode == Sync;
        return;
      }
      Store(data, e);
      if syncMode == Sync {
        FlushBuffer();
      }
    }

    /** copy(w.buffer[w.bufPos:], data), and the two counters. */
    method Store(data: Bytes, ghost e: LogEvent)
      requires Valid() && bufPos + |data| <= buffer.Length
      modifies this`bufPos, this`position, this`entries, buffer
      ensures Valid()
      ensures View() == old(View()).(files := old(View()).files[fileNum := old(View()).files[fileNum] + data],
                                     entries := old(entries) + [Entry(fileNum, old(position), e)])
    {
      ghost var file, head, before := files[fileNum], buffer[..bufPos], View();
      Put(buffer, bufPos, data);
      bufPos := bufPos + |data|;
      entries := entries + [Entry(fileNum, position, e)];
      position := position + |data|;
      assert file + (head + data) == file + head + data;
      assert View().files == before.files[fileNum := before.files[fileNum] + data];
    }

    /** GetPosition agrees with the unbuffered log. */
    method GetPosition() returns (f: nat, p: nat)
      requires Valid()
      ensures f == View().cur && p == |View().files[f]|
    {
      f, p := fileNum, position;
    }
  }

  ghost function MaxOf(keys: set<nat>): (k: nat)
    requires keys != {}
    ensures k in keys && forall j :: j in keys ==> j <= k
  {
    var x :| x in keys;
    if keys == {x} then x
    else
      assert keys == {x} + (keys - {x});
      var y := MaxOf(keys - {x});
      if x > y then x else y
  }

  method MaxKey(keys: set<nat>) returns (k: nat)
    requires keys != {}
    ensures k == MaxOf(keys)
  {
    var todo := keys;
    k := 0;
    while todo != {}
      invariant todo <= keys && (k == 0 || k in keys)
      invariant forall j :: j in keys && j !in todo ==> j <= k
      decreases todo
    {
      var j :| j in todo;
      todo := todo - {j};
      if j > k {
        k := j;
      }
    }
    ghost var m := MaxOf(keys);
    assert m <= k;
  }

  /** The log a writer opens on the files found in its directory. */
  ghost function OpenLog(disk: map<nat, Bytes>, max: nat, header: Bytes): Log {
    if disk == map[] then Log(map[0 := header], map[0 := header], 0, [])
    else
      var m := MaxOf(disk.Keys);
      if |disk[m]| >= max then Log(disk[m + 1 := header], disk[m + 1 := header], m + 1, [])
      else if disk[m] == [] then Log(disk[m := header], disk[m := header], m, [])
      else Log(disk, disk, m, [])
  }

  // ------------------------------------------------------------------------- every run

  datatype WriteOp = WriteOp(header: Bytes, event: LogEvent)

  lemma AppendWellFormed(l: Log, max: nat, header: Bytes, e: LogEvent)
    requires WellFormed(l)
    ensures WellFormed(AppendEvent(l, max, header, e))
  {
  }

  /** The log after a run of writes; flushes do not appear in it because they do not change it. */
  function RunLog(l: Log, max: nat, ops: seq<WriteOp>): (r: Log)
    requires WellFormed(l)
    ensures WellFormed(r)
    decreases |ops|
  {
    if ops == [] then l
    else
      AppendWellFormed(l, max, ops[0].header, ops[0].event);
      RunLog(AppendEvent(l, max, ops[0].header, ops[0].event), max, ops[1..])
  }

  /** The records of one file, in order. */
  function RecordsIn(entries: seq<Entry>, f: nat): Bytes {
    if entries == [] then []
    else
      var e := entries[|entries| - 1];
      RecordsIn(entries[..|entries| - 1], f) + (if e.file == f then RecordBytes(e.event) else [])
  }

  lemma RecordsInAppend(entries: seq<Entry>, e: Entry, f: nat)
    ensures RecordsIn(entries + [e], f) == RecordsIn(entries, f) + (if e.file == f then RecordBytes(e.event) else [])
  {
    assert (entries + [e])[..|entries|] == entries;
  }

  /** Entry k lies whole inside its file at the offset stamped on it. */
  predicate Stamped(l: Log, e: Entry) {
    && e.file in l.files
    && e.pos + RecordSize(e.event) <= |l.files[e.file]|
    && l.files[e.file][e.pos..e.pos + RecordSize(e.event)] == RecordBytes(e.event)
  }

  /** Files are exactly what they started with followed by their records. */
  predicate Tiled(l: Log, f: nat)
    requires f in l.files && f in l.starts
  {
    l.files[f] == l.starts[f] + RecordsIn(l.entries, f)
  }

  /** A file stops growing at the first record that takes it to the limit. */
  predicate SizeOk(l: Log, max: nat, limit: nat, first: nat, f: nat)
    requires f in l.files && f in l.starts
  {
    && (first <= f < l.cur ==> |l.files[f]| >= max)
    && (first <= f && |l.starts[f]| < max ==> |l.files[f]| < max + limit)
  }

  predicate LogOk(l: Log, max: nat, limit: nat, first: nat) {
    && WellFormed(l) && first <= l.cur && limit > 0
    && (forall k :: 0 <= k < |l.entries| ==> Stamped(l, l.entries[k]))
    && (forall f :: f in l.files ==> Tiled(l, f))
    && (forall f :: f in l.files ==> SizeOk(l, max, limit, first, f))
  }

  lemma RotateKeeps(l: Log, max: nat, limit: nat, first: nat, header: Bytes)
    requires LogOk(l, max, limit, first) && |l.files[l.cur]| >= max
    ensures LogOk(Rotate(l, header), max, limit, first)
  {
    hide RecordBytes, RecordSize, RecordsIn;
    var l' := Rotate(l, header);
    EntriesBelow(l);
    NoRecords(l.entries, l.cur + 1);
    forall k | 0 <= k < |l'.entries| ensures Stamped(l', l'.entries[k]) {
      assert Stamped(l, l.entries[k]);
    }
    forall f | f in l'.files ensures Tiled(l', f) && SizeOk(l', max, limit, first, f) {
      if f != l.cur + 1 {
        assert Tiled(l, f) && SizeOk(l, max, limit, first, f);
      }
    }
  }

  lemma EntriesBelow(l: Log)
    requires WellFormed(l) && forall k :: 0 <= k < |l.entries| ==> Stamped(l, l.entries[k])
    ensures forall k :: 0 <= k < |l.entries| ==> l.entries[k].file != l.cur + 1
  {
    forall k | 0 <= k < |l.entries| ensures l.entries[k].file != l.cur + 1 {
      assert Stamped(l, l.entries[k]);
    }
  }

  lemma {:induction false} NoRecords(entries: seq<Entry>, f: nat)
    requires forall k :: 0 <= k < |entries| ==> entries[k].file != f
    ensures RecordsIn(entries, f) == []
  {
    if entries != [] {
      NoRecords(entries[..|entries| - 1], f);
    }
  }

  lemma StoreKeeps(l: Log, max: nat, limit: nat, first: nat, e: LogEvent)
    requires LogOk(l, max, limit, first) && RecordSize(e) <= limit
    requires |l.files[l.cur]| < max || |l.starts[l.cur]| >= max
    ensures LogOk(l.(files := l.files[l.cur := l.files[l.cur] + RecordBytes(e)],
                     entries := l.entries + [Entry(l.cur, |l.files[l.cur]|, e)]), max, limit, first)
  {
    hide RecordBytes, RecordSize, RecordsIn;
    var entry := Entry(l.cur, |l.files[l.cur]|, e);
    var l' := l.(files := l.files[l.cur := l.files[l.cur] + RecordBytes(e)], entries := l.entries + [entry]);
    forall k | 0 <= k < |l'.entries| ensures Stamped(l', l'.entries[k]) {
      if k < |l.entries| {
        assert Stamped(l, l.entries[k]);
        if l.entries[k].file == l.cur {
          StampSurvives(l.files[l.cur], RecordBytes(e), l.entries[k]);
        }
      } else {
        assert l'.files[l.cur][entry.pos..] == RecordBytes(e);
      }
    }
    forall f | f in l'.files ensures Tiled(l', f) && SizeOk(l', max, limit, first, f) {
      assert Tiled(l, f) && SizeOk(l, max, limit, first, f);
      RecordsInAppend(l.entries, entry, f);
      assert l.starts[f] + (RecordsIn(l.entries, f) + RecordBytes(e)) == l.starts[f] + RecordsIn(l.entries, f) + RecordBytes(e);
      assert RecordsIn(l.entries, f) + [] == RecordsIn(l.entries, f);
    }
  }

  lemma StampSurvives(file: Bytes, more: Bytes, e: Entry)
    requires e.pos + RecordSize(e.event) <= |file|
    ensures (file + more)[e.pos..e.pos + RecordSize(e.event)] == file[e.pos..e.pos + RecordSize(e.event)]
  {
    hide RecordSize;
  }

  lemma AppendKeeps(l: Log, max: nat, limit: nat, first: nat, header: Bytes, e: LogEvent)
    requires LogOk(l, max, limit, first) && RecordSize(e) <= limit
    ensures LogOk(AppendEvent(l, max, header, e), max, limit, first)
  {
    hide RecordBytes, LogOk;
    assert WellFormed(l) by { LogOkWellFormed(l, max, limit, first); }
    if |l.files[l.cur]| >= max {
      RotateKeeps(l, max, limit, first, header);
      StoreKeeps(Rotate(l, header), max, limit, first, e);
    } else {
      StoreKeeps(l, max, limit, first, e);
    }
  }

  lemma LogOkWellFormed(l: Log, max: nat, limit: nat, first: nat)
    requires LogOk(l, max, limit, first)
    ensures WellFormed(l)
  {
  }

  lemma {:induction false} RunKeeps(l: Log, max: nat, limit: nat, first: nat, ops: seq<WriteOp>)
    requires LogOk(l, max, limit, first)
    requires forall i :: 0 <= i < |ops| ==> RecordSize(ops[i].event) <= limit
    ensures WellFormed(l) && LogOk(RunLog(l, max, ops), max, limit, first)
    ensures l.entries <= RunLog(l, max, ops).entries && |RunLog(l, max, ops).entries| == |l.entries| + |ops|
    ensures forall i :: 0 <= i < |ops| ==> RunLog(l, max, ops).entries[|l.entries| + i].event == ops[i].event
    decreases |ops|
  {
    hide RecordBytes, LogOk;
    LogOkWellFormed(l, max, limit, first);
    if ops != [] {
      var l1 := AppendEvent(l, max, ops[0].header, ops[0].event);
      AppendKeeps(l, max, limit, first, ops[0].header, ops[0].event);
      RunKeeps(l1, max, limit, first, ops[1..]);
      forall i | 0 <= i < |ops| ensures RunLog(l, max, ops).entries[|l.entries| + i].event == ops[i].event {
        if i > 0 {
          assert ops[i] == ops[1..][i - 1];
        }
      }
    }
  }

  lemma OpenLogOk(disk: map<nat, Bytes>, max: nat, limit: nat, header: Bytes)
    requires limit > 0
    ensures var l := OpenLog(disk, max, header); LogOk(l, max, limit, l.cur) && l.entries == []
  {
  }

  /** The log over every run: each stamped position is where decoding the binary record returns the event's fields. */
  lemma StampedPositionsDecode(disk: map<nat, Bytes>, max: nat, limit: nat, header: Bytes, ops: seq<WriteOp>, i: nat)
    requires limit > 0 && i < |ops| && Recordable(ops[i].event)
    requires forall k :: 0 <= k < |ops| ==> RecordSize(ops[k].event) <= limit
    ensures WellFormed(OpenLog(disk, max, header))
    ensures var l := RunLog(OpenLog(disk, max, header), max, ops);
            && |l.entries| == |ops|
            && l.entries[i].file in l.files && l.entries[i].pos <= |l.files[l.entries[i].file]|
            && TakeRecord(l.files[l.entries[i].file][l.entries[i].pos..]).Got?
            && TakeRecord(l.files[l.entries[i].file][l.entries[i].pos..]).value == ops[i].event
  {
    hide TakeRecord, RecordBytes, Recordable, RecordSize, OpenLog, RunLog, Tiled, SizeOk;
    var l0 := OpenLog(disk, max, header);
    OpenLogOk(disk, max, limit, header);
    RunKeeps(l0, max, limit, l0.cur, ops);
    var l := RunLog(l0, max, ops);
    var e := l.entries[i];
    assert Stamped(l, e);
    DecodeAtStamp(l.files[e.file], e);
  }

  lemma DecodeAtStamp(file: Bytes, e: Entry)
    requires e.pos + RecordSize(e.event) <= |file| && Recordable(e.event)
    requires file[e.pos..e.pos + RecordSize(e.event)] == RecordBytes(e.event)
    ensures TakeRecord(file[e.pos..]) == Got(e.event, file[e.pos + RecordSize(e.event)..])
  {
    hide TakeRecord, RecordBytes, Recordable, RecordSize;
    var end := e.pos + RecordSize(e.event);
    assert file[e.pos..] == file[e.pos..end] + file[end..];
    RecordRoundTrip(e.event, file[end..]);
  }

  /** What a file opened by rotation starts with is the header of the write that rotated. */
  ghost predicate HeaderOf(start: Bytes, ops: seq<WriteOp>) {
    exists i :: 0 <= i < |ops| && start == ops[i].header
  }

  lemma {:induction false} RunStarts(l: Log, max: nat, ops: seq<WriteOp>, f: nat)
    requires WellFormed(l) && f in RunLog(l, max, ops).starts
    ensures (f in l.starts && RunLog(l, max, ops).starts[f] == l.starts[f])
            || (f > l.cur && HeaderOf(RunLog(l, max, ops).starts[f], ops))
    decreases |ops|
  {
    hide RecordBytes;
    if ops != [] {
      AppendWellFormed(l, max, ops[0].header, ops[0].event);
      var l1 := AppendEvent(l, max, ops[0].header, ops[0].event);
      RunStarts(l1, max, ops[1..], f);
      if HeaderOf(RunLog(l, max, ops).starts[f], ops[1..]) {
        var i :| 0 <= i < |ops[1..]| && RunLog(l, max, ops).starts[f] == ops[1..][i].header;
        assert ops[i + 1] == ops[1..][i];
      } else if f !in l.starts {
        assert ops[0].header == RunLog(l, max, ops).starts[f];
      }
    }
  }

  /** The file with the highest number. */
  ghost predicate Highest(disk: map<nat, Bytes>, k: nat) {
    k in disk && forall j :: j in disk ==> j <= k
  }

  /** Opening continues the highest file, byte for byte, exactly when it is below the limit; otherwise a new file with the
      next number starts with the header, and an empty directory starts with file 0.  Nothing found on disk is lost. */
  lemma OpenLogContinues(disk: map<nat, Bytes>, max: nat, header: Bytes)
    ensures var l := OpenLog(disk, max, header);
            && (disk == map[] ==> l.cur == 0 && l.files == map[0 := header])
            && (forall k: nat :: Highest(disk, k) ==> l.cur == (if |disk[k]| < max then k else k + 1))
            && (l.cur in disk && disk[l.cur] != [] ==> l.files == disk)
            && (l.cur !in disk ==> l.files == disk[l.cur := header])
            && (forall f :: f in disk ==> f in l.files && disk[f] <= l.files[f])
  {
  }

  lemma {:induction false} RunOnlyAppends(l: Log, max: nat, ops: seq<WriteOp>, f: nat)
    requires WellFormed(l) && f in l.files
    ensures f in RunLog(l, max, ops).files && l.files[f] <= RunLog(l, max, ops).files[f]
    decreases |ops|
  {
    hide RecordBytes;
    if ops != [] {
      AppendWellFormed(l, max, ops[0].header, ops[0].event);
      RunOnlyAppends(AppendEvent(l, max, ops[0].header, ops[0].event), max, ops[1..], f);
    }
  }

  /** Over every run of writes, what was on disk stays there: each file found still begins with its bytes. */
  lemma NothingOnDiskIsLost(disk: map<nat, Bytes>, max: nat, header: Bytes, ops: seq<WriteOp>, f: nat)
    requires f in disk
    ensures WellFormed(OpenLog(disk, max, header))
    ensures var l := RunLog(OpenLog(disk, max, header), max, ops); f in l.files && disk[f] <= l.files[f]
  {
    hide OpenLog, RunLog;
    OpenLogOk(disk, max, 1, header);
    OpenLogContinues(disk, max, header);
    RunOnlyAppends(OpenLog(disk, max, header), max, ops, f);
  }

  /** No record spans two files, and every file is its start followed by whole records; a file left by rotation has
      reached the limit and, unless it started beyond it, exceeds it by less than one buffer.  A file opened by rotation
      starts with the header of one of the writes, so headers shorter than the limit bound all of them. */
  lemma FilesAreTiledAndBounded(disk: map<nat, Bytes>, max: nat, limit: nat, header: Bytes, ops: seq<WriteOp>, f: nat)
    requires limit > 0 && forall k :: 0 <= k < |ops| ==> RecordSize(ops[k].event) <= limit
    requires WellFormed(OpenLog(disk, max, header))
    requires f in RunLog(OpenLog(disk, max, header), max, ops).files
    ensures var l0 := OpenLog(disk, max, header);
            var l := RunLog(l0, max, ops);
            && f in l.starts && l.files[f] == l.starts[f] + RecordsIn(l.entries, f)
            && (l0.cur <= f < l.cur ==> |l.files[f]| >= max)
            && (l0.cur <= f && |l.starts[f]| < max ==> |l.files[f]| < max + limit)
            && (f > l0.cur ==> HeaderOf(l.starts[f], ops))
  {
    hide RunLog, RecordsIn, OpenLog, HeaderOf;
    var l0 := OpenLog(disk, max, header);
    OpenLogOk(disk, max, limit, header);
    RunKeeps(l0, max, limit, l0.cur, ops);
    var l := RunLog(l0, max, ops);
    assert Tiled(l, f) && SizeOk(l, max, limit, l0.cur, f);
    RunStarts(l0, max, ops, f);
  }

  // ---------------------------------------------------------- the writer over a run

  datatype Op = Write(op: WriteOp) | TimedFlush

  /** The writes of a run; timed flushes drop out. */
  function Writes(ops: seq<Op>): seq<WriteOp> {
    if ops == [] then [] else (if ops[0].Write? then [ops[0].op] else []) + Writes(ops[1..])
  }

  /** Any run of writes and timed flushes leaves the writer standing for the unbuffered log of its writes. */
  method Perform(w: Writer, ops: seq<Op>)
    requires w.Valid() && forall i :: 0 <= i < |ops| && ops[i].Write? ==> RecordSize(ops[i].op.event) <= w.buffer.Length
    modifies w, w.buffer
    ensures w.Valid() && w.View() == RunLog(old(w.View()), w.maxFileSize, Writes(ops))
    decreases |ops|
  {
    hide RecordSize, RecordBytes, AppendEvent;
    if ops != [] {
      ghost var before, rest := w.View(), Writes(ops[1..]);
      match ops[0] {
        case Write(op) =>
          var stamped, panics := w.WriteEvent(op.event, op.header);
          assert Writes(ops) == [op] + rest && ([op] + rest)[1..] == rest;
        case TimedFlush =>
          w.FlushBuffer();
          assert Writes(ops) == [] + rest == rest;
      }
      Perform(w, ops[1..]);
    }
  }

  /** The smallest record has 41 bytes: with a buffer of 40 its write panics in sync mode. */
  method OversizedRecordPanics() returns (panics: bool)
    ensures panics
  {
    hide RecordBytes;
    var w := new Writer(1000, Sync, 40, map[], []);
    var e := LogEvent(0, 0, [], [], [], [], 0, 0);
    assert RecordSize(e) == 41;
    var stamped: nat;
    stamped, panics := w.WriteEvent(e, []);
  }
}
