/**
  The schema cache shared by all sessions (pkg/schema/cache.go), as far as auto-increment columns are concerned.  The
  clock, the contents of the database and whether a query gets through are inputs of every call; a call is atomic.
 */
module SchemaCache {

  function LowerChar(c: char): char {
    if 'A' <= c <= 'Z' then c - 'A' + 'a' else c
  }

  function Lower(s: string): string {
    seq(|s|, i requires 0 <= i < |s| => LowerChar(s[i]))
  }

  /** The auto-increment column of every table that has one. */
  type Database = map<(string, string), string>

  /** queryAutoIncrementColumn: without a connection, on failure and without a row the answer is empty. */
  function Query(db: Database, reached: bool, schema: string, table: string): string {
    if reached && (schema, Lower(table)) in db then db[(schema, Lower(table))] else ""
  }

  /** buildTableCacheKey */
  function Key(schema: string, table: string): string {
    schema + "." + table
  }

  datatype TableInfo = TableInfo(table: string, schema: string, column: string, refreshed: int, ttl: int)

  type Tables = map<string, TableInfo>

  datatype State = State(tables: Tables, ttl: int)

  predicate Expired(info: TableInfo, now: int) {
    now - info.refreshed >= info.ttl
  }

  datatype Op =
    | Lookup(schema: string, table: string, reached: bool)
    | Refresh(schema: string, table: string, reached: bool)
    | Invalidate(schema: string, table: string)
    | InvalidateAll
    | SetTTL(ttl: int)
    | Sweep

  /** A call, the instant at which it happens and the database at that instant. */
  datatype Event = Event(at: int, db: Database, op: Op)

  function Fill(st: State, e: Event): State
    requires e.op.Lookup? || e.op.Refresh?
  {
    var column := Query(e.db, e.op.reached, e.op.schema, e.op.table);
    var info := TableInfo(e.op.table, e.op.schema, column, e.at, st.ttl);
    st.(tables := st.tables[Key(e.op.schema, e.op.table) := info])
  }

  predicate Hit(st: State, key: string, now: int) {
    key in st.tables && !Expired(st.tables[key], now)
  }

  function Apply(st: State, e: Event): State {
    match e.op
    case Lookup(schema, table, _) => if Hit(st, Key(schema, table), e.at) then st else Fill(st, e)
    case Refresh(schema, table, _) => Fill(st.(tables := st.tables - {Key(schema, table)}), e)
    case Invalidate(schema, table) => st.(tables := st.tables - {Key(schema, table)})
    case InvalidateAll => st.(tables := map[])
    case SetTTL(ttl) => st.(ttl := ttl)
    case Sweep => st.(tables := map k | k in st.tables && !Expired(st.tables[k], e.at) :: st.tables[k])
  }

  predicate Asks(op: Op) {
    op.Lookup? || op.Refresh?
  }

  /** What a lookup or a refresh answers. */
  function Answer(st: State, e: Event): string
    requires Asks(e.op)
  {
    var key := Key(e.op.schema, e.op.table);
    if e.op.Lookup? && Hit(st, key, e.at) then st.tables[key].column
    else Query(e.db, e.op.reached, e.op.schema, e.op.table)
  }

  class Cache {
    var tables: Tables
    var ttl: int

    function View(): State
      reads this
    {
      State(tables, ttl)
    }

    constructor (ttl: int)
      ensures View() == State(map[], ttl)
    {
      this.tables, this.ttl := map[], ttl;
    }

    method GetAutoIncrementColumn(now: int, db: Database, reached: bool, schema: string, table: string)
      returns (column: string)
      modifies this`tables
      ensures View() == Apply(old(View()), Event(now, db, Lookup(schema, table, reached)))
      ensures column == Answer(old(View()), Event(now, db, Lookup(schema, table, reached)))
    {
      var cacheKey := Key(schema, table);
      if cacheKey in tables {
        var info := tables[cacheKey];
        if now - info.refreshed < info.ttl {
          return info.column;
        }
      }
      column := Query(db, reached, schema, table);
      tables := tables[cacheKey := TableInfo(table, schema, column, now, ttl)];
    }

    method InvalidateTable(schema: string, table: string)
      modifies this`tables
      ensures View() == old(View()).(tables := old(tables) - {Key(schema, table)})
    {
      tables := tables - {Key(schema, table)};
    }

    /** Visits the entries in any order and deletes each. */
    method InvalidateAll()
      modifies this`tables
      ensures View() == old(View()).(tables := map[])
    {
      var keys := tables.Keys;
      while keys != {}
        invariant tables.Keys == keys
        decreases keys
      {
        var key :| key in keys;
        tables := tables - {key};
        keys := keys - {key};
      }
    }

    method RefreshTable(now: int, db: Database, reached: bool, schema: string, table: string) returns (column: string)
      modifies this`tables
      ensures View() == Apply(old(View()), Event(now, db, Refresh(schema, table, reached)))
      ensures column == Query(db, reached, schema, table)
    {
      InvalidateTable(schema, table);
      column := GetAutoIncrementColumn(now, db, reached, schema, table);
    }

    method SetTTL(ttl: int)
      modifies this`ttl
      ensures View() == old(View()).(ttl := ttl)
    {
      this.ttl := ttl;
    }

    /** refreshExpiredEntries: collects the expired keys in any order, then deletes them. */
    method RefreshExpiredEntries(now: int)
      modifies this`tables
      ensures forall db :: View() == Apply(old(View()), Event(now, db, Sweep))
    {
      var expiredKeys: seq<string> := [];
      var keys := tables.Keys;
      while keys != {}
        invariant keys <= tables.Keys
        invariant forall k :: k in expiredKeys <==> k in tables.Keys - keys && Expired(tables[k], now)
        decreases keys
      {
        var key :| key in keys;
        if now - tables[key].refreshed >= tables[key].ttl {
          expiredKeys := expiredKeys + [key];
        }
        keys := keys - {key};
      }
      ghost var was := tables;
      for i := 0 to |expiredKeys|
        invariant tables.Keys <= was.Keys
        invariant forall k :: k in was ==> (k in tables <==> k !in expiredKeys[..i])
        invariant forall k :: k in tables ==> tables[k] == was[k]
      {
        assert expiredKeys[..i + 1] == expiredKeys[..i] + [expiredKeys[i]];
        tables := tables - {expiredKeys[i]};
      }
      assert expiredKeys[..|expiredKeys|] == expiredKeys;
    }
  }

  // ------------------------------------------------------------------------ bounded staleness

  type History = seq<Event>

  function Run(ttl: int, h: History): State {
    if h == [] then State(map[], ttl) else Apply(Run(ttl, h[..|h| - 1]), h[|h| - 1])
  }

  /** The time to live set last. */
  function LastTTL(ttl: int, h: History): int {
    if h == [] then ttl
    else if h[|h| - 1].op.SetTTL? then h[|h| - 1].op.ttl
    else LastTTL(ttl, h[..|h| - 1])
  }

  lemma {:induction false} TTLInForce(ttl: int, h: History)
    ensures Run(ttl, h).ttl == LastTTL(ttl, h)
  {
    if h != [] {
      TTLInForce(ttl, h[..|h| - 1]);
    }
  }

  predicate Invalidates(op: Op, key: string) {
    match op
    case Invalidate(schema, table) => Key(schema, table) == key
    case InvalidateAll => true
    case Refresh(schema, table, _) => Key(schema, table) == key
    case _ => false
  }

  /** The entry was written by call `j`, under the time to live then in force, and no later call invalidates it. */
  predicate WrittenBy(ttl: int, h: History, key: string, info: TableInfo, j: nat)
    requires j < |h|
  {
    var e := h[j];
    && Asks(e.op) && Key(e.op.schema, e.op.table) == key
    && info == TableInfo(e.op.table, e.op.schema, Query(e.db, e.op.reached, e.op.schema, e.op.table), e.at,
                         Run(ttl, h[..j]).ttl)
    && forall m :: j < m < |h| ==> !Invalidates(h[m].op, key)
  }

  ghost predicate Traced(ttl: int, h: History, key: string, info: TableInfo) {
    exists j: nat :: j < |h| && WrittenBy(ttl, h, key, info, j)
  }

  ghost predicate AllTraced(ttl: int, h: History, tables: Tables) {
    forall k :: k in tables ==> Traced(ttl, h, k, tables[k])
  }

  lemma TracedOn(ttl: int, h: History, e: Event, key: string, info: TableInfo)
    requires Traced(ttl, h, key, info) && !Invalidates(e.op, key)
    ensures Traced(ttl, h + [e], key, info)
  {
    hide Invalidates, Run, Query, Key;
    var j: nat :| j < |h| && WrittenBy(ttl, h, key, info, j);
    assert (h + [e])[..j] == h[..j];
    assert WrittenBy(ttl, h + [e], key, info, j);
  }

  lemma TracedFill(ttl: int, h: History, e: Event)
    requires Asks(e.op)
    ensures var column := Query(e.db, e.op.reached, e.op.schema, e.op.table);
            Traced(ttl, h + [e], Key(e.op.schema, e.op.table),
                   TableInfo(e.op.table, e.op.schema, column, e.at, Run(ttl, h).ttl))
  {
    hide Invalidates, Run, Query, Key;
    var g := h + [e];
    assert g[..|h|] == h && g[|h|] == e;
    var column := Query(e.db, e.op.reached, e.op.schema, e.op.table);
    assert WrittenBy(ttl, g, Key(e.op.schema, e.op.table),
                     TableInfo(e.op.table, e.op.schema, column, e.at, Run(ttl, h).ttl), |h|);
  }

  lemma ApplyKeepsTraced(ttl: int, h: History, e: Event)
    requires AllTraced(ttl, h, Run(ttl, h).tables)
    ensures AllTraced(ttl, h + [e], Apply(Run(ttl, h), e).tables)
  {
    hide Traced, Run, Query, Key;
    var st := Run(ttl, h);
    var next := Apply(st, e);
    if Asks(e.op) {
      TracedFill(ttl, h, e);
    }
    forall k | k in next.tables ensures Traced(ttl, h + [e], k, next.tables[k]) {
      if !(Asks(e.op) && k == Key(e.op.schema, e.op.table) && !(e.op.Lookup? && Hit(st, k, e.at))) {
        TracedOn(ttl, h, e, k, next.tables[k]);
      }
    }
  }

  lemma {:induction false} RunTraced(ttl: int, h: History)
    ensures AllTraced(ttl, h, Run(ttl, h).tables)
  {
    if h != [] {
      var g, e := h[..|h| - 1], h[|h| - 1];
      assert h == g + [e];
      RunTraced(ttl, g);
      ApplyKeepsTraced(ttl, g, e);
    }
  }

  /** Call `j` asked for the same key at most its time to live ago, nothing has invalidated the key since, and the answer
      of call `i` is what the direct query of call `j` gave. */
  ghost predicate Vouches(ttl: int, h: History, i: nat, j: nat)
    requires j <= i < |h| && Asks(h[i].op)
  {
    var e, f := h[i], h[j];
    && Asks(f.op) && Key(f.op.schema, f.op.table) == Key(e.op.schema, e.op.table)
    && (j < i ==> e.at - f.at < LastTTL(ttl, h[..j]))
    && (forall m :: j < m <= i ==> !Invalidates(h[m].op, Key(e.op.schema, e.op.table)))
    && Answer(Run(ttl, h[..i]), e) == Query(f.db, f.op.reached, f.op.schema, f.op.table)
  }

  /** Every answer in every run is a direct query's answer at a recent enough instant. */
  lemma BoundedStaleness(ttl: int, h: History, i: nat)
    requires i < |h| && Asks(h[i].op)
    ensures exists j: nat :: j <= i && Vouches(ttl, h, i, j)
  {
    hide Run, Query, Key;
    var e, g := h[i], h[..i];
    var key, st := Key(e.op.schema, e.op.table), Run(ttl, g);
    if e.op.Lookup? && Hit(st, key, e.at) {
      RunTraced(ttl, g);
      assert Traced(ttl, g, key, st.tables[key]);
      var j: nat :| j < |g| && WrittenBy(ttl, g, key, st.tables[key], j);
      assert g[..j] == h[..j] && g[j] == h[j];
      TTLInForce(ttl, h[..j]);
      forall m | j < m <= i ensures !Invalidates(h[m].op, key) {
        assert m < i ==> g[m] == h[m];
      }
      assert Vouches(ttl, h, i, j);
    } else {
      assert Vouches(ttl, h, i, i);
    }
  }

  // ------------------------------------------------------------------------- the cache is used

  predicate ClockRuns(h: History) {
    forall i, j :: 0 <= i <= j < |h| ==> h[i].at <= h[j].at
  }

  /** An entry that is still fresh at time `t` survives every call up to then that does not invalidate it. */
  lemma FreshSurvives(st: State, e: Event, key: string, t: int)
    requires Hit(st, key, t) && e.at <= t && !Invalidates(e.op, key)
    ensures key in Apply(st, e).tables && Apply(st, e).tables[key] == st.tables[key]
  {
    hide Key, Query;
  }

  lemma {:induction false} FreshSurvivesRun(ttl: int, h: History, j: nat, i: nat, key: string, t: int)
    requires j <= i <= |h| && Hit(Run(ttl, h[..j]), key, t)
    requires forall m :: j <= m < i ==> h[m].at <= t && !Invalidates(h[m].op, key)
    ensures key in Run(ttl, h[..i]).tables && Run(ttl, h[..i]).tables[key] == Run(ttl, h[..j]).tables[key]
    decreases i
  {
    hide Apply, Invalidates;
    if j < i {
      FreshSurvivesRun(ttl, h, j, i - 1, key, t);
      assert h[..i][..i - 1] == h[..i - 1] && h[..i][i - 1] == h[i - 1];
      FreshSurvives(Run(ttl, h[..i - 1]), h[i - 1], key, t);
    }
  }

  lemma AnswerIsStored(st: State, e: Event)
    requires Asks(e.op)
    ensures var key := Key(e.op.schema, e.op.table);
            && key in Apply(st, e).tables && Apply(st, e).tables[key].column == Answer(st, e)
            && (e.op.Refresh? ==> Apply(st, e).tables[key].refreshed == e.at && Apply(st, e).tables[key].ttl == st.ttl)
  {
    hide Key, Query;
  }

  /** Within its time to live an answer is repeated without a query: after a refresh, a lookup of the same key that nothing
      has invalidated gives the answer of the refresh, whatever the database has become. */
  lemma RefreshIsRemembered(ttl: int, h: History, j: nat, i: nat)
    requires j < i < |h| && ClockRuns(h) && h[j].op.Refresh? && h[i].op.Lookup?
    requires Key(h[i].op.schema, h[i].op.table) == Key(h[j].op.schema, h[j].op.table)
    requires h[i].at - h[j].at < LastTTL(ttl, h[..j])
    requires forall m :: j < m < i ==> !Invalidates(h[m].op, Key(h[i].op.schema, h[i].op.table))
    ensures Answer(Run(ttl, h[..i]), h[i]) == Query(h[j].db, h[j].op.reached, h[j].op.schema, h[j].op.table)
  {
    hide Key, Query, Apply, Invalidates;
    var key := Key(h[i].op.schema, h[i].op.table);
    assert h[..j + 1][..j] == h[..j] && h[..j + 1][j] == h[j];
    TTLInForce(ttl, h[..j]);
    AnswerIsStored(Run(ttl, h[..j]), h[j]);
    FreshSurvivesRun(ttl, h, j + 1, i, key, h[i].at);
  }

  /** A sweep removes the expired entries and no others. */
  lemma SweepRemovesExpired(st: State, now: int, db: Database, key: string)
    ensures var after := Apply(st, Event(now, db, Sweep)).tables;
            && (key in after <==> key in st.tables && now - st.tables[key].refreshed < st.tables[key].ttl)
            && (key in after ==> after[key] == st.tables[key])
  {
  }

  /** The direct query takes the table's name in any case and the schema's as it is. */
  lemma QueryFoldsTableCase()
    ensures var db := map[("s", "orders") := "id"];
            && Query(db, true, "s", "Orders") == "id" && Query(db, true, "S", "orders") == ""
            && Query(db, false, "s", "orders") == "" && Query(db, true, "s", "other") == ""
  {
    assert Lower("Orders") == "orders" && Lower("orders") == "orders" && Lower("other") == "other";
    assert "other" != "orders" && "S" != "s" by { assert "S"[0] != "s"[0]; }
  }

  // ------------------------------------------------------------------------------- the keys

  predicate DotFree(s: string) {
    '.' !in s
  }

  /** With dot-free schemas a key names one schema and one table. */
  lemma {:induction false} KeyInjective(s: string, t: string, s': string, t': string)
    requires DotFree(s) && DotFree(s')
    ensures Key(s, t) == Key(s', t') <==> s == s' && t == t'
  {
    var k, k' := Key(s, t), Key(s', t');
    if k == k' {
      assert k[|s|] == '.' && k'[|s'|] == '.';
      assert forall i :: 0 <= i < |s| ==> k[i] == s[i];
      assert forall i :: 0 <= i < |s'| ==> k'[i] == s'[i];
      assert |s| == |s'|;
      assert s == k[..|s|] && s' == k'[..|s'|] && t == k[|s| + 1..] && t' == k'[|s'| + 1..];
    }
  }

  /** One schema's name, with a dot behind it, opens the other's. */
  predicate OpensWithDot(s: string, s': string) {
    s + "." <= s'
  }

  /** Two schemas can share a key exactly when they are different and one opens the other up to a dot. */
  lemma KeysCollideIff(s: string, s': string)
    ensures (exists t, t' :: Key(s, t) == Key(s', t') && (s, t) != (s', t'))
       <==> s != s' && (OpensWithDot(s, s') || OpensWithDot(s', s))
  {
    if t, t' :| Key(s, t) == Key(s', t') && (s, t) != (s', t') {
      SharedKey(s, t, s', t');
    }
    if s != s' && OpensWithDot(s, s') {
      var t := s'[|s| + 1..] + ".";
      assert Key(s, t) == Key(s', "");
    }
    if s != s' && OpensWithDot(s', s) {
      var t' := s[|s'| + 1..] + ".";
      assert Key(s, "") == Key(s', t');
    }
  }

  lemma SharedKey(s: string, t: string, s': string, t': string)
    requires Key(s, t) == Key(s', t') && (s, t) != (s', t')
    ensures s != s' && (OpensWithDot(s, s') || OpensWithDot(s', s))
  {
    var k := Key(s, t);
    assert k[|s|] == '.' && k[|s'|] == '.' && k[..|s|] == s && k[..|s'|] == s';
    assert k[|s| + 1..] == t && k[|s'| + 1..] == t';
    if |s| < |s'| {
      assert s'[..|s| + 1] == k[..|s| + 1] == s + ".";
    } else if |s'| < |s| {
      assert s[..|s'| + 1] == k[..|s'| + 1] == s' + ".";
    }
  }

  lemma DottedKeysCollide()
    ensures Key("a.b", "c") == Key("a", "b.c")
  {
  }

  /** No two schemas asked for can share a key. */
  predicate KeysApart(h: History) {
    forall i, j :: 0 <= i < |h| && 0 <= j < |h| && Asks(h[i].op) && Asks(h[j].op) ==>
      h[i].op.schema == h[j].op.schema || !OpensWithDot(h[i].op.schema, h[j].op.schema)
  }

  /** So the instant that vouches for an answer asked for the very same table. */
  lemma BoundedStalenessOfTable(ttl: int, h: History, i: nat)
    requires i < |h| && Asks(h[i].op) && KeysApart(h)
    ensures exists j: nat ::
              && j <= i && Vouches(ttl, h, i, j)
              && h[j].op.schema == h[i].op.schema && h[j].op.table == h[i].op.table
              && Answer(Run(ttl, h[..i]), h[i]) == Query(h[j].db, h[j].op.reached, h[i].op.schema, h[i].op.table)
  {
    hide Run, Query, Key, Answer, OpensWithDot;
    BoundedStaleness(ttl, h, i);
    var j: nat :| j <= i && Vouches(ttl, h, i, j);
    var e, f := h[i].op, h[j].op;
    if (f.schema, f.table) != (e.schema, e.table) {
      SharedKey(f.schema, f.table, e.schema, e.table);
    }
  }

  predicate NoDotsAsked(h: History) {
    forall m :: 0 <= m < |h| && Asks(h[m].op) ==> DotFree(h[m].op.schema)
  }

  /** Dot-free schema names are one way to keep keys apart. */
  lemma DotFreeKeysApart(h: History)
    requires NoDotsAsked(h)
    ensures KeysApart(h)
  {
    forall i, j | 0 <= i < |h| && 0 <= j < |h| && Asks(h[i].op) && Asks(h[j].op)
      ensures !OpensWithDot(h[i].op.schema, h[j].op.schema)
    {
      OpensHasDot(h[i].op.schema, h[j].op.schema);
    }
  }

  lemma OpensHasDot(s: string, s': string)
    ensures OpensWithDot(s, s') ==> !DotFree(s')
  {
    if OpensWithDot(s, s') {
      assert s'[|s|] == (s + ".")[|s|];
    }
  }

  /** Keys keep the case of a table's name and queries do not: a DDL statement that spells the name differently changes
      the table and leaves the entry. */
  lemma OtherSpellingStaysStale()
    ensures var h := [Event(0, map[("s", "t") := "id"], Lookup("s", "t", true)),
                      Event(1, map[], Invalidate("s", "T")),
                      Event(2, map[], Lookup("s", "t", true))];
            Answer(Run(300, h[..2]), h[2]) == "id" && Query(h[2].db, true, "s", "t") == ""
  {
    var db := map[("s", "t") := "id"];
    var h := [Event(0, db, Lookup("s", "t", true)), Event(1, map[], Invalidate("s", "T")),
              Event(2, map[], Lookup("s", "t", true))];
    FirstFill(300, db, true);
    assert h[..2] == h[..1] + [h[1]] && h[..2][..1] == h[..1] && h[..1] == [h[0]];
    InvalidationReachesIff("s", "T", "t");
  }

  /** An invalidation reaches the entry of a name exactly when it is spelled the same. */
  lemma InvalidationReachesIff(schema: string, t: string, u: string)
    ensures Invalidates(Invalidate(schema, t), Key(schema, u)) <==> t == u
  {
    var k, l := Key(schema, t), Key(schema, u);
    assert t == k[|schema| + 1..] && u == l[|schema| + 1..];
  }

  /** The answer that call `j` vouches for is the database's own answer at that call exactly when the query of call `j` got
      through or there was nothing to find. */
  lemma AnswerReflectsDatabaseIff(ttl: int, h: History, i: nat, j: nat)
    requires j <= i < |h| && Asks(h[i].op) && Vouches(ttl, h, i, j)
    ensures var f := h[j];
            var truth := Query(f.db, true, f.op.schema, f.op.table);
            Answer(Run(ttl, h[..i]), h[i]) == truth <==> f.op.reached || truth == ""
  {
    hide Run, Answer;
  }

  /** An answer recorded without a connection is served to others until it expires. */
  lemma MissingConnectionIsRemembered()
    ensures var db := map[("s", "t") := "id"];
            var h := [Event(0, db, Lookup("s", "t", false)), Event(1, db, Lookup("s", "t", true))];
            Answer(Run(300, h[..1]), h[1]) == "" && Query(db, true, "s", "t") == "id"
  {
    var db := map[("s", "t") := "id"];
    FirstFill(300, db, false);
    var h := [Event(0, db, Lookup("s", "t", false)), Event(1, db, Lookup("s", "t", true))];
    assert h[..1] == [h[0]];
    assert Lower("t") == "t";
  }

  lemma FirstFill(ttl: int, db: Database, reached: bool)
    ensures var e := Event(0, db, Lookup("s", "t", reached));
            Run(ttl, [e]).tables
            == map[Key("s", "t") := TableInfo("t", "s", if reached && ("s", "t") in db then db[("s", "t")] else "", 0, ttl)]
  {
    var e := Event(0, db, Lookup("s", "t", reached));
    assert [e][..0] == [];
    assert Lower("t") == "t";
  }
}
