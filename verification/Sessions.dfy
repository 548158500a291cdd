/**
  A client's session and the PostgreSQL connection behind it (pkg/session/session.go and pkg/protocol/mysql/handler.go).
  The answer of every backend call is an input.
 */
module Sessions {
  import opened Wrappers

  // ------------------------------------------------------------------------------- backend

  /** Where the backend stands.  `saved` is the search path in force at BEGIN: a rollback brings it back. */
  datatype Tx = Idle | Open(saved: string) | Failed(saved: string)

  /** A connection, with the statements done in the open transaction and those that are done for good. */
  datatype Conn = Conn(tx: Tx, path: string, work: seq<nat>, kept: seq<nat>)

  datatype Command = Begin | Commit | Rollback | SetPath(path: string) | Statement(id: nat)

  /** Run: the server carries the command out.  Lost: it never reaches the server.  Raised: the server raises an error
      while carrying it out, which fails an open transaction; a COMMIT that raises ends it. */
  datatype Outcome = Run | Lost | Raised

  function Failing(c: Conn): Conn {
    if c.tx.Open? then c.(tx := Failed(c.tx.saved)) else c
  }

  function RolledBack(c: Conn): Conn {
    if c.tx.Idle? then c else Conn(Idle, c.tx.saved, [], c.kept)
  }

  /** The statements of the transaction are done for good. */
  function Committed(c: Conn): Conn {
    if c.tx.Idle? then c else Conn(Idle, c.path, [], c.kept + c.work)
  }

  function Done(c: Conn, id: nat): Conn {
    if c.tx.Idle? then c.(kept := c.kept + [id]) else c.(work := c.work + [id])
  }

  /** The connection after a command, and whether the caller sees success. */
  function Effect(c: Conn, cmd: Command, out: Outcome): (Conn, bool) {
    match out
    case Lost => (c, false)
    case Raised => (if cmd.Commit? then RolledBack(c) else Failing(c), false)
    case Run =>
      match cmd
      case Begin =>
        if c.tx.Failed? then (c, false) else (if c.tx.Idle? then c.(tx := Open(c.path)) else c, true)
      case Commit => (if c.tx.Failed? then RolledBack(c) else Committed(c), true)
      case Rollback => (RolledBack(c), true)
      case SetPath(path) =>
        if c.tx.Failed? || path == "" then (Failing(c), false) else (c.(path := path), true)
      case Statement(id) => if c.tx.Failed? then (c, false) else (Done(c, id), true)
  }

  class Backend {
    var conn: Conn

    constructor (path: string)
      ensures conn == Conn(Idle, path, [], [])
    {
      conn := Conn(Idle, path, [], []);
    }

    method Exec(cmd: Command, out: Outcome) returns (ok: bool)
      modifies this
      ensures (conn, ok) == Effect(old(conn), cmd, out)
    {
      var r := Effect(conn, cmd, out);
      conn := r.0;
      ok := r.1;
    }
  }

  // ------------------------------------------------------------------------------- session

  datatype SessionState = SessionState(database: string, autocommit: bool, inTransaction: bool, conn: Option<Conn>)

  /** One command sent on the session's connection; on success the flag takes the given value. */
  function Send(s: SessionState, cmd: Command, out: Outcome, flag: bool): (SessionState, bool)
    requires s.conn.Some?
  {
    var (c, ok) := Effect(s.conn.value, cmd, out);
    (s.(conn := Some(c), inTransaction := if ok then flag else s.inTransaction), ok)
  }

  function Starting(s: SessionState, out: Outcome): (SessionState, bool) {
    if s.inTransaction then (s, true) else if s.conn.None? then (s, false) else Send(s, Begin, out, true)
  }

  /** COMMIT and ROLLBACK */
  function Ending(s: SessionState, cmd: Command, out: Outcome): (SessionState, bool) {
    if !s.inTransaction then (s, true) else if s.conn.None? then (s, false) else Send(s, cmd, out, false)
  }

  function WithAutocommit(s: SessionState, on: bool, out: Outcome): (SessionState, bool) {
    var t := s.(autocommit := on);
    if s.autocommit == on || s.conn.None? then (t, true)
    else if on && s.inTransaction then Send(t, Commit, out, false)
    else if !on && !s.inTransaction then Send(t, Begin, out, true)
    else (t, true)
  }

  class Session {
    var database: string
    var autocommit: bool
    var inTransaction: bool
    var pgConn: Backend?

    constructor (database: string)
      ensures View() == SessionState(database, true, false, None) && pgConn == null
    {
      this.database, autocommit, inTransaction, pgConn := database, true, false, null;
    }

    function View(): SessionState
      reads this, pgConn
    {
      SessionState(database, autocommit, inTransaction, if pgConn == null then None else Some(pgConn.conn))
    }

    method SetAutocommit(on: bool, out: Outcome) returns (ok: bool)
      modifies this`autocommit, this`inTransaction, pgConn
      ensures (View(), ok) == WithAutocommit(old(View()), on, out)
    {
      if autocommit == on {
        return true;
      }
      autocommit := on;
      if pgConn == null {
        return true;
      }
      ok := true;
      if on && inTransaction {
        ok := pgConn.Exec(Commit, out);
        if !ok {
          return;
        }
        inTransaction := false;
      } else if !on && !inTransaction {
        ok := pgConn.Exec(Begin, out);
        if !ok {
          return;
        }
        inTransaction := true;
      }
    }

    method BeginTransaction(out: Outcome) returns (ok: bool)
      modifies this`inTransaction, pgConn
      ensures (View(), ok) == Starting(old(View()), out)
    {
      if inTransaction {
        return true;
      }
      if pgConn == null {
        return false;
      }
      ok := pgConn.Exec(Begin, out);
      if !ok {
        return;
      }
      inTransaction := true;
    }

    method CommitTransaction(out: Outcome) returns (ok: bool)
      modifies this`inTransaction, pgConn
      ensures (View(), ok) == Ending(old(View()), Commit, out)
    {
      if !inTransaction {
        return true;
      }
      if pgConn == null {
        return false;
      }
      ok := pgConn.Exec(Commit, out);
      if !ok {
        return;
      }
      inTransaction := false;
    }

    method RollbackTransaction(out: Outcome) returns (ok: bool)
      modifies this`inTransaction, pgConn
      ensures (View(), ok) == Ending(old(View()), Rollback, out)
    {
      if !inTransaction {
        return true;
      }
      if pgConn == null {
        return false;
      }
      ok := pgConn.Exec(Rollback, out);
      if !ok {
        return;
      }
      inTransaction := false;
    }

    /** Sends ROLLBACK in a transaction, then lets the connection go. */
    method Close(out: Outcome)
      modifies this`pgConn, pgConn
      ensures pgConn == null && View() == old(View()).(conn := None)
      ensures old(pgConn) != null ==>
                old(pgConn).conn == if old(inTransaction) then Effect(old(pgConn.conn), Rollback, out).0 else old(pgConn.conn)
    {
      if pgConn != null {
        if inTransaction {
          var _ := pgConn.Exec(Rollback, out);
        }
        pgConn := null;
      }
    }
  }

  // ---------------------------------------------------------------------------- connection

  datatype State = State(session: SessionState, searchPathSet: bool)

  /** The schema that a session's database stands for. */
  function SchemaOf(database: string): string {
    if database == "" then "public" else database
  }

  /** ensurePGConn; `acquired` is the search path of a connection the pool hands out, if it does. */
  function Ensure(st: State, acquired: Option<string>, out: Outcome): (State, bool) {
    if st.session.conn.None? && acquired.None? then (st, false)
    else
      var t := if st.session.conn.None?
               then State(st.session.(conn := Some(Conn(Idle, acquired.value, [], []))), false) else st;
      if t.searchPathSet then (t, true)
      else
        var (c, ok) := Effect(t.session.conn.value, SetPath(SchemaOf(t.session.database)), out);
        (State(t.session.(conn := Some(c)), ok), ok)
  }

  /** UseDB */
  function Using(st: State, name: string, out: Outcome): (State, bool) {
    if st.session.inTransaction then (st, false)
    else
      var s := st.session.(database := name);
      if s.conn.None? then (State(s, false), true)
      else
        var (c, ok) := Effect(s.conn.value, SetPath(name), out);
        (State(s.(conn := Some(c)), ok), ok)
  }

  datatype Request =
    | BeginRequest | CommitRequest | RollbackRequest
    | AutocommitRequest(on: bool)
    | UseRequest(name: string)
    | OtherRequest(id: nat)

  /** What HandleQuery does once the connection is there. */
  function Dispatch(st: State, req: Request, out: Outcome): (State, bool) {
    match req
    case UseRequest(name) => Using(st, name, out)
    case OtherRequest(id) =>
      if st.session.conn.None? then (st, false)
      else
        var (c, ok) := Effect(st.session.conn.value, Statement(id), out);
        (st.(session := st.session.(conn := Some(c))), ok)
    case BeginRequest => Within(st, Starting(st.session, out))
    case CommitRequest => Within(st, Ending(st.session, Commit, out))
    case RollbackRequest => Within(st, Ending(st.session, Rollback, out))
    case AutocommitRequest(on) => Within(st, WithAutocommit(st.session, on, out))
  }

  function Within(st: State, r: (SessionState, bool)): (State, bool) {
    (st.(session := r.0), r.1)
  }

  /** A text-protocol query, or the protocol's own command to change the database. */
  datatype Call =
    | TextQuery(req: Request, acquired: Option<string>, pathOut: Outcome, out: Outcome)
    | InitDB(name: string, out: Outcome)

  function Handle(st: State, call: Call): (State, bool) {
    match call
    case InitDB(name, out) => Using(st, name, out)
    case TextQuery(req, acquired, pathOut, out) =>
      var (t, ok) := Ensure(st, acquired, pathOut);
      if ok then Dispatch(t, req, out) else (t, false)
  }

  function Step(st: State, call: Call): State {
    Handle(st, call).0
  }

  class ConnectionHandler {
    const session: Session
    var pgConn: Backend?
    var searchPathSet: bool

    ghost predicate Valid()
      reads this, session
    {
      pgConn == session.pgConn
    }

    function View(): State
      reads this, session, session.pgConn
    {
      State(session.View(), searchPathSet)
    }

    constructor ()
      ensures Valid() && View() == Start()
    {
      var s := new Session("");
      session, pgConn, searchPathSet := s, null, false;
    }

    method EnsurePGConn(acquired: Option<string>, out: Outcome) returns (ok: bool)
      requires Valid()
      modifies this, session`pgConn, pgConn
      ensures Valid() && (old(pgConn) == null || pgConn == old(pgConn)) && (pgConn != old(pgConn) ==> fresh(pgConn))
      ensures (View(), ok) == Ensure(old(View()), acquired, out)
    {
      if pgConn == null {
        if acquired.None? {
          return false;
        }
        var conn := new Backend(acquired.value);
        pgConn := conn;
        session.pgConn := conn;
        searchPathSet := false;
      }
      if !searchPathSet {
        var dbName := session.database;
        if dbName == "" {
          dbName := "public";
        }
        ok := pgConn.Exec(SetPath(dbName), out);
        if !ok {
          return;
        }
        searchPathSet := true;
      }
      return true;
    }

    method UseDB(dbName: string, out: Outcome) returns (ok: bool)
      requires Valid()
      modifies this`searchPathSet, session`database, pgConn
      ensures Valid() && (View(), ok) == Using(old(View()), dbName, out)
    {
      if session.inTransaction {
        return false;
      }
      session.database := dbName;
      searchPathSet := false;
      if pgConn != null {
        ok := pgConn.Exec(SetPath(dbName), out);
        if !ok {
          return;
        }
        searchPathSet := true;
      }
      return true;
    }

    method HandleQuery(req: Request, acquired: Option<string>, pathOut: Outcome, out: Outcome) returns (ok: bool)
      requires Valid()
      modifies this, session, pgConn
      ensures Valid() && (View(), ok) == Handle(old(View()), TextQuery(req, acquired, pathOut, out))
    {
      ok := EnsurePGConn(acquired, pathOut);
      if !ok {
        return;
      }
      match req {
        case AutocommitRequest(on) => ok := session.SetAutocommit(on, out);
        case UseRequest(name) => ok := UseDB(name, out);
        case BeginRequest => ok := session.BeginTransaction(out);
        case CommitRequest => ok := session.CommitTransaction(out);
        case RollbackRequest => ok := session.RollbackTransaction(out);
        case OtherRequest(id) => ok := pgConn.Exec(Statement(id), out);
      }
    }
  }

  // ----------------------------------------------------------------------------- agreement

  function Start(): State {
    State(SessionState("", true, false, None), false)
  }

  predicate InTx(c: Option<Conn>) {
    c.Some? && !c.value.tx.Idle?
  }

  /** The session and the backend agree. */
  predicate Agree(st: State) {
    && st.session.inTransaction == InTx(st.session.conn)
    && (st.searchPathSet ==> st.session.conn.Some? && st.session.conn.value.path == SchemaOf(st.session.database))
  }

  /** What carries agreement from step to step: a transaction starts only under the session's own search path, which is
      then also the one a rollback restores. */
  predicate Inv(st: State) {
    && Agree(st)
    && (st.session.inTransaction ==> st.searchPathSet)
    && (InTx(st.session.conn) ==> st.session.conn.value.tx.saved == SchemaOf(st.session.database))
  }

  /** The step sends a COMMIT that the server fails: PostgreSQL then ends the transaction. */
  predicate CommitRaises(st: State, call: Call) {
    && call.TextQuery? && call.out.Raised? && st.session.inTransaction
    && (call.req == CommitRequest || (call.req == AutocommitRequest(true) && !st.session.autocommit))
  }

  lemma EnsureKeeps(st: State, acquired: Option<string>, out: Outcome)
    requires Inv(st)
    ensures var (t, ok) := Ensure(st, acquired, out);
            && Inv(t) && (ok ==> t.searchPathSet)
            && t.session.inTransaction == st.session.inTransaction && t.session.autocommit == st.session.autocommit
            && t.session.database == st.session.database && (st.session.inTransaction ==> t == st && ok)
  {
  }

  lemma UsingKeeps(st: State, name: string, out: Outcome)
    requires Inv(st)
    ensures Inv(Using(st, name, out).0)
  {
  }

  lemma StartingKeeps(st: State, out: Outcome)
    requires Inv(st) && st.searchPathSet
    ensures Inv(st.(session := Starting(st.session, out).0))
  {
  }

  lemma EndingKeepsIff(st: State, cmd: Command, out: Outcome)
    requires Inv(st) && (cmd.Commit? || cmd.Rollback?)
    ensures var t := st.(session := Ending(st.session, cmd, out).0);
            var bad := st.session.inTransaction && cmd.Commit? && out.Raised?;
            (Inv(t) <==> !bad) && (Agree(t) <==> !bad)
  {
  }

  lemma AutocommitIsEither(s: SessionState, on: bool, out: Outcome)
    requires s.conn.Some?
    ensures var t := s.(autocommit := on);
            WithAutocommit(s, on, out).0
            == if s.autocommit == on then t else if on then Ending(t, Commit, out).0 else Starting(t, out).0
  {
  }

  lemma AutocommitKeepsIff(st: State, on: bool, out: Outcome)
    requires Inv(st) && st.searchPathSet
    ensures var t := st.(session := WithAutocommit(st.session, on, out).0);
            var bad := st.session.inTransaction && on && !st.session.autocommit && out.Raised?;
            (Inv(t) <==> !bad) && (Agree(t) <==> !bad)
  {
    hide WithAutocommit, Ending, Starting;
    AutocommitIsEither(st.session, on, out);
    var u := st.(session := st.session.(autocommit := on));
    if st.session.autocommit != on {
      if on {
        EndingKeepsIff(u, Commit, out);
      } else {
        StartingKeeps(u, out);
      }
    }
  }

  lemma StatementKeeps(st: State, id: nat, out: Outcome)
    requires Inv(st)
    ensures Inv(Dispatch(st, OtherRequest(id), out).0)
  {
  }

  /** One step keeps the invariant exactly when it is not such a COMMIT. */
  lemma StepKeepsIff(st: State, call: Call)
    requires Inv(st)
    ensures Inv(Step(st, call)) <==> !CommitRaises(st, call)
    ensures Agree(Step(st, call)) <==> !CommitRaises(st, call)
  {
    hide Ensure, Using, Starting, Ending, WithAutocommit, Effect;
    match call
    case InitDB(name, out) => UsingKeeps(st, name, out);
    case TextQuery(req, acquired, pathOut, out) =>
      EnsureKeeps(st, acquired, pathOut);
      var (t, ok) := Ensure(st, acquired, pathOut);
      if ok {
        match req
        case UseRequest(name) => UsingKeeps(t, name, out);
        case OtherRequest(id) => StatementKeeps(t, id, out);
        case BeginRequest => StartingKeeps(t, out);
        case CommitRequest => EndingKeepsIff(t, Commit, out);
        case RollbackRequest => EndingKeepsIff(t, Rollback, out);
        case AutocommitRequest(on) => AutocommitKeepsIff(t, on, out);
      }
  }

  /** After such a COMMIT the session still believes in the transaction; a ROLLBACK that is carried out repairs it. */
  lemma RollbackRepairs(st: State, call: Call, again: Call)
    requires Inv(st) && CommitRaises(st, call)
    requires again.TextQuery? && again.req == RollbackRequest && again.out.Run?
    ensures Step(st, call).session.inTransaction && !InTx(Step(st, call).session.conn)
    ensures Inv(Step(Step(st, call), again))
  {
    EnsureKeeps(st, call.acquired, call.pathOut);
  }

  /** A COMMIT that the server fails, reached from a new connection: the session is in a transaction, the backend is not. */
  lemma FailedCommitDisagrees()
    ensures var ask := (req: Request, out: Outcome) => TextQuery(req, Some("public"), Run, out);
            var st := Step(Step(Start(), ask(BeginRequest, Run)), ask(CommitRequest, Raised));
            st.session.inTransaction && st.session.conn == Some(Conn(Idle, "public", [], [])) && !Agree(st)
  {
  }

  // ----------------------------------------------------- what raised COMMITs leave untouched

  /** The half of agreement that no step can break: a set search path is the database's, a transaction runs under a set
      search path, and the backend is in a transaction only when the session thinks so. */
  predicate PathInv(st: State) {
    && (st.searchPathSet ==> st.session.conn.Some? && st.session.conn.value.path == SchemaOf(st.session.database))
    && (st.session.inTransaction ==> st.searchPathSet)
    && (InTx(st.session.conn) ==>
          st.session.inTransaction && st.session.conn.value.tx.saved == SchemaOf(st.session.database))
  }

  lemma EnsureKeepsPath(st: State, acquired: Option<string>, out: Outcome)
    requires PathInv(st)
    ensures var (t, ok) := Ensure(st, acquired, out);
            && PathInv(t) && (ok ==> t.searchPathSet) && t.session.database == st.session.database
            && t.session.inTransaction == st.session.inTransaction
  {
  }

  lemma DispatchKeepsPath(st: State, req: Request, out: Outcome)
    requires PathInv(st) && st.searchPathSet
    ensures PathInv(Dispatch(st, req, out).0)
  {
  }

  lemma UsingKeepsPath(st: State, name: string, out: Outcome)
    requires PathInv(st)
    ensures PathInv(Using(st, name, out).0)
  {
  }

  /** Every step keeps it, COMMITs that the server fails included. */
  lemma StepKeepsPath(st: State, call: Call)
    requires PathInv(st)
    ensures PathInv(Step(st, call))
  {
    hide Ensure, Using, Dispatch, PathInv;
    match call
    case InitDB(name, out) => UsingKeepsPath(st, name, out);
    case TextQuery(req, acquired, pathOut, out) =>
      EnsureKeepsPath(st, acquired, pathOut);
      var (t, ok) := Ensure(st, acquired, pathOut);
      if ok {
        DispatchKeepsPath(t, req, out);
      }
  }

  lemma {:induction false} RunKeepsPath(st: State, calls: seq<Call>)
    requires PathInv(st)
    ensures PathInv(AfterCalls(st, calls))
    decreases |calls|
  {
    hide PathInv, Step;
    if calls != [] {
      StepKeepsPath(st, calls[0]);
      RunKeepsPath(Step(st, calls[0]), calls[1..]);
    }
  }

  // --------------------------------------------------------------- the database asked for

  /** The request reaches the dispatch: there is a connection with its search path set. */
  predicate Delivered(st: State, call: TextCall) {
    Ensure(st, call.acquired, call.pathOut).1
  }

  type TextCall = call: Call | call.TextQuery? witness TextQuery(BeginRequest, None, Lost, Lost)

  /** The database a call asks for, if it does and is not refused; otherwise the one asked for before. */
  function AskedBy(st: State, call: Call, before: string): string {
    if st.session.inTransaction then before
    else
      match call
      case InitDB(name, _) => name
      case TextQuery(req, _, _, _) => if req.UseRequest? && Delivered(st, call) then req.name else before
  }

  /** The last database asked for in a run. */
  function LastAsked(st: State, calls: seq<Call>, before: string): string
    decreases |calls|
  {
    if calls == [] then before else LastAsked(Step(st, calls[0]), calls[1..], AskedBy(st, calls[0], before))
  }

  lemma StepSetsDatabase(st: State, call: Call)
    ensures Step(st, call).session.database == AskedBy(st, call, st.session.database)
  {
  }

  /** The session's database is the last one asked for. */
  lemma {:induction false} DatabaseIsLastAsked(st: State, calls: seq<Call>)
    ensures AfterCalls(st, calls).session.database == LastAsked(st, calls, st.session.database)
    decreases |calls|
  {
    hide Step, AskedBy;
    if calls != [] {
      StepSetsDatabase(st, calls[0]);
      DatabaseIsLastAsked(Step(st, calls[0]), calls[1..]);
    }
  }

  /** A change of database that reports success on a connection has set the search path to exactly that name. */
  lemma UseSetsPath(st: State, name: string, out: Outcome)
    requires Using(st, name, out).1
    ensures var t := Using(st, name, out).0;
            && t.session.database == name
            && (st.session.conn.Some? ==> t.searchPathSet && t.session.conn.Some? && t.session.conn.value.path == name)
  {
  }

  /** In every run from a new connection, whatever the backend answers: a set search path is that of the last database asked
      for, public when there is none, and every statement that is sent next runs under it. */
  lemma StatementsRunInDatabase(calls: seq<Call>, acquired: Option<string>, pathOut: Outcome)
    ensures var st := AfterCalls(Start(), calls);
            var asked := LastAsked(Start(), calls, "");
            var path := if asked == "" then "public" else asked;
            && (st.searchPathSet ==> st.session.conn.Some? && st.session.conn.value.path == path)
            && var (t, ok) := Ensure(st, acquired, pathOut);
               ok ==> t.session.conn.Some? && t.session.conn.value.path == path
  {
    hide AfterCalls, Ensure, LastAsked;
    RunKeepsPath(Start(), calls);
    DatabaseIsLastAsked(Start(), calls);
    EnsureKeepsPath(AfterCalls(Start(), calls), acquired, pathOut);
  }

  /** One request does not change the database inside a transaction. */
  lemma StepKeepsDatabase(st: State, call: Call)
    requires st.session.inTransaction
    ensures Step(st, call).session.database == st.session.database
  {
  }

  /** The session stays in its transaction before every one of the calls. */
  predicate StaysInTransaction(st: State, calls: seq<Call>)
    decreases |calls|
  {
    calls != [] ==> st.session.inTransaction && StaysInTransaction(Step(st, calls[0]), calls[1..])
  }

  /** The database never changes inside a transaction, however long it runs and whatever the backend answers. */
  lemma {:induction false} DatabaseFixedInTransaction(st: State, calls: seq<Call>)
    requires StaysInTransaction(st, calls)
    ensures AfterCalls(st, calls).session.database == st.session.database
    decreases |calls|
  {
    hide Step;
    if calls != [] {
      StepKeepsDatabase(st, calls[0]);
      DatabaseFixedInTransaction(Step(st, calls[0]), calls[1..]);
    }
  }

  /** With autocommit off there is a transaction. */
  predicate AutocommitInStep(st: State) {
    st.session.autocommit || st.session.inTransaction
  }

  /** A COMMIT or ROLLBACK under autocommit off is carried out, or the BEGIN that turning autocommit off sends is not. */
  predicate Lapses(st: State, call: Call) {
    && call.TextQuery? && Ensure(st, call.acquired, call.pathOut).1
    && match call.req
       case CommitRequest => !st.session.autocommit && call.out.Run?
       case RollbackRequest => !st.session.autocommit && call.out.Run?
       case AutocommitRequest(on) => !on && st.session.autocommit && !st.session.inTransaction && !call.out.Run?
       case _ => false
  }

  /** No new transaction is started behind a COMMIT: that is exactly when autocommit off stops meaning a transaction. */
  lemma AutocommitLapsesIff(st: State, call: Call)
    requires Inv(st) && AutocommitInStep(st)
    ensures AutocommitInStep(Step(st, call)) <==> !Lapses(st, call)
  {
    if call.TextQuery? {
      EnsureKeeps(st, call.acquired, call.pathOut);
    }
  }

  lemma AutocommitOffWithoutTransaction()
    ensures var ask := (req: Request) => TextQuery(req, Some("public"), Run, Run);
            var st := Step(Step(Start(), ask(AutocommitRequest(false))), ask(CommitRequest));
            !st.session.autocommit && !st.session.inTransaction
  {
  }

  function AfterCalls(st: State, calls: seq<Call>): State
    decreases |calls|
  {
    if calls == [] then st else AfterCalls(Step(st, calls[0]), calls[1..])
  }

  predicate AgreesThroughout(st: State, calls: seq<Call>)
    decreases |calls|
  {
    Agree(st) && (calls != [] ==> AgreesThroughout(Step(st, calls[0]), calls[1..]))
  }

  predicate NoCommitRaises(st: State, calls: seq<Call>)
    decreases |calls|
  {
    calls != [] ==> !CommitRaises(st, calls[0]) && NoCommitRaises(Step(st, calls[0]), calls[1..])
  }

  /** Over every run: session and backend agree at every instant exactly when the server fails no COMMIT. */
  lemma {:induction false} RunAgreesIff(st: State, calls: seq<Call>)
    requires Inv(st)
    ensures AgreesThroughout(st, calls) <==> NoCommitRaises(st, calls)
    ensures NoCommitRaises(st, calls) ==> Inv(AfterCalls(st, calls))
    decreases |calls|
  {
    hide Inv, Step, CommitRaises, Agree;
    assert Agree(st) by { InvAgrees(st); }
    if calls != [] {
      StepKeepsIff(st, calls[0]);
      var t := Step(st, calls[0]);
      if Inv(t) {
        RunAgreesIff(t, calls[1..]);
      }
    }
  }

  lemma InvAgrees(st: State)
    requires Inv(st)
    ensures Agree(st)
  {
  }

  /** From a new connection on. */
  lemma SessionAgreement(calls: seq<Call>)
    ensures AgreesThroughout(Start(), calls) <==> NoCommitRaises(Start(), calls)
    ensures NoCommitRaises(Start(), calls) ==> Inv(AfterCalls(Start(), calls))
  {
    RunAgreesIff(Start(), calls);
  }

  // ------------------------------------------------------------- which statements are done

  /** What the client's requests mean, without any connection: whether a transaction is open and whether it has failed, the
      statements done in it, the statements done for good, and autocommit. */
  datatype Ledger = Ledger(open: bool, failed: bool, work: seq<nat>, kept: seq<nat>, autocommit: bool)

  function Opened(l: Ledger, out: Outcome): Ledger {
    if l.open || !out.Run? then l else l.(open := true)
  }

  function Closed(l: Ledger, keep: bool): Ledger {
    Ledger(false, false, [], if keep && !l.failed then l.kept + l.work else l.kept, l.autocommit)
  }

  /** A transaction that has met an error can only be ended. */
  function Entered(l: Ledger, req: Request, out: Outcome): Ledger {
    match req
    case BeginRequest => Opened(l, out)
    case CommitRequest => if l.open && out.Run? then Closed(l, true) else l
    case RollbackRequest =>
      if !l.open || out.Lost? then l else if out.Run? then Closed(l, false) else l.(failed := true)
    case AutocommitRequest(on) =>
      var l1 := l.(autocommit := on);
      if l.autocommit == on then l
      else if !on then Opened(l1, out)
      else if l.open && out.Run? then Closed(l1, true)
      else l1
    case OtherRequest(id) =>
      if out.Raised? then l.(failed := l.open)
      else if out.Lost? || l.failed then l
      else if l.open then l.(work := l.work + [id])
      else l.(kept := l.kept + [id])
    case UseRequest(_) => l
  }

  function LedgerAfter(st: State, calls: seq<Call>, l: Ledger): Ledger
    decreases |calls|
  {
    if calls == [] then l
    else
      var call := calls[0];
      var l1 := if call.TextQuery? && Delivered(st, call) then Entered(l, call.req, call.out) else l;
      LedgerAfter(Step(st, call), calls[1..], l1)
  }

  /** The backend has exactly what the ledger says. */
  predicate Tallies(st: State, l: Ledger) {
    && l.autocommit == st.session.autocommit && l.open == InTx(st.session.conn)
    && (st.session.conn.None? ==> l.work == [] && l.kept == [])
    && (st.session.conn.Some? ==>
          var c := st.session.conn.value;
          l.work == c.work && l.kept == c.kept && l.failed == c.tx.Failed?)
    && (!l.open ==> l.work == [] && !l.failed)
  }

  lemma EnsureTallies(st: State, acquired: Option<string>, out: Outcome, l: Ledger)
    requires Inv(st) && Tallies(st, l)
    ensures Tallies(Ensure(st, acquired, out).0, l)
  {
  }

  lemma DispatchTallies(st: State, req: Request, out: Outcome, l: Ledger)
    requires Inv(st) && Tallies(st, l) && st.session.conn.Some?
    requires !(out.Raised? && st.session.inTransaction
               && (req == CommitRequest || (req == AutocommitRequest(true) && !st.session.autocommit)))
    ensures Tallies(Dispatch(st, req, out).0, Entered(l, req, out))
  {
  }

  lemma UsingTallies(st: State, name: string, out: Outcome, l: Ledger)
    requires Inv(st) && Tallies(st, l)
    ensures Tallies(Using(st, name, out).0, l)
  {
  }

  lemma StepTallies(st: State, call: Call, l: Ledger)
    requires Inv(st) && Tallies(st, l) && !CommitRaises(st, call)
    ensures Tallies(Step(st, call), if call.TextQuery? && Delivered(st, call) then Entered(l, call.req, call.out) else l)
  {
    hide Ensure, Using, Dispatch, Entered, Tallies;
    match call
    case InitDB(name, out) => UsingTallies(st, name, out, l);
    case TextQuery(req, acquired, pathOut, out) =>
      EnsureKeeps(st, acquired, pathOut);
      EnsureTallies(st, acquired, pathOut, l);
      var (t, ok) := Ensure(st, acquired, pathOut);
      if ok {
        DispatchTallies(t, req, out, l);
      }
  }

  lemma {:induction false} RunTallies(st: State, calls: seq<Call>, l: Ledger)
    requires Inv(st) && Tallies(st, l) && NoCommitRaises(st, calls)
    ensures Tallies(AfterCalls(st, calls), LedgerAfter(st, calls, l))
    decreases |calls|
  {
    hide Inv, Step, CommitRaises, Tallies, Entered, Agree, Delivered;
    if calls != [] {
      var call := calls[0];
      StepKeepsIff(st, call);
      StepTallies(st, call, l);
      var l1 := if call.TextQuery? && Delivered(st, call) then Entered(l, call.req, call.out) else l;
      RunTallies(Step(st, call), calls[1..], l1);
    }
  }

  /** In every run from a new connection in which the server fails no COMMIT, the backend has done exactly what the client's
      requests mean: statements of committed transactions and those outside any are done for good, those of rolled back or
      failed transactions are not, and a transaction is open exactly when the requests say so. */
  lemma BackendDoesAsAsked(calls: seq<Call>)
    requires NoCommitRaises(Start(), calls)
    ensures var st := AfterCalls(Start(), calls);
            var l := LedgerAfter(Start(), calls, Ledger(false, false, [], [], true));
            && l.open == InTx(st.session.conn) && l.autocommit == st.session.autocommit
            && (st.session.conn.Some? ==> st.session.conn.value.kept == l.kept && st.session.conn.value.work == l.work)
            && (st.session.conn.None? ==> l.kept == [])
  {
    hide AfterCalls, LedgerAfter, NoCommitRaises;
    RunTallies(Start(), calls, Ledger(false, false, [], [], true));
  }

  // ----------------------------------------------------------------- when requests succeed

  /** A request is dispatched exactly when there is a connection, or the pool hands one out, whose search path is set or can
      be set now. */
  lemma DeliveredIff(st: State, call: TextCall)
    requires PathInv(st)
    ensures Delivered(st, call) <==>
              (st.session.conn.Some? || call.acquired.Some?) && (st.searchPathSet || call.pathOut.Run?)
  {
  }

  /** What the client is told: each request succeeds exactly when it needs no command or its command is carried out; a USE
      is refused inside a transaction and for the empty name, and a statement in a transaction that has failed. */
  lemma SucceedsIff(st: State, req: Request, out: Outcome)
    requires Inv(st) && st.searchPathSet
    ensures var idle := !st.session.inTransaction;
            Dispatch(st, req, out).1 <==>
              match req
              case BeginRequest => !idle || out.Run?
              case CommitRequest => idle || out.Run?
              case RollbackRequest => idle || out.Run?
              case AutocommitRequest(on) => st.session.autocommit == on || idle == on || out.Run?
              case UseRequest(name) => idle && name != "" && out.Run?
              case OtherRequest(_) => out.Run? && !st.session.conn.value.tx.Failed?
  {
  }
}
