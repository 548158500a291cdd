/**
  Broadcasting to dump clients (pkg/replication/server.go) as a state machine over atomic steps: connecting,
  processing a change under the clients lock, heartbeats, and removal.  A packet's number is assigned under the
  client's mutex and the packet is written later, so two senders to one client can interleave.
 */
module Broadcast {
  import opened Wrappers
  import opened Server

  datatype Body = FormatDescription | Heartbeat | Data(e: BinlogEvent)
  datatype Packet = Packet(num: nat, body: Body)

  /** A dump client.  `active` is membership in the server's client map; `failed` records a failed write;
      `raced` records that a number was assigned while another packet to this client was still unwritten, `late` that a
      packet was written while one numbered before it was still unwritten.  `ownAt` is the place of the client's own
      unwritten packet among the `issued` ones; `issued`, `joined` and `until` are history. */
  datatype Client = Client(active: bool, greeted: bool, nextSeq: nat, own: Option<Packet>, ownAt: nat, wire: seq<Packet>,
                           failed: bool, raced: bool, late: bool, issued: seq<Packet>, joined: nat, until: nat)

  /** The event processor: idle, or inside processChangeEvent holding the read lock on the client map.  `at` is the place
      of its unwritten packet among those issued to the client. */
  datatype Processor =
    | Idle
    | Between(todo: set<nat>)
    | Sending(todo: set<nat>, dest: nat, k: nat, pending: Option<Packet>, at: nat)

  datatype Machine = Machine(server: State, clients: map<nat, Client>, nextId: nat, proc: Processor,
                             inputs: seq<Input>, history: seq<seq<BinlogEvent>>)

  datatype Action =
    | Connect
    | AssignOwn(id: nat)
    | WriteOwn(id: nat, ok: bool)
    | Remove(id: nat)
    | StartChange(input: Input)
    | Pick(id: nat)
    | AssignData
    | WriteData(ok: bool)
    | EndClient
    | EndChange

  function Current(m: Machine): seq<BinlogEvent> {
    if m.history == [] then [] else m.history[|m.history| - 1]
  }

  /** What each step needs; the client map changes only while no broadcast holds its read lock. */
  predicate Enabled(m: Machine, a: Action) {
    match a
    case Connect => m.proc.Idle?
    case AssignOwn(id) => id in m.clients && m.clients[id].active && m.clients[id].own.None?
    case WriteOwn(id, _) => id in m.clients && m.clients[id].own.Some?
    case Remove(id) => m.proc.Idle? && id in m.clients && m.clients[id].active && m.clients[id].own.None?
    case StartChange(_) => m.proc.Idle?
    case Pick(id) => m.proc.Between? && id in m.proc.todo
    case AssignData => m.proc.Sending? && m.proc.pending.None? && m.proc.k < |Current(m)| && m.proc.dest in m.clients
    case WriteData(_) => m.proc.Sending? && m.proc.pending.Some? && m.proc.dest in m.clients
    case EndClient => m.proc.Sending? && m.proc.pending.None? && m.proc.k >= |Current(m)|
    case EndChange => m.proc.Between? && m.proc.todo == {}
  }

  /** sendBinlogPacketToClient, first half: take the next number under the client's mutex. */
  function Assign(c: Client, body: Body, busy: bool): (Client, Packet) {
    var p := Packet(c.nextSeq, body);
    (c.(nextSeq := (c.nextSeq + 1) % 256, issued := c.issued + [p], raced := c.raced || busy), p)
  }

  /** sendBinlogPacketToClient, second half: write the packet to the connection; `overtakes` says that a packet numbered
      before it is still unwritten. */
  function Write(c: Client, p: Packet, ok: bool, overtakes: bool): Client {
    (if ok then c.(wire := c.wire + [p]) else c.(failed := true)).(late := c.late || overtakes)
  }

  predicate ProcessorBusyWith(m: Machine, id: nat) {
    m.proc.Sending? && m.proc.dest == id && m.proc.pending.Some?
  }

  function Step(m: Machine, a: Action): Machine
    requires Enabled(m, a)
  {
    match a
    case Connect =>
      var c := Client(true, false, 1, None, 0, [], false, false, false, [], |m.history|, 0);
      m.(clients := m.clients[m.nextId := c], nextId := m.nextId + 1)
    case AssignOwn(id) =>
      var (c, p) := Assign(m.clients[id], if m.clients[id].greeted then Heartbeat else FormatDescription,
                           ProcessorBusyWith(m, id));
      m.(clients := m.clients[id := c.(own := Some(p), ownAt := |m.clients[id].issued|)])
    case WriteOwn(id, ok) =>
      var c := m.clients[id];
      var overtakes := ProcessorBusyWith(m, id) && m.proc.at < c.ownAt;
      m.(clients := m.clients[id := Write(c, c.own.value, ok, overtakes).(own := None, greeted := true)])
    case Remove(id) =>
      m.(clients := m.clients[id := m.clients[id].(active := false, until := |m.history|)])
    case StartChange(input) =>
      m.(history := m.history + [Convert(m.server, input.change, input.clock)],
         inputs := m.inputs + [input],
         server := After(m.server, input.change, input.clock),
         proc := Between(set id | id in m.clients && m.clients[id].active))
    case Pick(id) =>
      m.(proc := Sending(m.proc.todo - {id}, id, 0, None, 0))
    case AssignData =>
      var (c, p) := Assign(m.clients[m.proc.dest], Data(Current(m)[m.proc.k]), m.clients[m.proc.dest].own.Some?);
      m.(clients := m.clients[m.proc.dest := c],
         proc := m.proc.(pending := Some(p), at := |m.clients[m.proc.dest].issued|))
    case WriteData(ok) =>
      var c := m.clients[m.proc.dest];
      var overtakes := c.own.Some? && c.ownAt < m.proc.at;
      m.(clients := m.clients[m.proc.dest := Write(c, m.proc.pending.value, ok, overtakes)],
         proc := m.proc.(k := m.proc.k + 1, pending := None))
    case EndClient =>
      m.(proc := Between(m.proc.todo))
    case EndChange =>
      m.(proc := Idle)
  }

  // ------------------------------------------------------------------- what a client got

  /** The binlog events among the packets, without format descriptions and heartbeats. */
  function DataOf(ps: seq<Packet>): seq<BinlogEvent> {
    if ps == [] then []
    else DataOf(ps[..|ps| - 1]) + (if ps[|ps| - 1].body.Data? then [ps[|ps| - 1].body.e] else [])
  }

  function Flatten(hs: seq<seq<BinlogEvent>>): seq<BinlogEvent> {
    if hs == [] then [] else Flatten(hs[..|hs| - 1]) + hs[|hs| - 1]
  }

  /** How far the broadcast of the current change has come for a client: (whole changes, events of the next). */
  function Reached(m: Machine, id: nat): (nat, nat)
    requires id in m.clients
  {
    var n := |m.history|;
    var c := m.clients[id];
    if !c.active then (c.until, 0)
    else if m.proc.Idle? || n == 0 then (n, 0)
    else if id in m.proc.todo then (n - 1, 0)
    else if m.proc.Sending? && m.proc.dest == id then (n - 1, m.proc.k)
    else (n, 0)
  }

  predicate SliceOk(m: Machine, id: nat)
    requires id in m.clients
  {
    var (whole, part) := Reached(m, id);
    var c := m.clients[id];
    && c.joined <= whole <= |m.history|
    && part <= |Current(m)|
    && (part > 0 ==> whole == |m.history| - 1)
    && (!c.failed ==> DataOf(c.wire) == Flatten(m.history[c.joined..whole]) + Current(m)[..part])
  }

  /** The processor's unwritten packet to a client, with its place. */
  function Pending(m: Machine, id: nat): Option<(Packet, nat)> {
    if ProcessorBusyWith(m, id) then Some((m.proc.pending.value, m.proc.at)) else None
  }

  function InOrder(c: Client, q: Option<(Packet, nat)>): seq<Packet> {
    if c.own.None? then (if q.None? then [] else [q.value.0])
    else if q.None? then [c.own.value]
    else if c.ownAt < q.value.1 then [c.own.value, q.value.0]
    else [q.value.0, c.own.value]
  }

  /** The packets assigned to a client and not yet written, in the order of their numbers. */
  function Unwritten(m: Machine, id: nat): seq<Packet>
    requires id in m.clients
  {
    InOrder(m.clients[id], Pending(m, id))
  }

  /** The places of the unwritten packets lie among those issued. */
  predicate PlacesOk(c: Client, q: Option<(Packet, nat)>) {
    && (c.own.Some? ==> c.ownAt < |c.issued|)
    && (q.Some? ==> q.value.1 < |c.issued|)
    && (c.own.Some? && q.Some? ==> c.ownAt != q.value.1)
  }

  predicate NumbersOk(c: Client) {
    && c.nextSeq == (|c.issued| + 1) % 256
    && forall i :: 0 <= i < |c.issued| ==> c.issued[i].num == (i + 1) % 256
  }

  /** The wire and the numbering have parted: somewhere they carry different packets. */
  predicate Parted(wire: seq<Packet>, issued: seq<Packet>) {
    exists i :: 0 <= i < |wire| && i < |issued| && wire[i] != issued[i]
  }

  /** The part of a client that its packets depend on. */
  datatype Line = Line(failed: bool, raced: bool, late: bool, issued: seq<Packet>, wire: seq<Packet>)

  function LineOf(c: Client): Line {
    Line(c.failed, c.raced, c.late, c.issued, c.wire)
  }

  /** What was numbered is what was written plus what is still unwritten; in order as long as no packet was overtaken, and
      never again afterwards. */
  predicate WireFacts(l: Line, unwritten: seq<Packet>) {
    && (!l.failed ==> multiset(l.issued) == multiset(l.wire) + multiset(unwritten))
    && (!l.failed && !l.late ==> l.issued == l.wire + unwritten)
    && (!l.failed && l.late ==> Parted(l.wire, l.issued))
    && (!l.raced ==> !l.late && |unwritten| <= 1)
  }

  predicate WireOk(m: Machine, id: nat)
    requires id in m.clients
  {
    PlacesOk(m.clients[id], Pending(m, id)) && WireFacts(LineOf(m.clients[id]), Unwritten(m, id))
  }

  predicate ProcOk(m: Machine) {
    && (!m.proc.Idle? ==> m.history != [])
    && (!m.proc.Idle? ==> forall id :: id in m.proc.todo ==> id in m.clients && m.clients[id].active)
    && (m.proc.Sending? ==>
          && m.proc.dest in m.clients && m.clients[m.proc.dest].active && m.proc.dest !in m.proc.todo
          && m.proc.k <= |Current(m)|
          && (m.proc.pending.Some? ==> m.proc.k < |Current(m)| && m.proc.pending.value.body == Data(Current(m)[m.proc.k])))
  }

  predicate OwnOk(c: Client) {
    c.own.Some? ==> !c.own.value.body.Data? && c.active
  }

  /** The packets that carry no event of the history. */
  function OwnBodies(ps: seq<Packet>): seq<Body> {
    if ps == [] then []
    else OwnBodies(ps[..|ps| - 1]) + (if ps[|ps| - 1].body.Data? then [] else [ps[|ps| - 1].body])
  }

  /** A format description and then heartbeats. */
  predicate Greeting(bodies: seq<Body>) {
    bodies != [] && bodies[0] == FormatDescription && forall i :: 1 <= i < |bodies| ==> bodies[i] == Heartbeat
  }

  /** Nothing of its own is sent to a client before the greeting, and the greeting is sent once. */
  predicate GreetOk(c: Client) {
    if c.greeted then Greeting(OwnBodies(c.issued))
    else OwnBodies(c.issued) == if c.own.Some? then [FormatDescription] else []
  }

  predicate ClientOk(m: Machine, id: nat)
    requires id in m.clients
  {
    SliceOk(m, id) && NumbersOk(m.clients[id]) && WireOk(m, id) && OwnOk(m.clients[id]) && GreetOk(m.clients[id])
  }

  /** The history is what the server emitted for the inputs processed. */
  ghost predicate HistoryOk(m: Machine, st: State) {
    && |m.history| == |m.inputs|
    && m.server == FinalState(st, m.inputs)
    && Flatten(m.history) == Emitted(st, m.inputs)
  }

  ghost predicate Inv(m: Machine, st: State) {
    && ProcOk(m)
    && HistoryOk(m, st)
    && (forall id :: id in m.clients ==> id < m.nextId)
    && (forall id :: id in m.clients ==> ClientOk(m, id))
  }

  // ------------------------------------------------------------------ per-step lemmas

  lemma DataOfAppend(ps: seq<Packet>, p: Packet)
    ensures DataOf(ps + [p]) == DataOf(ps) + (if p.body.Data? then [p.body.e] else [])
  {
    assert (ps + [p])[..|ps|] == ps;
  }

  lemma FlattenAppend(hs: seq<seq<BinlogEvent>>, h: seq<BinlogEvent>)
    ensures Flatten(hs + [h]) == Flatten(hs) + h
  {
    assert (hs + [h])[..|hs|] == hs;
  }

  lemma OwnBodiesAppend(ps: seq<Packet>, p: Packet)
    ensures OwnBodies(ps + [p]) == OwnBodies(ps) + (if p.body.Data? then [] else [p.body])
  {
    assert (ps + [p])[..|ps|] == ps;
  }

  /** Numbering a packet of the client's own. */
  lemma AssignGreets(c: Client, busy: bool, at: nat)
    requires GreetOk(c) && c.own.None?
    ensures var (c', p) := Assign(c, if c.greeted then Heartbeat else FormatDescription, busy);
            GreetOk(c'.(own := Some(p), ownAt := at))
  {
    hide OwnBodies;
    var (c', p) := Assign(c, if c.greeted then Heartbeat else FormatDescription, busy);
    OwnBodiesAppend(c.issued, p);
  }

  lemma AssignNumbers(c: Client, body: Body, busy: bool)
    requires NumbersOk(c)
    ensures NumbersOk(Assign(c, body, busy).0)
  {
  }

  /** Registering a client: it has received nothing and its slice is empty. */
  lemma ConnectKeeps(m: Machine, st: State)
    requires Inv(m, st) && Enabled(m, Connect)
    ensures Inv(Step(m, Connect), st)
  {
    hide Flatten, Emitted, FinalState, DataOf;
    var m' := Step(m, Connect);
    forall id | id in m'.clients ensures id < m'.nextId && ClientOk(m', id) {
      if id == m.nextId {
        NewClient(m', id);
      } else {
        assert ClientOk(m, id);
      }
    }
  }

  lemma NewClient(m: Machine, id: nat)
    requires id in m.clients && m.proc.Idle?
    requires m.clients[id] == Client(true, false, 1, None, 0, [], false, false, false, [], |m.history|, 0)
    ensures ClientOk(m, id)
  {
    assert m.history[|m.history|..|m.history|] == [];
    assert Current(m)[..0] == [];
  }

  function Issue(l: Line, p: Packet, busy: bool): Line {
    l.(issued := l.issued + [p], raced := l.raced || busy)
  }

  function Put(l: Line, p: Packet, ok: bool, overtakes: bool): Line {
    l.(wire := if ok then l.wire + [p] else l.wire, failed := l.failed || !ok, late := l.late || overtakes)
  }

  /** Numbering one more packet; `busy` says that another one was unwritten at that moment. */
  lemma FactsAssign(l: Line, u: seq<Packet>, p: Packet, busy: bool)
    requires WireFacts(l, u) && (busy <==> u != []) && |u| <= 1
    ensures WireFacts(Issue(l, p, busy), u + [p])
  {
    if !l.failed && l.late {
      var i :| 0 <= i < |l.wire| && i < |l.issued| && l.wire[i] != l.issued[i];
      assert (l.issued + [p])[i] == l.issued[i];
    }
    assert l.wire + (u + [p]) == l.wire + u + [p];
  }

  lemma StillParted(wire: seq<Packet>, issued: seq<Packet>, p: Packet)
    requires Parted(wire, issued)
    ensures Parted(wire + [p], issued)
  {
    var i :| 0 <= i < |wire| && i < |issued| && wire[i] != issued[i];
    assert (wire + [p])[i] == wire[i];
  }

  /** Writing the unwritten packet that was numbered first. */
  lemma FactsWriteFirst(l: Line, p: Packet, u: seq<Packet>, ok: bool)
    requires WireFacts(l, [p] + u)
    ensures WireFacts(Put(l, p, ok, false), u)
  {
    assert l.wire + ([p] + u) == l.wire + [p] + u;
    if ok && !l.failed && l.late {
      StillParted(l.wire, l.issued, p);
    }
  }

  /** Writing the one that was numbered second: neighbouring numbers differ, so the wire shows it from now on. */
  lemma FactsWriteSecond(l: Line, q: Packet, p: Packet, ok: bool)
    requires WireFacts(l, [q, p]) && forall i :: 0 <= i < |l.issued| ==> l.issued[i].num == (i + 1) % 256
    ensures WireFacts(Put(l, p, ok, true), [q])
  {
    if ok && !l.failed {
      assert multiset([q, p]) == multiset([p]) + multiset([q]);
      if l.late {
        StillParted(l.wire, l.issued, p);
      } else {
        var i := |l.wire|;
        assert l.issued[i] == q && l.issued[i + 1] == p && (l.wire + [p])[i] == p;
        assert q.num != p.num;
      }
    }
  }

  /** A client that a step does not touch keeps what holds of it. */
  lemma Frame(m: Machine, m': Machine, j: nat)
    requires j in m.clients && j in m'.clients && m.clients[j] == m'.clients[j] && m.history == m'.history
    requires Reached(m, j) == Reached(m', j) && Pending(m, j) == Pending(m', j) && ClientOk(m, j)
    ensures ClientOk(m', j)
  {
    hide Flatten, DataOf, WireFacts, NumbersOk, InOrder, Pending, Reached, PlacesOk, GreetOk;
  }

  lemma AssignOwnKeeps(m: Machine, st: State, id: nat)
    requires Inv(m, st) && Enabled(m, AssignOwn(id))
    ensures Inv(Step(m, AssignOwn(id)), st)
  {
    hide ClientOk, SliceOk, WireOk, NumbersOk, OwnOk, GreetOk, Flatten, Emitted, FinalState, DataOf, Convert;
    var m' := Step(m, AssignOwn(id));
    forall j | j in m'.clients ensures ClientOk(m', j) {
      assert ClientOk(m, j);
      if j == id {
        AssignOwnClient(m, id);
      } else {
        Frame(m, m', j);
      }
    }
  }

  lemma AssignOwnClient(m: Machine, id: nat)
    requires Enabled(m, AssignOwn(id)) && ClientOk(m, id)
    ensures ClientOk(Step(m, AssignOwn(id)), id)
  {
    hide Flatten, DataOf, WireFacts, GreetOk;
    var m' := Step(m, AssignOwn(id));
    var c, c' := m.clients[id], m'.clients[id];
    var p, busy := c'.own.value, ProcessorBusyWith(m, id);
    AssignNumbers(c, if c.greeted then Heartbeat else FormatDescription, busy);
    AssignGreets(c, busy, |c.issued|);
    FactsAssign(LineOf(c), Unwritten(m, id), p, busy);
    assert LineOf(c') == Issue(LineOf(c), p, busy) && Unwritten(m', id) == Unwritten(m, id) + [p];
  }

  lemma WriteOwnKeeps(m: Machine, st: State, id: nat, ok: bool)
    requires Inv(m, st) && Enabled(m, WriteOwn(id, ok))
    ensures Inv(Step(m, WriteOwn(id, ok)), st)
  {
    hide ClientOk, SliceOk, WireOk, NumbersOk, OwnOk, GreetOk, Flatten, Emitted, FinalState, DataOf, Convert;
    var m' := Step(m, WriteOwn(id, ok));
    forall j | j in m'.clients ensures ClientOk(m', j) {
      assert ClientOk(m, j);
      if j == id {
        WriteOwnClient(m, id, ok);
      } else {
        Frame(m, m', j);
      }
    }
  }

  lemma WriteOwnClient(m: Machine, id: nat, ok: bool)
    requires Enabled(m, WriteOwn(id, ok)) && ClientOk(m, id)
    ensures ClientOk(Step(m, WriteOwn(id, ok)), id)
  {
    hide SliceOk, WireOk, NumbersOk, OwnBodies;
    assert NumbersOk(m.clients[id]);
    WriteOwnSlice(m, id, ok);
    WriteOwnWire(m, id, ok);
    SameNumbers(m.clients[id], Step(m, WriteOwn(id, ok)).clients[id]);
  }

  lemma SameNumbers(c: Client, c': Client)
    requires NumbersOk(c) && c'.issued == c.issued && c'.nextSeq == c.nextSeq
    ensures NumbersOk(c')
  {
  }

  lemma WriteOwnSlice(m: Machine, id: nat, ok: bool)
    requires Enabled(m, WriteOwn(id, ok)) && SliceOk(m, id) && OwnOk(m.clients[id])
    ensures SliceOk(Step(m, WriteOwn(id, ok)), id)
  {
    hide Flatten, DataOf;
    DataOfAppend(m.clients[id].wire, m.clients[id].own.value);
  }

  lemma WriteOwnWire(m: Machine, id: nat, ok: bool)
    requires Enabled(m, WriteOwn(id, ok)) && WireOk(m, id) && NumbersOk(m.clients[id])
    ensures WireOk(Step(m, WriteOwn(id, ok)), id)
  {
    hide WireFacts;
    var m', c := Step(m, WriteOwn(id, ok)), m.clients[id];
    var p, q := c.own.value, Pending(m, id);
    var overtakes := q.Some? && q.value.1 < c.ownAt;
    assert LineOf(m'.clients[id]) == Put(LineOf(c), p, ok, overtakes) && Pending(m', id) == q;
    if overtakes {
      FactsWriteSecond(LineOf(c), q.value.0, p, ok);
    } else {
      assert Unwritten(m, id) == [p] + Unwritten(m', id);
      FactsWriteFirst(LineOf(c), p, Unwritten(m', id), ok);
    }
  }

  lemma RemoveKeeps(m: Machine, st: State, id: nat)
    requires Inv(m, st) && Enabled(m, Remove(id))
    ensures Inv(Step(m, Remove(id)), st)
  {
    hide ClientOk, SliceOk, WireOk, NumbersOk, OwnOk, GreetOk, Flatten, Emitted, FinalState, DataOf, Convert;
    var m' := Step(m, Remove(id));
    forall j | j in m'.clients ensures ClientOk(m', j) {
      assert ClientOk(m, j);
      if j == id {
        RemoveClient(m, id);
      } else {
        Frame(m, m', j);
      }
    }
  }

  lemma RemoveClient(m: Machine, id: nat)
    requires Enabled(m, Remove(id)) && ClientOk(m, id)
    ensures ClientOk(Step(m, Remove(id)), id)
  {
    hide Flatten, DataOf, WireFacts;
  }

  lemma StartChangeKeeps(m: Machine, st: State, input: Input)
    requires Inv(m, st) && Enabled(m, StartChange(input))
    ensures Inv(Step(m, StartChange(input)), st)
  {
    hide ClientOk, SliceOk, WireOk, NumbersOk, OwnOk, GreetOk, Flatten, Emitted, FinalState, DataOf, Convert;
    var m' := Step(m, StartChange(input));
    FlattenAppend(m.history, Convert(m.server, input.change, input.clock));
    EmittedOne(st, m.inputs, input);
    forall j | j in m'.clients ensures ClientOk(m', j) {
      assert ClientOk(m, j);
      StartChangeClient(m, input, j);
    }
  }

  /** A new change is not yet part of what any client has reached. */
  lemma StartChangeClient(m: Machine, input: Input, j: nat)
    requires Enabled(m, StartChange(input)) && j in m.clients && ClientOk(m, j)
    ensures ClientOk(Step(m, StartChange(input)), j)
  {
    hide Flatten, DataOf, WireFacts, Convert;
    var m', c, whole := Step(m, StartChange(input)), m.clients[j], Reached(m, j).0;
    assert Reached(m', j) == (whole, 0) == Reached(m, j);
    assert m'.history[c.joined..whole] == m.history[c.joined..whole];
    assert Current(m)[..0] == Current(m')[..0] == [];
    assert Unwritten(m', j) == Unwritten(m, j);
  }

  lemma EmittedOne(st: State, ins: seq<Input>, i: Input)
    ensures Emitted(st, ins + [i]) == Emitted(st, ins) + Convert(FinalState(st, ins), i.change, i.clock)
    ensures FinalState(st, ins + [i]) == After(FinalState(st, ins), i.change, i.clock)
  {
    EmittedConcat(st, ins, [i]);
    var s1 := FinalState(st, ins);
    assert [i][1..] == [];
    assert Emitted(s1, [i]) == Convert(s1, i.change, i.clock) + [];
  }

  lemma PickKeeps(m: Machine, st: State, id: nat)
    requires Inv(m, st) && Enabled(m, Pick(id))
    ensures Inv(Step(m, Pick(id)), st)
  {
    hide ClientOk, SliceOk, WireOk, NumbersOk, OwnOk, GreetOk, Flatten, Emitted, FinalState, DataOf, Convert;
    var m' := Step(m, Pick(id));
    forall j | j in m'.clients ensures ClientOk(m', j) {
      assert ClientOk(m, j);
      Frame(m, m', j);
    }
  }

  lemma AssignDataKeeps(m: Machine, st: State)
    requires Inv(m, st) && Enabled(m, AssignData)
    ensures Inv(Step(m, AssignData), st)
  {
    hide ClientOk, SliceOk, WireOk, NumbersOk, OwnOk, GreetOk, Flatten, Emitted, FinalState, DataOf, Convert;
    var m' := Step(m, AssignData);
    forall j | j in m'.clients ensures ClientOk(m', j) {
      assert ClientOk(m, j);
      if j == m.proc.dest {
        AssignDataClient(m);
      } else {
        Frame(m, m', j);
      }
    }
  }

  lemma AssignDataClient(m: Machine)
    requires Enabled(m, AssignData) && ProcOk(m) && ClientOk(m, m.proc.dest)
    ensures ClientOk(Step(m, AssignData), m.proc.dest)
  {
    hide Flatten, DataOf, WireFacts, OwnBodies;
    var m', id := Step(m, AssignData), m.proc.dest;
    var c, p := m.clients[id], m'.proc.pending.value;
    AssignNumbers(c, Data(Current(m)[m.proc.k]), c.own.Some?);
    OwnBodiesAppend(c.issued, p);
    FactsAssign(LineOf(c), Unwritten(m, id), p, c.own.Some?);
    assert LineOf(m'.clients[id]) == Issue(LineOf(c), p, c.own.Some?);
    assert Unwritten(m', id) == Unwritten(m, id) + [p];
  }

  lemma WriteDataKeeps(m: Machine, st: State, ok: bool)
    requires Inv(m, st) && Enabled(m, WriteData(ok))
    ensures Inv(Step(m, WriteData(ok)), st)
  {
    hide ClientOk, SliceOk, WireOk, NumbersOk, OwnOk, GreetOk, Flatten, Emitted, FinalState, DataOf, Convert;
    var m' := Step(m, WriteData(ok));
    forall j | j in m'.clients ensures ClientOk(m', j) {
      assert ClientOk(m, j);
      if j == m.proc.dest {
        WriteDataClient(m, ok);
      } else {
        Frame(m, m', j);
      }
    }
  }

  lemma WriteDataClient(m: Machine, ok: bool)
    requires Enabled(m, WriteData(ok)) && ProcOk(m) && ClientOk(m, m.proc.dest)
    ensures ClientOk(Step(m, WriteData(ok)), m.proc.dest)
  {
    hide SliceOk, WireOk, NumbersOk, OwnBodies;
    assert NumbersOk(m.clients[m.proc.dest]);
    WriteDataSlice(m, ok);
    WriteDataWire(m, ok);
    SameNumbers(m.clients[m.proc.dest], Step(m, WriteData(ok)).clients[m.proc.dest]);
  }

  lemma WriteDataSlice(m: Machine, ok: bool)
    requires Enabled(m, WriteData(ok)) && ProcOk(m) && SliceOk(m, m.proc.dest)
    ensures SliceOk(Step(m, WriteData(ok)), m.proc.dest)
  {
    hide Flatten, DataOf;
    var c, p, k := m.clients[m.proc.dest], m.proc.pending.value, m.proc.k;
    DataOfAppend(c.wire, p);
    var done := Flatten(m.history[c.joined..|m.history| - 1]);
    assert Current(m)[..k] + [Current(m)[k]] == Current(m)[..k + 1];
    assert done + Current(m)[..k] + [Current(m)[k]] == done + Current(m)[..k + 1];
  }

  lemma WriteDataWire(m: Machine, ok: bool)
    requires Enabled(m, WriteData(ok)) && WireOk(m, m.proc.dest) && NumbersOk(m.clients[m.proc.dest])
    ensures WireOk(Step(m, WriteData(ok)), m.proc.dest)
  {
    hide WireFacts;
    var m', id := Step(m, WriteData(ok)), m.proc.dest;
    var c, p := m.clients[id], m.proc.pending.value;
    var overtakes := c.own.Some? && c.ownAt < m.proc.at;
    assert LineOf(m'.clients[id]) == Put(LineOf(c), p, ok, overtakes) && Pending(m', id) == None;
    if overtakes {
      FactsWriteSecond(LineOf(c), c.own.value, p, ok);
    } else {
      assert Unwritten(m, id) == [p] + Unwritten(m', id);
      FactsWriteFirst(LineOf(c), p, Unwritten(m', id), ok);
    }
  }

  /** A client that got every event of the current change has got one change more. */
  lemma EndClientKeeps(m: Machine, st: State)
    requires Inv(m, st) && Enabled(m, EndClient)
    ensures Inv(Step(m, EndClient), st)
  {
    hide ClientOk, SliceOk, WireOk, NumbersOk, OwnOk, GreetOk, Flatten, Emitted, FinalState, DataOf, Convert;
    var m' := Step(m, EndClient);
    forall j | j in m'.clients ensures ClientOk(m', j) {
      assert ClientOk(m, j);
      if j == m.proc.dest {
        EndClientClient(m);
      } else {
        Frame(m, m', j);
      }
    }
  }

  lemma EndClientClient(m: Machine)
    requires Enabled(m, EndClient) && ProcOk(m) && ClientOk(m, m.proc.dest)
    ensures ClientOk(Step(m, EndClient), m.proc.dest)
  {
    hide DataOf, WireFacts, Flatten;
    var m', id, n := Step(m, EndClient), m.proc.dest, |m.history|;
    var c := m.clients[id];
    assert Current(m)[..m.proc.k] == Current(m) && Current(m')[..0] == [];
    assert m.history[c.joined..n] == m.history[c.joined..n - 1] + [Current(m)];
    FlattenAppend(m.history[c.joined..n - 1], Current(m));
    assert Flatten(m.history[c.joined..n]) + [] == Flatten(m.history[c.joined..n]);
    assert Unwritten(m', id) == Unwritten(m, id);
  }

  lemma EndChangeKeeps(m: Machine, st: State)
    requires Inv(m, st) && Enabled(m, EndChange)
    ensures Inv(Step(m, EndChange), st)
  {
    hide ClientOk, SliceOk, WireOk, NumbersOk, OwnOk, GreetOk, Flatten, Emitted, FinalState, DataOf, Convert;
    var m' := Step(m, EndChange);
    forall j | j in m'.clients ensures ClientOk(m', j) {
      assert ClientOk(m, j);
      Frame(m, m', j);
    }
  }

  lemma StepKeeps(m: Machine, st: State, a: Action)
    requires Inv(m, st) && Enabled(m, a)
    ensures Inv(Step(m, a), st)
  {
    hide Inv, Step, Enabled;
    match a
    case Connect => ConnectKeeps(m, st);
    case AssignOwn(id) => AssignOwnKeeps(m, st, id);
    case WriteOwn(id, ok) => WriteOwnKeeps(m, st, id, ok);
    case Remove(id) => RemoveKeeps(m, st, id);
    case StartChange(input) => StartChangeKeeps(m, st, input);
    case Pick(id) => PickKeeps(m, st, id);
    case AssignData => AssignDataKeeps(m, st);
    case WriteData(ok) => WriteDataKeeps(m, st, ok);
    case EndClient => EndClientKeeps(m, st);
    case EndChange => EndChangeKeeps(m, st);
  }

  // ---------------------------------------------------------------------------- runs

  function Init(st: State): Machine {
    Machine(st, map[], 1, Idle, [], [])
  }

  /** Every interleaving: any sequence of enabled steps. */
  predicate RunFrom(m: Machine, actions: seq<Action>)
    decreases |actions|
  {
    actions == [] || (Enabled(m, actions[0]) && RunFrom(Step(m, actions[0]), actions[1..]))
  }

  function RunResult(m: Machine, actions: seq<Action>): Machine
    requires RunFrom(m, actions)
    decreases |actions|
  {
    if actions == [] then m else RunResult(Step(m, actions[0]), actions[1..])
  }

  lemma {:induction false} RunKeeps(m: Machine, st: State, actions: seq<Action>)
    requires Inv(m, st) && RunFrom(m, actions)
    ensures Inv(RunResult(m, actions), st)
    decreases |actions|
  {
    hide Inv, Step, Enabled;
    if actions != [] {
      StepKeeps(m, st, actions[0]);
      RunKeeps(Step(m, actions[0]), st, actions[1..]);
    }
  }

  lemma Reachable(st: State, actions: seq<Action>)
    requires RunFrom(Init(st), actions)
    ensures Inv(RunResult(Init(st), actions), st)
  {
    RunKeeps(Init(st), st, actions);
  }

  /** Broadcast safety, contents: in every interleaving a client none of whose writes failed has been sent, apart from
      format descriptions and heartbeats, the events of the changes from its registration on, in order: all of every
      change before the one in progress, and a prefix of that one; nothing before it joined or after it left. */
  lemma ClientGetsContiguousSlice(st: State, actions: seq<Action>, id: nat)
    requires RunFrom(Init(st), actions)
    requires var m := RunResult(Init(st), actions); id in m.clients && !m.clients[id].failed
    ensures var m := RunResult(Init(st), actions);
            var c := m.clients[id];
            var (whole, part) := Reached(m, id);
            && c.joined <= whole <= |m.history| && part <= |Current(m)|
            && (part > 0 ==> whole == |m.history| - 1)
            && DataOf(c.wire) == Flatten(m.history[c.joined..whole]) + Current(m)[..part]
            && Flatten(m.history) == Emitted(st, m.inputs)
  {
    Reachable(st, actions);
    var m := RunResult(Init(st), actions);
    assert ClientOk(m, id);
  }

  /** Between changes the slice is exact: everything from joining to now, or to leaving. */
  lemma ClientGetsEverythingWhenIdle(st: State, actions: seq<Action>, id: nat)
    requires RunFrom(Init(st), actions)
    requires var m := RunResult(Init(st), actions); m.proc.Idle? && id in m.clients && !m.clients[id].failed
    ensures var m := RunResult(Init(st), actions);
            var c := m.clients[id];
            var end := if c.active then |m.history| else c.until;
            c.joined <= end <= |m.history| && DataOf(c.wire) == Flatten(m.history[c.joined..end])
  {
    Reachable(st, actions);
    var m := RunResult(Init(st), actions);
    assert ClientOk(m, id);
    assert Current(m)[..0] == [];
  }

  /** Packet numbers: the k-th number assigned to a client is k modulo 256, with no gap or repeat, and the wire carries
      exactly the assigned packets that were written: in the order of assignment if and only if no packet was written
      while one numbered before it was unwritten, which takes two sends that overlap. */
  lemma PacketNumbers(st: State, actions: seq<Action>, id: nat)
    requires RunFrom(Init(st), actions) && id in RunResult(Init(st), actions).clients
    ensures var m := RunResult(Init(st), actions);
            var c := m.clients[id];
            && (forall i :: 0 <= i < |c.issued| ==> c.issued[i].num == (i + 1) % 256)
            && (!c.failed ==> multiset(c.issued) == multiset(c.wire) + multiset(Unwritten(m, id)))
            && (!c.failed ==> (c.wire <= c.issued <==> !c.late))
            && (c.late ==> c.raced)
  {
    Reachable(st, actions);
    var m := RunResult(Init(st), actions);
    assert ClientOk(m, id);
    if !m.clients[id].failed {
      InOrderIff(LineOf(m.clients[id]), Unwritten(m, id));
    }
  }

  lemma InOrderIff(l: Line, u: seq<Packet>)
    requires WireFacts(l, u) && !l.failed
    ensures l.wire <= l.issued <==> !l.late
  {
  }

  /** In order, the k-th packet on the wire carries number k modulo 256. */
  lemma InOrderNumbers(st: State, actions: seq<Action>, id: nat)
    requires RunFrom(Init(st), actions) && id in RunResult(Init(st), actions).clients
    requires var c := RunResult(Init(st), actions).clients[id]; !c.failed && !c.late
    ensures var c := RunResult(Init(st), actions).clients[id];
            forall i :: 0 <= i < |c.wire| ==> c.wire[i].num == (i + 1) % 256
  {
    PacketNumbers(st, actions, id);
  }

  /** Connecting registers a client from the next change on, and removing one ends its part in the history. */
  lemma JoinAndLeave(m: Machine, id: nat)
    requires m.proc.Idle?
    ensures var c := Step(m, Connect).clients[m.nextId]; c.active && c.joined == |m.history| && c.nextSeq == 1 && c.wire == []
    ensures Enabled(m, Remove(id)) ==>
              var c := Step(m, Remove(id)).clients[id];
              !c.active && c.until == |m.history| && c.wire == m.clients[id].wire
  {
  }

  /** A client that was removed is sent nothing more, whatever happens. */
  lemma LeavingIsFinal(m: Machine, st: State, a: Action, id: nat)
    requires Inv(m, st) && Enabled(m, a) && id in m.clients && !m.clients[id].active
    ensures id in Step(m, a).clients && Step(m, a).clients[id] == m.clients[id]
  {
    hide Convert, After, Flatten, Emitted, FinalState, SliceOk, WireOk, NumbersOk, GreetOk;
    assert ClientOk(m, id);
  }

  /** Apart from the events, a client is sent one format description and after it only heartbeats. */
  lemma OneGreeting(st: State, actions: seq<Action>, id: nat)
    requires RunFrom(Init(st), actions) && id in RunResult(Init(st), actions).clients
    ensures var own := OwnBodies(RunResult(Init(st), actions).clients[id].issued); own == [] || Greeting(own)
  {
    hide OwnBodies;
    Reachable(st, actions);
    assert ClientOk(RunResult(Init(st), actions), id);
  }

  /** But events can come before it: a client is registered before its format description is sent, so a change that is
      processed in between reaches it first. */
  lemma EventBeforeGreeting(st: State, input: Input) returns (a: seq<Action>, m: Machine)
    ensures RunFrom(Init(st), a) && m == RunResult(Init(st), a)
    ensures 1 in m.clients && |m.clients[1].wire| == 1 && m.clients[1].wire[0].body.Data? && m.clients[1].wire[0].num == 1
  {
    hide Convert, After, RunFrom, RunResult;
    var m0 := Init(st);
    LeadsNowhere(m0);
    var m1 := Step(m0, Connect);
    Extend(m0, [], m0, Connect);
    var m2 := Step(m1, StartChange(input));
    Extend(m0, [] + [Connect], m1, StartChange(input));
    assert m2.proc == Between({1}) && {1} - {1} == {};
    var m3 := Step(m2, Pick(1));
    Extend(m0, [] + [Connect] + [StartChange(input)], m2, Pick(1));
    assert Current(m3) == Convert(st, input.change, input.clock);
    var m4 := Step(m3, AssignData);
    Extend(m0, [] + [Connect] + [StartChange(input)] + [Pick(1)], m3, AssignData);
    m := Step(m4, WriteData(true));
    Extend(m0, [] + [Connect] + [StartChange(input)] + [Pick(1)] + [AssignData], m4, WriteData(true));
    a := [] + [Connect] + [StartChange(input)] + [Pick(1)] + [AssignData] + [WriteData(true)];
  }

  ghost predicate Leads(m: Machine, a: seq<Action>, end: Machine) {
    RunFrom(m, a) && RunResult(m, a) == end
  }

  lemma {:induction false} Extend(m: Machine, a: seq<Action>, x: Machine, b: Action)
    requires Leads(m, a, x) && Enabled(x, b)
    ensures Leads(m, a + [b], Step(x, b))
    decreases |a|
  {
    hide Step, Enabled;
    if a == [] {
      assert a + [b] == [b] && [b][1..] == [];
      LeadsNowhere(Step(x, b));
    } else {
      assert (a + [b])[1..] == a[1..] + [b];
      Extend(Step(m, a[0]), a[1..], x, b);
    }
  }

  /** The format description is numbered and unwritten when the broadcast of a change reaches the client. */
  predicate AboutToRace(m: Machine) {
    var p := Packet(1, FormatDescription);
    && m.clients == map[1 := Client(true, false, 2, Some(p), 0, [], false, false, false, [p], 0, 0)]
    && m.proc == Sending({}, 1, 0, None, 0) && |Current(m)| > 0
  }

  lemma RaceSetup(st: State, input: Input) returns (a: seq<Action>, m: Machine)
    ensures Leads(Init(st), a, m) && AboutToRace(m)
  {
    hide Convert, After, Leads;
    var m0 := Init(st);
    assert Leads(m0, [], m0) by { LeadsNowhere(m0); }
    var m1 := Step(m0, Connect);
    Extend(m0, [], m0, Connect);
    var m2 := Step(m1, AssignOwn(1));
    Extend(m0, [] + [Connect], m1, AssignOwn(1));
    var m3 := Step(m2, StartChange(input));
    Extend(m0, [] + [Connect] + [AssignOwn(1)], m2, StartChange(input));
    m := Step(m3, Pick(1));
    Extend(m0, [] + [Connect] + [AssignOwn(1)] + [StartChange(input)], m3, Pick(1));
    a := [] + [Connect] + [AssignOwn(1)] + [StartChange(input)] + [Pick(1)];
    assert m3.proc == Between({1}) && {1} - {1} == {};
    var p := Packet(1, FormatDescription);
    assert m1.clients[1].issued + [p] == [p];
    assert m.clients == map[1 := Client(true, false, 2, Some(p), 0, [], false, false, false, [p], 0, 0)];
    assert Current(m) == Convert(st, input.change, input.clock);
  }

  lemma LeadsNowhere(m: Machine)
    ensures Leads(m, [], m)
  {
  }

  /** The order on the wire can differ: the format description, numbered before a data packet, is written after it. */
  lemma RacedWireOrder(st: State, input: Input) returns (a: seq<Action>, m: Machine)
    ensures RunFrom(Init(st), a) && m == RunResult(Init(st), a)
    ensures 1 in m.clients && m.clients[1].late && !m.clients[1].failed
    ensures |m.clients[1].wire| == 2 && m.clients[1].wire[0].num == 2 && m.clients[1].wire[1].num == 1
  {
    hide Convert, After, RunFrom, RunResult;
    var setup, m4 := RaceSetup(st, input);
    var m5 := Step(m4, AssignData);
    Extend(Init(st), setup, m4, AssignData);
    var m6 := Step(m5, WriteData(true));
    Extend(Init(st), setup + [AssignData], m5, WriteData(true));
    m := Step(m6, WriteOwn(1, true));
    a := setup + [AssignData] + [WriteData(true)] + [WriteOwn(1, true)];
    Extend(Init(st), setup + [AssignData] + [WriteData(true)], m6, WriteOwn(1, true));
  }
}
