/**
  The resume position of the PostgreSQL streamer (pkg/replication/pg_streamer.go): the live position set after
  every message, the checkpoint file, the position confirmed to the server, reconnects and restarts, against the
  stream of messages the source server has to deliver.
 */
module ResumePosition {
  import opened Wrappers

  datatype Kind =
    | RelationMsg(rel: nat)
    | RowMsg(rel: nat, wellFormed: bool)
    | TruncateMsg(rels: seq<nat>)
    | Marker
    | Other

  /** A message with the WAL position it starts at and the length of its data. */
  datatype Message = Message(start: nat, len: nat, kind: Kind)

  /** The position the streamer derives from a message: WALStart + len(WALData). */
  function End(m: Message): nat {
    m.start + m.len
  }

  datatype Checkpoint = Checkpoint(lsn: nat, slot: string)

  /** loadCheckpoint: a checkpoint of another slot is ignored. */
  function LoadedPosition(cp: Option<Checkpoint>, slot: string): nat {
    match cp
    case None => 0
    case Some(c) => if c.slot != "" && c.slot != slot then 0 else c.lsn
  }

  /** A checkpoint written under another slot's name counts for nothing; one of this slot, or without a name, is taken. */
  lemma ForeignCheckpointIgnored(lsn: nat, other: string, slot: string)
    ensures other != "" && other != slot ==> LoadedPosition(Some(Checkpoint(lsn, other)), slot) == 0
    ensures other == "" || other == slot ==> LoadedPosition(Some(Checkpoint(lsn, other)), slot) == lsn
    ensures LoadedPosition(None, slot) == 0
  {
  }

  /** The number of events a message calls for: a truncation has one for each of its relations. */
  function Parts(k: Kind): nat {
    match k
    case RowMsg(_, ok) => if ok then 1 else 0
    case TruncateMsg(rels) => |rels|
    case Marker => 1
    case _ => 0
  }

  /** Whether the relation of an event is known. */
  predicate Known(k: Kind, i: nat, cache: set<nat>)
    requires i < Parts(k)
  {
    match k
    case RowMsg(rel, _) => rel in cache
    case TruncateMsg(rels) => rels[i] in cache
    case Marker => true
  }

  predicate Eventful(k: Kind) {
    Parts(k) > 0
  }

  /** The events of a message that are sent, when the sends in `sent` succeed. */
  function HandedOver(k: Kind, cache: set<nat>, sent: set<nat>): set<nat> {
    set i | 0 <= i < Parts(k) && Known(k, i, cache) && i in sent
  }

  /** A truncation sends one event for each relation that is known, a row change one when its relation is, a begin or commit
      always one, and other messages none. */
  lemma EventsOfMessages(cache: set<nat>, sent: set<nat>, rel: nat, rels: seq<nat>, i: nat)
    ensures i in HandedOver(TruncateMsg(rels), cache, sent) <==> i < |rels| && rels[i] in cache && i in sent
    ensures i in HandedOver(RowMsg(rel, true), cache, sent) <==> i == 0 && rel in cache && 0 in sent
    ensures i in HandedOver(Marker, cache, sent) <==> i == 0 && 0 in sent
    ensures HandedOver(RowMsg(rel, false), cache, sent) == {} && HandedOver(RelationMsg(rel), cache, sent) == {}
  {
  }

  function Learned(k: Kind, cache: set<nat>): set<nat> {
    match k
    case RelationMsg(rel) => cache + {rel}
    case _ => cache
  }

  // ------------------------------------------------------------------- the streamer object

  class PGStreamer {
    const slot: string
    var clientXLogPos: nat
    var tableCache: set<nat>

    constructor (slot: string, saved: Option<Checkpoint>)
      ensures this.slot == slot && clientXLogPos == LoadedPosition(saved, slot) && tableCache == {}
    {
      this.slot := slot;
      clientXLogPos := LoadedPosition(saved, slot);
      tableCache := {};
    }

    /** handleXLogData: the message is parsed and its events sent one by one before the position moves past it.  Each send
        hands its event to the channel when its index is in `sent`, and gives up on a timeout or a shutdown otherwise. */
    method HandleXLogData(m: Message, sent: set<nat>) returns (handed: set<nat>)
      modifies this`clientXLogPos, this`tableCache
      ensures clientXLogPos == m.start + m.len == End(m) && tableCache == Learned(m.kind, old(tableCache))
      ensures handed == HandedOver(m.kind, old(tableCache), sent)
    {
      handed := {};
      match m.kind {
        case RelationMsg(rel) =>
          tableCache := tableCache + {rel};
        case RowMsg(rel, ok) =>
          if ok && rel in tableCache && 0 in sent {
            handed := {0};
          }
        case TruncateMsg(rels) =>
          for i := 0 to |rels|
            invariant handed == set j | 0 <= j < i && rels[j] in tableCache && j in sent
          {
            if rels[i] in tableCache && i in sent {
              handed := handed + {i};
            }
          }
        case Marker =>
          if 0 in sent {
            handed := {0};
          }
        case Other =>
      }
      clientXLogPos := m.start + m.len;
    }

    method SaveCheckpoint() returns (cp: Checkpoint)
      ensures cp == Checkpoint(clientXLogPos, slot) && LoadedPosition(Some(cp), slot) == clientXLogPos
    {
      cp := Checkpoint(clientXLogPos, slot);
    }
  }

  // --------------------------------------------------------------------- the state machine

  /** An event, by its message and its place in the message. */
  type Part = (nat, nat)

  /** `next` is the index of the message the current session delivers next; `handed`, `unknown` and `lost` are the
      events that went to the channel, whose relation was not known, and that were given up. */
  datatype State = State(live: nat, cache: set<nat>, saved: Option<Checkpoint>, confirmed: nat, connected: bool,
                         next: nat, handed: set<Part>, unknown: set<Part>, lost: set<Part>)

  datatype Action =
    | Deliver(sent: set<nat>)
    | Save
    | Confirm
    | Disconnect
    | Reconnect(from: nat)
    | Restart(from: nat)

  function Max(a: nat, b: nat): nat {
    if a < b then b else a
  }

  /** A server asked to start at `p` leaves out no message that ends after `p`; it may resend earlier ones. */
  ghost predicate ResumesAt(w: seq<Message>, from: nat, p: nat) {
    from <= |w| && forall i :: 0 <= i < from ==> End(w[i]) <= p
  }

  ghost predicate Enabled(w: seq<Message>, slot: string, s: State, a: Action) {
    match a
    case Deliver(_) => s.connected && s.next < |w|
    case Save => true
    case Confirm => s.connected
    case Disconnect => s.connected
    case Reconnect(from) => !s.connected && ResumesAt(w, from, Max(s.live, s.confirmed))
    case Restart(from) => ResumesAt(w, from, Max(LoadedPosition(s.saved, slot), s.confirmed))
  }

  function Step(w: seq<Message>, slot: string, s: State, a: Action): State
    requires a.Deliver? ==> s.next < |w|
  {
    match a
    case Deliver(sent) =>
      var m, n := w[s.next], s.next;
      s.(live := End(m), cache := Learned(m.kind, s.cache), next := n + 1,
         handed := s.handed + set i | 0 <= i < Parts(m.kind) && Known(m.kind, i, s.cache) && i in sent :: (n, i),
         unknown := s.unknown + set i | 0 <= i < Parts(m.kind) && !Known(m.kind, i, s.cache) :: (n, i),
         lost := s.lost + set i | 0 <= i < Parts(m.kind) && Known(m.kind, i, s.cache) && i !in sent :: (n, i))
    case Save => s.(saved := Some(Checkpoint(s.live, slot)))
    case Confirm => s.(confirmed := Max(s.confirmed, s.live))
    case Disconnect => s.(connected := false)
    case Reconnect(from) => s.(connected := true, next := from)
    case Restart(from) =>
      s.(live := LoadedPosition(s.saved, slot), cache := {}, connected := true, next := from)
  }

  /** Safety is not bought by standing still: a delivery moves the live position behind the message, a save makes it the one
      a restart loads, a confirmation confirms it, and a restart resumes at the saved one with no relation known. */
  lemma PositionsMove(w: seq<Message>, slot: string, s: State, sent: set<nat>, from: nat)
    requires s.next < |w|
    ensures var d := Step(w, slot, s, Deliver(sent)); d.live == w[s.next].start + w[s.next].len && d.next == s.next + 1
    ensures LoadedPosition(Step(w, slot, s, Save).saved, slot) == s.live
    ensures Step(w, slot, s, Confirm).confirmed >= s.live
    ensures Step(w, slot, s, Reconnect(from)).live == s.live && Step(w, slot, s, Reconnect(from)).next == from
    ensures var d := Step(w, slot, s, Restart(from));
            d.live == LoadedPosition(s.saved, slot) && d.next == from && d.cache == {} && d.saved == s.saved
  {
  }

  function Init(): State {
    State(0, {}, None, 0, false, 0, {}, {}, {})
  }

  ghost predicate RunFrom(w: seq<Message>, slot: string, s: State, actions: seq<Action>)
    decreases |actions|
  {
    actions == []
    || (Enabled(w, slot, s, actions[0]) && RunFrom(w, slot, Step(w, slot, s, actions[0]), actions[1..]))
  }

  ghost function RunResult(w: seq<Message>, slot: string, s: State, actions: seq<Action>): State
    requires RunFrom(w, slot, s, actions)
    decreases |actions|
  {
    if actions == [] then s else RunResult(w, slot, Step(w, slot, s, actions[0]), actions[1..])
  }

  // ---------------------------------------------------------------------------- safety

  /** Each change ends strictly after every message delivered before it. */
  ghost predicate Ordered(w: seq<Message>) {
    forall i, j :: 0 <= i < j < |w| && Eventful(w[j].kind) ==> End(w[i]) < End(w[j])
  }

  /** Every event of a change that ends at or before `p` has been handed to the channel: starting at `p` skips nothing. */
  ghost predicate SafeAt(w: seq<Message>, s: State, p: nat) {
    forall i, k :: 0 <= i < |w| && 0 <= k < Parts(w[i].kind) && End(w[i]) <= p ==> (i, k) in s.handed
  }

  ghost predicate Safe(w: seq<Message>, slot: string, s: State) {
    SafeAt(w, s, s.live) && SafeAt(w, s, LoadedPosition(s.saved, slot)) && SafeAt(w, s, s.confirmed)
  }

  /** No event was given up and no change came before its relation. */
  predicate Clean(s: State) {
    s.lost == {} && s.unknown == {}
  }

  /** Delivered, whether or not its event got through. */
  predicate Seen(s: State, i: nat, k: nat) {
    (i, k) in s.handed || (i, k) in s.unknown || (i, k) in s.lost
  }

  ghost predicate AllSeen(s: State, m: Message, i: nat) {
    forall k :: 0 <= k < Parts(m.kind) ==> Seen(s, i, k)
  }

  ghost predicate Covers(w: seq<Message>, s: State, p: nat) {
    forall i :: 0 <= i < |w| && End(w[i]) <= p ==> AllSeen(s, w[i], i)
  }

  /** Inside a session every event before the next message has been seen. */
  ghost predicate Inv(w: seq<Message>, slot: string, s: State) {
    && s.next <= |w|
    && (s.connected ==> forall i :: 0 <= i < s.next ==> AllSeen(s, w[i], i))
    && Covers(w, s, s.live) && Covers(w, s, LoadedPosition(s.saved, slot)) && Covers(w, s, s.confirmed)
  }

  /** Messages carry data, so none of them ends at position zero. */
  ghost predicate NonEmpty(w: seq<Message>) {
    forall i :: 0 <= i < |w| ==> w[i].len > 0
  }

  /** What has been seen stays seen. */
  lemma SeenStays(w: seq<Message>, slot: string, s: State, a: Action, m: Message, i: nat)
    requires (a.Deliver? ==> s.next < |w|) && AllSeen(s, m, i)
    ensures AllSeen(Step(w, slot, s, a), m, i)
  {
    var s' := Step(w, slot, s, a);
    forall k | 0 <= k < Parts(m.kind) ensures Seen(s', i, k) {
      assert Seen(s, i, k);
    }
  }

  /** Delivering a message accounts for each of its events. */
  lemma DeliverSees(w: seq<Message>, slot: string, s: State, sent: set<nat>)
    requires s.next < |w|
    ensures AllSeen(Step(w, slot, s, Deliver(sent)), w[s.next], s.next)
  {
    var s', m, n := Step(w, slot, s, Deliver(sent)), w[s.next], s.next;
    forall k | 0 <= k < Parts(m.kind) ensures Seen(s', n, k) {
      if !Known(m.kind, k, s.cache) {
        assert (n, k) in s'.unknown;
      } else if k in sent {
        assert (n, k) in s'.handed;
      } else {
        assert (n, k) in s'.lost;
      }
    }
  }

  lemma CoversStays(w: seq<Message>, slot: string, s: State, a: Action, p: nat)
    requires (a.Deliver? ==> s.next < |w|) && Covers(w, s, p)
    ensures Covers(w, Step(w, slot, s, a), p)
  {
    hide AllSeen;
    forall i | 0 <= i < |w| && End(w[i]) <= p ensures AllSeen(Step(w, slot, s, a), w[i], i) {
      SeenStays(w, slot, s, a, w[i], i);
    }
  }

  lemma NoParts(s: State, m: Message, i: nat)
    requires !Eventful(m.kind)
    ensures AllSeen(s, m, i)
  {
  }

  lemma StepKeeps(w: seq<Message>, slot: string, s: State, a: Action)
    requires Ordered(w) && NonEmpty(w) && Inv(w, slot, s) && Enabled(w, slot, s, a)
    ensures Inv(w, slot, Step(w, slot, s, a))
  {
    hide AllSeen, Parts;
    CoversStays(w, slot, s, a, s.live);
    CoversStays(w, slot, s, a, LoadedPosition(s.saved, slot));
    CoversStays(w, slot, s, a, s.confirmed);
    match a
    case Deliver(sent) => DeliverKeeps(w, slot, s, sent);
    case Save => SeenUpToStays(w, slot, s, a, if s.connected then s.next else 0);
    case Confirm => SeenUpToStays(w, slot, s, a, s.next);
    case Disconnect =>
    case Reconnect(from) =>
      ResumeSeen(w, s, from, s.live);
      SeenUpToStays(w, slot, s, a, from);
    case Restart(from) =>
      ResumeSeen(w, s, from, LoadedPosition(s.saved, slot));
      SeenUpToStays(w, slot, s, a, from);
  }

  lemma SeenUpToStays(w: seq<Message>, slot: string, s: State, a: Action, n: nat)
    requires (a.Deliver? ==> s.next < |w|) && n <= |w| && forall i :: 0 <= i < n ==> AllSeen(s, w[i], i)
    ensures forall i :: 0 <= i < n ==> AllSeen(Step(w, slot, s, a), w[i], i)
  {
    hide AllSeen;
    forall i | 0 <= i < n ensures AllSeen(Step(w, slot, s, a), w[i], i) {
      SeenStays(w, slot, s, a, w[i], i);
    }
  }

  /** After a delivery every event before the next message is seen, and no later change ends at the new position. */
  lemma DeliverKeeps(w: seq<Message>, slot: string, s: State, sent: set<nat>)
    requires Ordered(w) && Inv(w, slot, s) && s.connected && s.next < |w|
    ensures var s' := Step(w, slot, s, Deliver(sent));
            (forall i :: 0 <= i < s'.next ==> AllSeen(s', w[i], i)) && Covers(w, s', s'.live)
  {
    hide AllSeen, Parts;
    var s' := Step(w, slot, s, Deliver(sent));
    forall i | 0 <= i < s'.next ensures AllSeen(s', w[i], i) {
      if i == s.next {
        DeliverSees(w, slot, s, sent);
      } else {
        SeenStays(w, slot, s, Deliver(sent), w[i], i);
      }
    }
    forall i | 0 <= i < |w| && End(w[i]) <= s'.live ensures AllSeen(s', w[i], i) {
      if i > s.next {
        NoParts(s', w[i], i);
      }
    }
  }

  /** Wherever the server resumes, every event before has been seen. */
  lemma ResumeSeen(w: seq<Message>, s: State, from: nat, p: nat)
    requires ResumesAt(w, from, Max(p, s.confirmed)) && Covers(w, s, p) && Covers(w, s, s.confirmed)
    ensures forall i :: 0 <= i < from ==> AllSeen(s, w[i], i)
  {
    hide AllSeen;
    forall i | 0 <= i < from ensures AllSeen(s, w[i], i) {
      assert End(w[i]) <= Max(p, s.confirmed);
    }
  }

  lemma {:induction false} RunKeeps(w: seq<Message>, slot: string, s: State, actions: seq<Action>)
    requires Ordered(w) && NonEmpty(w) && Inv(w, slot, s) && RunFrom(w, slot, s, actions)
    ensures Inv(w, slot, RunResult(w, slot, s, actions))
    decreases |actions|
  {
    hide Inv, Step, Ordered, NonEmpty;
    if actions != [] {
      StepKeeps(w, slot, s, actions[0]);
      RunKeeps(w, slot, Step(w, slot, s, actions[0]), actions[1..]);
    }
  }

  lemma ReachableInv(w: seq<Message>, slot: string, actions: seq<Action>)
    requires Ordered(w) && NonEmpty(w) && RunFrom(w, slot, Init(), actions)
    ensures Inv(w, slot, RunResult(w, slot, Init(), actions))
  {
    assert forall i :: 0 <= i < |w| ==> End(w[i]) > 0;
    RunKeeps(w, slot, Init(), actions);
  }

  /** Resume safety: over any number of reconnects, saves, confirmations and restarts, with changes that end in
      delivery order, every change that ends at or before the live, saved or confirmed position has been handed over,
      provided no event was given up and every relation was announced before its changes. */
  lemma ResumeIsSafe(w: seq<Message>, slot: string, actions: seq<Action>)
    requires Ordered(w) && NonEmpty(w) && RunFrom(w, slot, Init(), actions)
    requires Clean(RunResult(w, slot, Init(), actions))
    ensures Safe(w, slot, RunResult(w, slot, Init(), actions))
  {
    hide RunFrom, RunResult;
    ReachableInv(w, slot, actions);
    var s := RunResult(w, slot, Init(), actions);
    CoveredIsSafe(w, s, s.live);
    CoveredIsSafe(w, s, LoadedPosition(s.saved, slot));
    CoveredIsSafe(w, s, s.confirmed);
  }

  lemma CoveredIsSafe(w: seq<Message>, s: State, p: nat)
    requires Covers(w, s, p) && Clean(s)
    ensures SafeAt(w, s, p)
  {
    forall i, k | 0 <= i < |w| && 0 <= k < Parts(w[i].kind) && End(w[i]) <= p ensures (i, k) in s.handed {
      assert AllSeen(s, w[i], i);
      assert Seen(s, i, k);
    }
  }

  /** An event that was given up or whose relation was unknown, and that was never handed over since. */
  predicate Missing(s: State, i: nat, k: nat) {
    ((i, k) in s.lost || (i, k) in s.unknown) && (i, k) !in s.handed
  }

  /** Without that proviso a position is safe exactly when every event still missing ends after it. */
  lemma SafeIffNothingMissingBelow(w: seq<Message>, slot: string, actions: seq<Action>)
    requires Ordered(w) && NonEmpty(w) && RunFrom(w, slot, Init(), actions)
    ensures var s := RunResult(w, slot, Init(), actions);
            SafeAt(w, s, s.live) <==>
              forall i, k :: 0 <= i < |w| && 0 <= k < Parts(w[i].kind) && Missing(s, i, k) ==> End(w[i]) > s.live
  {
    hide RunFrom, RunResult;
    ReachableInv(w, slot, actions);
    var s := RunResult(w, slot, Init(), actions);
    MissingBelowIff(w, s, s.live);
  }

  lemma MissingBelowIff(w: seq<Message>, s: State, p: nat)
    requires Covers(w, s, p)
    ensures SafeAt(w, s, p) <==>
              forall i, k :: 0 <= i < |w| && 0 <= k < Parts(w[i].kind) && Missing(s, i, k) ==> End(w[i]) > p
  {
    if forall i, k :: 0 <= i < |w| && 0 <= k < Parts(w[i].kind) && Missing(s, i, k) ==> End(w[i]) > p {
      forall i, k | 0 <= i < |w| && 0 <= k < Parts(w[i].kind) && End(w[i]) <= p ensures (i, k) in s.handed {
        assert AllSeen(s, w[i], i);
        assert Seen(s, i, k) && !Missing(s, i, k);
      }
    }
  }

  // -------------------------------------------------------- the order of messages is needed

  /** Every event comes after a message announcing its relation. */
  ghost predicate Announced(w: seq<Message>) {
    forall i, k :: 0 <= i < |w| && 0 <= k < Parts(w[i].kind) ==> Known(w[i].kind, k, AnnouncedBefore(w, i))
  }

  function AnnouncedBefore(w: seq<Message>, n: nat): set<nat>
    requires n <= |w|
  {
    if n == 0 then {} else Learned(w[n - 1].kind, AnnouncedBefore(w, n - 1))
  }

  function Below(n: nat): (r: set<nat>)
    ensures forall i :: i in r <==> 0 <= i < n
  {
    if n == 0 then {} else Below(n - 1) + {n - 1}
  }

  function AllParts(k: Kind): set<nat> {
    Below(Parts(k))
  }

  /** Connecting at the beginning and receiving `n` messages, all of whose events get through. */
  function Receive(w: seq<Message>, n: nat): (a: seq<Action>)
    requires n <= |w|
    ensures |a| == n + 1
  {
    if n == 0 then [Reconnect(0)] else Receive(w, n - 1) + [Deliver(AllParts(w[n - 1].kind))]
  }

  lemma {:induction false} RunAppend(w: seq<Message>, slot: string, s: State, actions: seq<Action>, a: Action)
    requires RunFrom(w, slot, s, actions) && Enabled(w, slot, RunResult(w, slot, s, actions), a)
    ensures RunFrom(w, slot, s, actions + [a])
    ensures RunResult(w, slot, s, actions + [a]) == Step(w, slot, RunResult(w, slot, s, actions), a)
    decreases |actions|
  {
    hide Step;
    if actions == [] {
      assert (actions + [a])[1..] == [];
      assert RunFrom(w, slot, Step(w, slot, s, a), []);
    } else {
      assert (actions + [a])[1..] == actions[1..] + [a] && (actions + [a])[0] == actions[0];
      RunAppend(w, slot, Step(w, slot, s, actions[0]), actions[1..], a);
    }
  }

  lemma {:induction false} ReceiveRuns(w: seq<Message>, slot: string, n: nat)
    requires n <= |w| && Announced(w)
    ensures RunFrom(w, slot, Init(), Receive(w, n))
    ensures var s := RunResult(w, slot, Init(), Receive(w, n));
            && s.connected && s.next == n && Clean(s) && s.cache == AnnouncedBefore(w, n)
            && (forall p :: p in s.handed ==> p.0 < n)
            && (n > 0 ==> s.live == End(w[n - 1]))
  {
    if n == 0 {
      var s := Step(w, slot, Init(), Reconnect(0));
      assert [Reconnect(0)][1..] == [] && RunFrom(w, slot, s, []);
    } else {
      ReceiveRuns(w, slot, n - 1);
      hide RunFrom, RunResult, Parts, Known, Learned;
      var a := Deliver(AllParts(w[n - 1].kind));
      RunAppend(w, slot, Init(), Receive(w, n - 1), a);
      DeliverAll(w, slot, RunResult(w, slot, Init(), Receive(w, n - 1)));
    }
  }

  /** A message whose relations are known and whose sends succeed leaves the run clean. */
  lemma DeliverAll(w: seq<Message>, slot: string, s: State)
    requires s.next < |w| && Clean(s)
    requires forall k :: 0 <= k < Parts(w[s.next].kind) ==> Known(w[s.next].kind, k, s.cache)
    requires forall p :: p in s.handed ==> p.0 < s.next
    ensures var s' := Step(w, slot, s, Deliver(AllParts(w[s.next].kind)));
            && Clean(s') && s'.live == End(w[s.next]) && s'.next == s.next + 1
            && s'.connected == s.connected && s'.cache == Learned(w[s.next].kind, s.cache)
            && forall p :: p in s'.handed ==> p.0 < s'.next
  {
    var kind, n := w[s.next].kind, s.next;
    var s' := Step(w, slot, s, Deliver(AllParts(kind)));
    assert s'.unknown == {};
    assert s'.lost == {};
  }

  /** The streamer's position rule is safe for a stream in every clean run if and only if each change of the stream
      ends after the messages before it. */
  lemma SafeIffOrdered(w: seq<Message>, slot: string)
    requires NonEmpty(w) && Announced(w)
    ensures Ordered(w) <==>
      (forall actions :: RunFrom(w, slot, Init(), actions) && Clean(RunResult(w, slot, Init(), actions))
         ==> Safe(w, slot, RunResult(w, slot, Init(), actions)))
  {
    if Ordered(w) {
      forall actions | RunFrom(w, slot, Init(), actions) && Clean(RunResult(w, slot, Init(), actions))
        ensures Safe(w, slot, RunResult(w, slot, Init(), actions))
      {
        ResumeIsSafe(w, slot, actions);
      }
    } else {
      var i, j :| 0 <= i < j < |w| && Eventful(w[j].kind) && End(w[i]) >= End(w[j]);
      ReceiveRuns(w, slot, i + 1);
      var s := RunResult(w, slot, Init(), Receive(w, i + 1));
      assert !SafeAt(w, s, s.live) by {
        assert End(w[j]) <= s.live && (j, 0) !in s.handed;
      }
    }
  }

  /** Two interleaved transactions delivered in commit order: the change of the one that commits second starts before
      the commit of the first, so the position after that commit already lies beyond it. */
  lemma InterleavedTransactionsAreUnsafe(slot: string)
    ensures var w := [Message(90, 5, RelationMsg(1)), Message(200, 20, RowMsg(1, true)), Message(250, 20, Marker),
                      Message(100, 20, RowMsg(1, true))];
            NonEmpty(w) && Announced(w)
            && exists actions :: RunFrom(w, slot, Init(), actions)
                 && Clean(RunResult(w, slot, Init(), actions)) && !Safe(w, slot, RunResult(w, slot, Init(), actions))
  {
    var w := [Message(90, 5, RelationMsg(1)), Message(200, 20, RowMsg(1, true)), Message(250, 20, Marker),
              Message(100, 20, RowMsg(1, true))];
    assert AnnouncedBefore(w, 1) == {1};
    assert AnnouncedBefore(w, 2) == {1};
    assert AnnouncedBefore(w, 3) == {1};
    SafeIffOrdered(w, slot);
    assert End(w[2]) >= End(w[3]) && Eventful(w[3].kind);
    assert !Ordered(w);
  }
}
