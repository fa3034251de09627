/** The chat authority (examples/chat/src/server.rs) under any interleaving of its connections: the
    lock sections, broadcasts and sends of a connection are its atomic steps.  Composed with the
    client of Handshake. */
module ChatServer {
  import opened Wrappers
  import opened BoundedWindow
  import opened Handshake

  datatype ChatMessage = ChatMessage(author: string, text: string, timestamp: nat)

  /** A room snapshot; the list of names is kept per session. */
  datatype ChatSnapshot = ChatSnapshot(messages: seq<ChatMessage>, users: map<nat, string>)

  type Out = ServerWire<ChatSnapshot>

  datatype Room = Room(messages: seq<ChatMessage>, users: map<nat, string>)

  function Added(room: Room, m: ChatMessage): Room { room.(messages := PushBounded(100, room.messages, m)) }

  function SnapshotOf(room: Room): ChatSnapshot { ChatSnapshot(Last(50, room.messages), room.users) }

  function NameOf(users: map<nat, string>, session: nat): string {
    if session in users then users[session] else "unknown"
  }

  class ChatRoom {
    var messages: seq<ChatMessage>
    var users: map<nat, string>

    ghost function Abstract(): Room
      reads this
    {
      Room(messages, users)
    }

    constructor ()
      ensures Abstract() == Room([], map[])
    {
      messages, users := [], map[];
    }

    method OnConnect(session: nat, name: string)
      modifies this`users
      ensures users == old(users)[session := name]
    {
      users := users[session := name];
    }

    method OnDisconnect(session: nat)
      modifies this`users
      ensures users == old(users) - {session}
    {
      users := users - {session};
    }

    method HandleIntent(session: nat, text: string, timestamp: nat)
      modifies this`messages
      ensures Abstract() == Added(old(Abstract()), ChatMessage(NameOf(users, session), text, timestamp))
    {
      var name := if session in users then users[session] else "unknown";
      messages := messages + [ChatMessage(name, text, timestamp)];
      if |messages| > 100 {
        messages := messages[1..];
      }
    }

    method Snapshot() returns (s: ChatSnapshot)
      ensures s == SnapshotOf(Abstract())
    {
      s := ChatSnapshot(if |messages| > 50 then messages[|messages| - 50..] else messages, users);
    }
  }

  // -------------------------------------------------------------------------
  // The protocol.
  // -------------------------------------------------------------------------

  datatype Stage =
    | Accepted
    | Authed          // in the room, nothing sent
    | ManifestSent
    | Announced       // its join is broadcast
    | Greeted         // the snapshot with seq 0 is sent, not yet subscribed
    | Live            // subscribed
    | Leaving         // out of the room, its leave not yet broadcast
    | Gone
    | Aborted         // an early return: the room is not told

  /** `seqNo` is the connection's own counter; `greetedAt` the length of the room's history when
      the snapshot with seq 0 was taken.  It subscribed when the channel had length `subPos` and has
      read up to `pos`, but for the positions the channel dropped. */
  datatype Conn = Conn(stage: Stage, session: nat, name: string, seqNo: nat, outbox: seq<Out>, greetedAt: nat,
                       subPos: nat, pos: nat, dropped: set<nat>)

  /** What is on the channel, and the length of the room's history when it was sent. */
  datatype Item = Item(sender: nat, wire: Out, at: nat)

  datatype Server = Server(manifest: string, room: Room, history: seq<ChatMessage>, nextSession: nat,
                           channel: seq<Item>, conns: map<nat, Conn>)

  datatype Action =
    | Accept(id: nat)
    | Authenticate(id: nat, name: string, passportName: Option<string>)
    | SendManifest(id: nat)
    | BroadcastJoin(id: nat)
    | SendSnapshot(id: nat)
    | Subscribe(id: nat)
    | Intent(id: nat, text: string, timestamp: nat)
    | Reply(id: nat, wire: Out)       // a direct answer: Transfer, Error or Pong
    | Forward(id: nat)
    | Lag(id: nat, to: nat)           // messages dropped by the channel
    | Leave(id: nat)
    | BroadcastLeave(id: nat)
    | Abort(id: nat)

  function Goto(s: Server, id: nat, c: Conn): Server {
    s.(conns := s.conns[id := c])
  }

  function Between(from: nat, to: nat): (ps: set<nat>)
    ensures forall p: nat :: (p in ps <==> from <= p < to)
    decreases if from < to then to - from else 0
  {
    if from >= to then {} else {from} + Between(from + 1, to)
  }

  function Next(s: Server, a: Action): Option<Server> {
    if a.Accept? then
      if a.id in s.conns then None else Some(Goto(s, a.id, Conn(Accepted, 0, "", 1, [], 0, 0, 0, {})))
    else if a.id !in s.conns then None
    else
      var c := s.conns[a.id];
      match (a, c.stage)
      case (Authenticate(id, name, passportName), Accepted) =>
        // a transfer enters the name of its passport, a plain connection the display name
        var entered := if passportName.Some? then passportName.value else name;
        Some(Goto(s, id, c.(stage := Authed, session := s.nextSession, name := name))
              .(nextSession := s.nextSession + 1,
                room := s.room.(users := s.room.users[s.nextSession := entered])))
      case (SendManifest(id), Authed) =>
        Some(Goto(s, id, c.(stage := ManifestSent, outbox := c.outbox + [Manifest(s.manifest)])))
      case (BroadcastJoin(id), ManifestSent) =>
        Some(Goto(s, id, c.(stage := Announced))
              .(channel := s.channel + [Item(id, System(c.name + " joined"), |s.history|)]))
      case (SendSnapshot(id), Announced) =>
        Some(Goto(s, id, c.(stage := Greeted, outbox := c.outbox + [Snapshot(0, SnapshotOf(s.room))],
                                        greetedAt := |s.history|)))
      case (Subscribe(id), Greeted) =>
        Some(Goto(s, id, c.(stage := Live, subPos := |s.channel|, pos := |s.channel|)))
      case (Intent(id, text, timestamp), Live) =>
        var m := ChatMessage(NameOf(s.room.users, c.session), text, timestamp);
        var room := Added(s.room, m);
        Some(Goto(s, id, c.(seqNo := c.seqNo + 1))
              .(room := room, history := s.history + [m],
                channel := s.channel + [Item(id, Snapshot(c.seqNo, SnapshotOf(room)), |s.history| + 1)]))
      case (Reply(id, wire), Live) =>
        if wire.Transfer? || wire.Error? || wire.Pong? then Some(Goto(s, id, c.(outbox := c.outbox + [wire]))) else None
      case (Forward(id), Live) =>
        if c.pos >= |s.channel| then None
        else Some(Goto(s, id, c.(pos := c.pos + 1, outbox := c.outbox + [s.channel[c.pos].wire])))
      case (Lag(id, to), Live) =>
        // the channel keeps the last hundred at least
        if c.pos < to && to + 100 <= |s.channel| then
          Some(Goto(s, id, c.(pos := to, dropped := c.dropped + Between(c.pos, to))))
        else None
      case (Leave(id), Live) =>
        Some(Goto(s, id, c.(stage := Leaving)).(room := s.room.(users := s.room.users - {c.session})))
      case (BroadcastLeave(id), Leaving) =>
        Some(Goto(s, id, c.(stage := Gone))
              .(channel := s.channel + [Item(id, System(c.name + " left"), |s.history|)]))
      case (Abort(id), stage) =>
        if stage.Leaving? || stage.Gone? || stage.Aborted? then None else Some(Goto(s, id, c.(stage := Aborted)))
      case _ => None
  }

  function Start(manifest: string): Server {
    Server(manifest, Room([], map[]), [], 1, [], map[])
  }

  /** The state after the actions, None when one of them is not enabled. */
  function Run(manifest: string, actions: seq<Action>): Option<Server> {
    if actions == [] then Some(Start(manifest))
    else
      var before := Run(manifest, actions[..|actions| - 1]);
      if before.None? then None else Next(before.value, actions[|actions| - 1])
  }

  // -------------------------------------------------------------------------
  // The invariant.
  // -------------------------------------------------------------------------

  /** The seqs of one connection's snapshots on the channel, in order. */
  function OwnSeqs(channel: seq<Item>, id: nat): seq<nat> {
    if channel == [] then []
    else
      var last := channel[|channel| - 1];
      OwnSeqs(channel[..|channel| - 1], id) + if last.sender == id && last.wire.Snapshot? then [last.wire.seqNo] else []
  }

  predicate CountsUp(seqs: seq<nat>) {
    forall i :: 0 <= i < |seqs| ==> seqs[i] == i + 1
  }

  /** In the room: authenticated and not out of it again. */
  predicate InRoom(stage: Stage) {
    stage.Authed? || stage.ManifestSent? || stage.Announced? || stage.Greeted? || stage.Live?
  }

  /** Connections that the room shows: those in it, and those that broke off after they authenticated,
      which nobody takes out. */
  predicate Shown(c: Conn) {
    c.session != 0 && (InRoom(c.stage) || c.stage.Aborted?)
  }

  predicate Owns(s: Server, id: nat, user: nat) {
    id in s.conns && Shown(s.conns[id]) && s.conns[id].session == user
  }

  /** Manifest, then the snapshot with seq 0 of the room as it was then, the client in it. */
  predicate Greeting(c: Conn, manifest: string, history: seq<ChatMessage>)
    requires |c.outbox| >= 2
  {
    && c.outbox[0] == Manifest(manifest) && c.outbox[1].Snapshot? && c.outbox[1].seqNo == 0
    && c.session in c.outbox[1].data.users
    && c.greetedAt <= |history| && c.outbox[1].data.messages == Last(50, history[..c.greetedAt])
  }

  /** How much a connection has been sent, at least, by its stage. */
  predicate SentAtStage(stage: Stage, n: nat) {
    match stage
    case Accepted => n == 0
    case Authed => n == 0
    case ManifestSent => n == 1
    case Announced => n == 1
    case Greeted => n == 2
    case Aborted => true
    case _ => n >= 2
  }

  predicate OutboxInv(c: Conn, manifest: string, history: seq<ChatMessage>) {
    && SentAtStage(c.stage, |c.outbox|)
    && (|c.outbox| == 1 ==> c.outbox[0] == Manifest(manifest))
    && (|c.outbox| >= 2 ==> Greeting(c, manifest, history))
  }

  predicate ConnInv(c: Conn, s: Server, id: nat) {
    && OutboxInv(c, s.manifest, s.history)
    && (InRoom(c.stage) || Shown(c) ==> c.session in s.room.users)
    && c.session < s.nextSession
    && (c.stage.Aborted? || (c.stage.Accepted? <==> c.session == 0))
  }

  predicate SeqInv(c: Conn, channel: seq<Item>, id: nat) {
    CountsUp(OwnSeqs(channel, id)) && c.seqNo == |OwnSeqs(channel, id)| + 1
  }

  ghost predicate Inv(s: Server) {
    && s.nextSession >= 1
    && s.room.messages == Last(100, s.history)
    && (forall i :: 0 <= i < |s.channel| ==> s.channel[i].sender in s.conns)
    && (forall id :: id in s.conns ==> ConnInv(s.conns[id], s, id))
    && (forall id :: id in s.conns ==> SeqInv(s.conns[id], s.channel, id))
    && (forall i, j :: i in s.conns && j in s.conns && i != j && s.conns[i].session == s.conns[j].session ==>
          s.conns[i].session == 0)
    && (forall u :: u in s.room.users ==> 0 < u < s.nextSession)
    && (forall u :: u in s.room.users ==> exists id :: Owns(s, id, u))
  }

  lemma OwnSeqsSnoc(channel: seq<Item>, item: Item, id: nat)
    ensures OwnSeqs(channel + [item], id) ==
            OwnSeqs(channel, id) + if item.sender == id && item.wire.Snapshot? then [item.wire.seqNo] else []
  {
    assert (channel + [item])[..|channel|] == channel;
  }

  lemma {:induction false} NoOwnSeqs(channel: seq<Item>, id: nat)
    requires forall i :: 0 <= i < |channel| ==> channel[i].sender != id
    ensures OwnSeqs(channel, id) == []
  {
    if channel != [] {
      NoOwnSeqs(channel[..|channel| - 1], id);
    }
  }

  /** A step touches its own connection only, and appends at most one item of its own. */
  lemma OthersStay(s: Server, a: Action)
    requires Next(s, a).Some?
    ensures var s' := Next(s, a).value;
            && a.id in s'.conns
            && (forall id :: id != a.id ==> (id in s'.conns <==> id in s.conns))
            && (forall id :: id != a.id && id in s.conns ==> s'.conns[id] == s.conns[id])
  {
    hide Added, SnapshotOf, NameOf;
  }

  lemma ChannelStep(s: Server, a: Action) returns (added: seq<Item>)
    requires Next(s, a).Some?
    ensures var s' := Next(s, a).value;
            && s'.channel == s.channel + added && |added| <= 1
            && (added != [] ==> added[0].sender == a.id)
            && (a.id !in s.conns ==> added == [] && s'.conns[a.id].seqNo == 1)
            && (a.id in s.conns ==>
                  if added != [] && added[0].wire.Snapshot?
                  then added[0].wire.seqNo == s.conns[a.id].seqNo && s'.conns[a.id].seqNo == s.conns[a.id].seqNo + 1
                  else s'.conns[a.id].seqNo == s.conns[a.id].seqNo)
  {
    hide Added, SnapshotOf, NameOf;
    added := Next(s, a).value.channel[|s.channel|..];
  }

  lemma SeqStep(s: Server, a: Action, id: nat)
    requires forall i :: 0 <= i < |s.channel| ==> s.channel[i].sender in s.conns
    requires id in s.conns ==> SeqInv(s.conns[id], s.channel, id)
    requires Next(s, a).Some? && id in Next(s, a).value.conns
    ensures SeqInv(Next(s, a).value.conns[id], Next(s, a).value.channel, id)
  {
    OthersStay(s, a);
    var added := ChannelStep(s, a);
    hide Next, OwnSeqs, CountsUp;
    if id !in s.conns {
      NoOwnSeqs(s.channel, id);
      assert s.channel + added == s.channel;
      assert CountsUp([]) by { CountsUpNone(); }
    } else if added == [] {
      assert s.channel + added == s.channel;
    } else {
      assert added == [added[0]];
      OwnSeqsSnoc(s.channel, added[0], id);
      var seqs := OwnSeqs(s.channel, id);
      assert seqs + [] == seqs;
      CountsUpSnoc(seqs);
    }
  }

  lemma CountsUpNone()
    ensures CountsUp([])
  {
  }

  lemma CountsUpSnoc(seqs: seq<nat>)
    requires CountsUp(seqs)
    ensures CountsUp(seqs + [|seqs| + 1])
  {
  }

  lemma ConnStep(s: Server, a: Action, id: nat)
    requires Inv(s) && Next(s, a).Some? && id in Next(s, a).value.conns
    ensures ConnInv(Next(s, a).value.conns[id], Next(s, a).value, id)
  {
    OthersStay(s, a);
    hide SeqInv, OwnSeqs, Next, Last;
    if id in s.conns {
      assert ConnInv(s.conns[id], s, id);
    }
    if id == a.id {
      OwnConnStep(s, a);
    } else {
      OtherConnStep(s, a, id);
    }
  }

  lemma OtherConnStep(s: Server, a: Action, id: nat)
    requires Next(s, a).Some? && id in s.conns && id != a.id && ConnInv(s.conns[id], s, id)
    requires a.id in s.conns && s.conns[a.id].session == s.conns[id].session ==> s.conns[id].session == 0
    requires s.nextSession >= 1
    ensures ConnInv(Next(s, a).value.conns[id], Next(s, a).value, id)
  {
    hide PushBounded, SnapshotOf, NameOf, Last;
    HistoryGrows(s, a);
  }

  lemma OwnConnStep(s: Server, a: Action)
    requires Next(s, a).Some? && (a.id in s.conns ==> ConnInv(s.conns[a.id], s, a.id))
    requires s.nextSession >= 1 && s.room.messages == Last(100, s.history)
    ensures ConnInv(Next(s, a).value.conns[a.id], Next(s, a).value, a.id)
  {
    OwnOutboxStep(s, a);
    hide OutboxInv, Added, PushBounded, NameOf, SnapshotOf, Last;
    if !a.Authenticate? && !a.Leave? {
      UsersStay(s, a);
    }
  }

  lemma UsersStay(s: Server, a: Action)
    requires Next(s, a).Some? && !a.Authenticate? && !a.Leave?
    ensures Next(s, a).value.room.users == s.room.users
  {
    hide PushBounded, NameOf, SnapshotOf, Last;
  }

  lemma OwnOutboxStep(s: Server, a: Action)
    requires Next(s, a).Some? && (a.id in s.conns ==> ConnInv(s.conns[a.id], s, a.id))
    requires s.room.messages == Last(100, s.history)
    ensures OutboxInv(Next(s, a).value.conns[a.id], Next(s, a).value.manifest, Next(s, a).value.history)
  {
    HistoryGrows(s, a);
    var s' := Next(s, a).value;
    if a.SendSnapshot? {
      SnapshotStep(s, a.id);
    } else if a.id in s.conns && |s.conns[a.id].outbox| >= 2 {
      OutboxGrows(s, a);
      GreetingKept(s.conns[a.id], s'.conns[a.id], s.manifest, s.history, s'.history);
    }
    hide Added, PushBounded, NameOf, SnapshotOf, Last, Greeting;
  }

  lemma GreetingKept(c: Conn, c': Conn, manifest: string, history: seq<ChatMessage>, longer: seq<ChatMessage>)
    requires |c.outbox| >= 2 && Greeting(c, manifest, history) && c.outbox <= c'.outbox
    requires c'.session == c.session && c'.greetedAt == c.greetedAt && |history| <= |longer|
    requires forall n :: 0 <= n <= |history| ==> longer[..n] == history[..n]
    ensures Greeting(c', manifest, longer)
  {
    hide Last;
  }

  /** Past its snapshot a connection keeps its session, and what it was sent. */
  lemma OutboxGrows(s: Server, a: Action)
    requires Next(s, a).Some? && a.id in s.conns && SentAtStage(s.conns[a.id].stage, |s.conns[a.id].outbox|)
    requires |s.conns[a.id].outbox| >= 2
    ensures var c, c' := s.conns[a.id], Next(s, a).value.conns[a.id];
            c.outbox <= c'.outbox && c'.session == c.session && c'.greetedAt == c.greetedAt
  {
    hide Added, NameOf, SnapshotOf;
  }

  lemma SnapshotStep(s: Server, id: nat)
    requires Next(s, SendSnapshot(id)).Some? && ConnInv(s.conns[id], s, id)
    requires s.room.messages == Last(100, s.history)
    ensures var c := Next(s, SendSnapshot(id)).value.conns[id];
            |c.outbox| == 2 && Greeting(c, s.manifest, s.history)
  {
    hide Last;
    assert s.history[..|s.history|] == s.history;
    LastOfWindow(s.history);
  }

  lemma LastOfWindow(history: seq<ChatMessage>)
    ensures Last(50, Last(100, history)) == Last(50, history)
  {
  }

  lemma HistoryGrows(s: Server, a: Action)
    requires Next(s, a).Some?
    ensures |s.history| <= |Next(s, a).value.history|
    ensures forall n :: 0 <= n <= |s.history| ==> Next(s, a).value.history[..n] == s.history[..n]
  {
  }

  lemma SharedStep(s: Server, a: Action)
    requires Inv(s) && Next(s, a).Some?
    ensures var s' := Next(s, a).value;
            && s'.nextSession >= 1 && s'.manifest == s.manifest
            && s'.room.messages == Last(100, s'.history)
            && (forall i :: 0 <= i < |s'.channel| ==> s'.channel[i].sender in s'.conns)
            && (forall u :: u in s'.room.users ==> 0 < u < s'.nextSession)
  {
    hide SeqInv, OutboxInv;
    if a.Intent? {
      var c := s.conns[a.id];
      PushKeepsLast(100, s.history, ChatMessage(NameOf(s.room.users, c.session), a.text, a.timestamp));
    }
  }

  lemma SessionStep(s: Server, a: Action, i: nat, j: nat)
    requires Inv(s) && Next(s, a).Some?
    requires var conns := Next(s, a).value.conns;
             i in conns && j in conns && i != j && conns[i].session == conns[j].session
    ensures Next(s, a).value.conns[i].session == 0
  {
    hide SeqInv, OutboxInv, Owns, Added, SnapshotOf, NameOf;
    if i in s.conns { assert ConnInv(s.conns[i], s, i); }
    if j in s.conns { assert ConnInv(s.conns[j], s, j); }
  }

  /** A user of the room after a step belongs to a connection. */
  lemma OwnerStep(s: Server, a: Action, u: nat) returns (id: nat)
    requires Inv(s) && Next(s, a).Some? && u in Next(s, a).value.room.users
    ensures Owns(Next(s, a).value, id, u)
  {
    hide SeqInv, OutboxInv, Added, SnapshotOf, NameOf;
    if u in s.room.users {
      id :| Owns(s, id, u);
      OwnerKept(s, a, id);
    } else {
      id := a.id;
      OnlyNewcomers(s, a, u);
    }
  }

  lemma OwnerKept(s: Server, a: Action, id: nat)
    requires Next(s, a).Some? && id in s.conns && Shown(s.conns[id])
    ensures id == a.id && a.Leave? ==> s.conns[id].session !in Next(s, a).value.room.users
    ensures !(id == a.id && a.Leave?) ==> Owns(Next(s, a).value, id, s.conns[id].session)
  {
    hide Added, SnapshotOf, NameOf;
  }

  lemma OnlyNewcomers(s: Server, a: Action, u: nat)
    requires Next(s, a).Some? && u in Next(s, a).value.room.users && u !in s.room.users && s.nextSession >= 1
    ensures Owns(Next(s, a).value, a.id, u)
  {
    hide PushBounded, SnapshotOf, NameOf;
  }

  lemma NextInv(s: Server, a: Action)
    requires Inv(s)
    ensures Next(s, a).Some? ==> Inv(Next(s, a).value) && Next(s, a).value.manifest == s.manifest
  {
    if Next(s, a).Some? {
      var s' := Next(s, a).value;
      SharedStep(s, a);
      forall id | id in s'.conns ensures ConnInv(s'.conns[id], s', id) && SeqInv(s'.conns[id], s'.channel, id) {
        hide Next, ConnInv, SeqInv;
        ConnStep(s, a, id);
        SeqStep(s, a, id);
      }
      forall i, j | i in s'.conns && j in s'.conns && i != j && s'.conns[i].session == s'.conns[j].session
        ensures s'.conns[i].session == 0
      {
        SessionStep(s, a, i, j);
      }
      forall u | u in s'.room.users ensures exists id :: Owns(s', id, u) {
        var id := OwnerStep(s, a, u);
      }
      hide Next, ConnInv, SeqInv, Owns;
    }
  }

  // -------------------------------------------------------------------------
  // Main results, over every run.
  // -------------------------------------------------------------------------

  /** Every run keeps the invariant. */
  lemma {:induction false} RunInv(manifest: string, actions: seq<Action>)
    ensures Run(manifest, actions).Some? ==>
              Inv(Run(manifest, actions).value) && Run(manifest, actions).value.manifest == manifest
  {
    hide Next;
    if actions == [] {
    } else {
      var before := actions[..|actions| - 1];
      RunInv(manifest, before);
      if Run(manifest, before).Some? {
        NextInv(Run(manifest, before).value, actions[|actions| - 1]);
      }
    }
  }

  function Frames(wires: seq<Out>): seq<Frame<ChatSnapshot>> {
    seq(|wires|, i requires 0 <= i < |wires| => Wire(wires[i]))
  }

  /** Whatever the other connections do, and wherever the connection breaks off: the client's
      `connect` succeeds on what it was sent exactly when the snapshot was sent, which it is past the
      greeting.  It gets the server's manifest and a snapshot with seq 0 that shows the last 50
      messages and the client itself; everything sent later is left to `recv`.  A client that was
      sent less finds the stream closed early. */
  lemma EveryClientConnects(manifest: string, actions: seq<Action>, id: nat)
    requires Run(manifest, actions).Some? && id in Run(manifest, actions).value.conns
    ensures var s := Run(manifest, actions).value;
            var c := s.conns[id];
            && (c.stage.Greeted? || c.stage.Live? || c.stage.Leaving? || c.stage.Gone? ==> |c.outbox| >= 2)
            && (|c.outbox| >= 2 ==>
                  && c.outbox[1].Snapshot? && c.outbox[1].seqNo == 0
                  && ConnectTo(Frames(c.outbox)) == Connected(manifest, c.outbox[1].data, Frames(c.outbox[2..]))
                  && c.session in c.outbox[1].data.users
                  && c.greetedAt <= |s.history|
                  && c.outbox[1].data.messages == Last(50, s.history[..c.greetedAt]))
            && (|c.outbox| < 2 ==> ConnectTo(Frames(c.outbox)) == NotConnected(ClosedEarly, []))
  {
    hide Next, OwnSeqs, ConnectTo, Frames, SeqInv;
    RunInv(manifest, actions);
    var s := Run(manifest, actions).value;
    var c := s.conns[id];
    assert ConnInv(c, s, id);
    if |c.outbox| >= 2 {
      GreetedStream(manifest, c.outbox);
    } else {
      UngreetedStream(manifest, c.outbox);
    }
  }

  lemma UngreetedStream(manifest: string, outbox: seq<Out>)
    requires |outbox| < 2 && (|outbox| == 1 ==> outbox[0] == Manifest(manifest))
    ensures ConnectTo(Frames(outbox)) == NotConnected(ClosedEarly, [])
  {
    if |outbox| == 1 {
      assert Frames(outbox)[1..] == [];
    }
  }

  lemma GreetedStream(manifest: string, outbox: seq<Out>)
    requires |outbox| >= 2 && outbox[0] == Manifest(manifest) && outbox[1].Snapshot?
    ensures ConnectTo(Frames(outbox)) == Connected(manifest, outbox[1].data, Frames(outbox[2..]))
  {
    hide ConnectTo;
    var rest := Frames(outbox[2..]);
    assert Frames(outbox) == [] + ([Wire(outbox[0])] + ([] + ([Wire(outbox[1])] + rest)));
    GreetingConnects(Frames(outbox), [], manifest, [], outbox[1].seqNo, outbox[1].data, rest);
  }

  /** A live connection's user is in the room: its messages carry its name, never "unknown". */
  lemma MessagesCarryNames(manifest: string, actions: seq<Action>, id: nat, text: string, timestamp: nat)
    requires Run(manifest, actions).Some? && Next(Run(manifest, actions).value, Intent(id, text, timestamp)).Some?
    ensures var s := Run(manifest, actions).value;
            var s' := Next(s, Intent(id, text, timestamp)).value;
            && s.conns[id].session in s.room.users
            && s'.history == s.history + [ChatMessage(s.room.users[s.conns[id].session], text, timestamp)]
  {
    var s := Run(manifest, actions).value;
    RunInv(manifest, actions);
    assert ConnInv(s.conns[id], s, id);
  }

  /** Which users the room shows: exactly the sessions of the connections in it and of those that broke
      off after they authenticated, each of one connection only. */
  lemma RoomShowsSessions(manifest: string, actions: seq<Action>, user: nat)
    requires Run(manifest, actions).Some?
    ensures var s := Run(manifest, actions).value;
            && (user in s.room.users <==> exists id :: Owns(s, id, user))
            && (forall i, j :: Owns(s, i, user) && Owns(s, j, user) ==> i == j)
  {
    var s := Run(manifest, actions).value;
    RunInv(manifest, actions);
    assert forall id :: Owns(s, id, user) ==> ConnInv(s.conns[id], s, id);
    hide Run, SeqInv, OutboxInv;
  }

  /** A connection can break off at every stage until it leaves the room; the room is not told, so its
      user stays, and nobody is told either. */
  lemma BreaksOffIff(manifest: string, actions: seq<Action>, id: nat)
    requires Run(manifest, actions).Some? && id in Run(manifest, actions).value.conns
    ensures var s, s' := Run(manifest, actions).value, Run(manifest, actions + [Abort(id)]);
            var c := s.conns[id];
            && (s'.Some? <==> !c.stage.Leaving? && !c.stage.Gone? && !c.stage.Aborted?)
            && (s'.Some? ==> s'.value == s.(conns := s.conns[id := c.(stage := Aborted)]))
            && (s'.Some? && c.session != 0 ==> c.session in s.room.users)
  {
    RunInv(manifest, actions);
    RunSnoc(manifest, actions, Abort(id));
    hide Run, SeqInv, OutboxInv;
    assert ConnInv(Run(manifest, actions).value.conns[id], Run(manifest, actions).value, id);
  }

  /** So a user whose connection broke off is shown for ever, whatever happens later. */
  lemma {:induction false} AbortedUserStays(manifest: string, actions: seq<Action>, later: seq<Action>, id: nat)
    requires Run(manifest, actions).Some? && Run(manifest, actions + later).Some?
    requires id in Run(manifest, actions).value.conns
    requires var c := Run(manifest, actions).value.conns[id]; c.stage.Aborted? && c.session != 0
    ensures var s' := Run(manifest, actions + later).value;
            && id in s'.conns && s'.conns[id] == Run(manifest, actions).value.conns[id]
            && s'.conns[id].session in s'.room.users
    decreases |later|
  {
    if later == [] {
      assert actions + later == actions;
    } else {
      var before, a := later[..|later| - 1], later[|later| - 1];
      assert (actions + later)[..|actions + later| - 1] == actions + before;
      AbortedUserStays(manifest, actions, before, id);
      AbortedStays(Run(manifest, actions + before).value, a, id);
    }
    RunInv(manifest, actions + later);
    hide Run, Next;
    assert ConnInv(Run(manifest, actions + later).value.conns[id], Run(manifest, actions + later).value, id);
  }

  lemma AbortedStays(s: Server, a: Action, id: nat)
    requires Next(s, a).Some? && id in s.conns && s.conns[id].stage.Aborted?
    ensures id in Next(s, a).value.conns && Next(s, a).value.conns[id] == s.conns[id]
  {
    hide Added, SnapshotOf, NameOf;
  }

  predicate IsSnapshotAt(channel: seq<Item>, i: int) {
    0 <= i < |channel| && channel[i].wire.Snapshot?
  }

  lemma {:induction false} OwnPrefix(channel: seq<Item>, n: nat, id: nat)
    requires n <= |channel|
    ensures OwnSeqs(channel[..n], id) <= OwnSeqs(channel, id)
  {
    if n == |channel| {
      assert channel[..n] == channel;
    } else {
      var shorter := channel[..|channel| - 1];
      OwnPrefix(shorter, n, id);
      assert shorter[..n] == channel[..n];
    }
  }

  /** A snapshot's seq is its rank among its sender's snapshots. */
  lemma SeqIsRank(channel: seq<Item>, i: nat)
    requires IsSnapshotAt(channel, i) && CountsUp(OwnSeqs(channel, channel[i].sender))
    ensures channel[i].wire.seqNo == |OwnSeqs(channel[..i], channel[i].sender)| + 1
  {
    var id := channel[i].sender;
    OwnPrefix(channel, i + 1, id);
    var upTo := channel[..i + 1];
    assert upTo[..i] == channel[..i];
    assert OwnSeqs(upTo, id)[|OwnSeqs(channel[..i], id)|] == channel[i].wire.seqNo;
  }

  lemma {:induction false} OwnSeqsNonEmpty(channel: seq<Item>, id: nat) returns (k: nat)
    requires OwnSeqs(channel, id) != []
    ensures IsSnapshotAt(channel, k) && channel[k].sender == id
  {
    var last := channel[|channel| - 1];
    if last.sender == id && last.wire.Snapshot? {
      k := |channel| - 1;
    } else {
      k := OwnSeqsNonEmpty(channel[..|channel| - 1], id);
    }
  }

  lemma {:induction false} FirstOwn(channel: seq<Item>, i: nat) returns (k: nat)
    requires IsSnapshotAt(channel, i) && CountsUp(OwnSeqs(channel, channel[i].sender))
    ensures IsSnapshotAt(channel, k) && channel[k].sender == channel[i].sender && channel[k].wire.seqNo == 1
    decreases i
  {
    SeqIsRank(channel, i);
    if channel[i].wire.seqNo == 1 {
      k := i;
    } else {
      var j := OwnSeqsNonEmpty(channel[..i], channel[i].sender);
      assert channel[..i][j] == channel[j];
      k := FirstOwn(channel, j);
    }
  }

  lemma RanksIncrease(channel: seq<Item>, i: nat, j: nat)
    requires i < j && IsSnapshotAt(channel, i) && IsSnapshotAt(channel, j) && channel[i].sender == channel[j].sender
    requires CountsUp(OwnSeqs(channel, channel[i].sender))
    ensures channel[i].wire.seqNo < channel[j].wire.seqNo
  {
    SeqIsRank(channel, i);
    SeqIsRank(channel, j);
    var id := channel[i].sender;
    OwnPrefix(channel[..j], i + 1, id);
    assert channel[..j][..i + 1] == channel[..i + 1];
    assert channel[..i + 1][..i] == channel[..i];
  }

  ghost predicate SeqsIncrease(channel: seq<Item>) {
    forall i, j :: i < j && IsSnapshotAt(channel, i) && IsSnapshotAt(channel, j) ==>
      channel[i].wire.seqNo < channel[j].wire.seqNo
  }

  ghost predicate OneSender(channel: seq<Item>) {
    forall i, j :: IsSnapshotAt(channel, i) && IsSnapshotAt(channel, j) ==> channel[i].sender == channel[j].sender
  }

  /** Each connection numbers its snapshots 1, 2, 3, ...; so the seqs on the shared channel increase
      exactly as long as a single connection has sent any. */
  lemma ChannelSeqsIncreaseIff(manifest: string, actions: seq<Action>)
    requires Run(manifest, actions).Some?
    ensures forall id :: id in Run(manifest, actions).value.conns ==>
              CountsUp(OwnSeqs(Run(manifest, actions).value.channel, id))
    ensures SeqsIncrease(Run(manifest, actions).value.channel) <==> OneSender(Run(manifest, actions).value.channel)
  {
    var s := Run(manifest, actions).value;
    RunInv(manifest, actions);
    assert forall id :: id in s.conns ==> SeqInv(s.conns[id], s.channel, id);
    hide Run, Inv, OwnSeqs, CountsUp, SeqsIncrease, OneSender;
    RanksOrderIff(s.channel);
  }

  lemma RanksOrderIff(channel: seq<Item>)
    requires forall i :: 0 <= i < |channel| ==> CountsUp(OwnSeqs(channel, channel[i].sender))
    ensures SeqsIncrease(channel) <==> OneSender(channel)
  {
    hide OwnSeqs, CountsUp;
    if OneSender(channel) {
      forall i, j | i < j && IsSnapshotAt(channel, i) && IsSnapshotAt(channel, j)
        ensures channel[i].wire.seqNo < channel[j].wire.seqNo
      {
        RanksIncrease(channel, i, j);
      }
    }
    if SeqsIncrease(channel) {
      forall i, j | IsSnapshotAt(channel, i) && IsSnapshotAt(channel, j)
        ensures channel[i].sender == channel[j].sender
      {
        var k := FirstOwn(channel, i);
        var l := FirstOwn(channel, j);
        assert !(k < l) && !(l < k);
      }
    }
  }

  // -------------------------------------------------------------------------
  // Two connections and two equal seqs.
  // -------------------------------------------------------------------------

  lemma RunSnoc(manifest: string, actions: seq<Action>, a: Action)
    ensures Run(manifest, actions + [a]) ==
            if Run(manifest, actions).None? then None else Next(Run(manifest, actions).value, a)
  {
    assert (actions + [a])[..|actions|] == actions;
  }

  /** From any reachable state a fresh connection can go live and send its first message, which is
      broadcast under seq 1 whatever is on the channel already. */
  lemma FirstMessageHasSeqOne(manifest: string, actions: seq<Action>, id: nat, name: string, text: string)
    requires Run(manifest, actions).Some? && id !in Run(manifest, actions).value.conns
    ensures var more := actions + [Accept(id)] + [Authenticate(id, name, None)] + [SendManifest(id)]
                        + [BroadcastJoin(id)] + [SendSnapshot(id)] + [Subscribe(id)] + [Intent(id, text, 0)];
            && Run(manifest, more).Some?
            && var channel := Run(manifest, more).value.channel;
            && |channel| == |Run(manifest, actions).value.channel| + 2
            && channel[|channel| - 1].sender == id
            && channel[|channel| - 1].wire.Snapshot? && channel[|channel| - 1].wire.seqNo == 1
  {
    var a1 := actions + [Accept(id)];
    var a2 := a1 + [Authenticate(id, name, None)];
    var a3 := a2 + [SendManifest(id)];
    var a4 := a3 + [BroadcastJoin(id)];
    var a5 := a4 + [SendSnapshot(id)];
    var a6 := a5 + [Subscribe(id)];
    RunSnoc(manifest, actions, Accept(id));
    RunSnoc(manifest, a1, Authenticate(id, name, None));
    RunSnoc(manifest, a2, SendManifest(id));
    RunSnoc(manifest, a3, BroadcastJoin(id));
    RunSnoc(manifest, a4, SendSnapshot(id));
    RunSnoc(manifest, a5, Subscribe(id));
    RunSnoc(manifest, a6, Intent(id, text, 0));
    JoinSteps(Run(manifest, actions).value, id, name);
    hide Run, Next;
    GreetSteps(Run(manifest, a3).value, id);
    SpeakSteps(Run(manifest, a5).value, id, text);
  }

  lemma JoinSteps(s: Server, id: nat, name: string)
    requires id !in s.conns
    ensures var s1 := Next(s, Accept(id));
            s1.Some? &&
            (var s2 := Next(s1.value, Authenticate(id, name, None));
             s2.Some? &&
             (var s3 := Next(s2.value, SendManifest(id));
              s3.Some? && id in s3.value.conns && s3.value.conns[id].stage == ManifestSent &&
              s3.value.conns[id].seqNo == 1 && s3.value.channel == s.channel))
  {
  }

  lemma GreetSteps(s: Server, id: nat)
    requires id in s.conns && s.conns[id].stage == ManifestSent && s.conns[id].seqNo == 1
    ensures var s1 := Next(s, BroadcastJoin(id));
            s1.Some? &&
            (var s2 := Next(s1.value, SendSnapshot(id));
             s2.Some? && id in s2.value.conns && s2.value.conns[id].stage == Greeted &&
             s2.value.conns[id].seqNo == 1 && |s2.value.channel| == |s.channel| + 1)
  {
    hide Added, SnapshotOf, NameOf;
  }

  lemma SpeakSteps(s: Server, id: nat, text: string)
    requires id in s.conns && s.conns[id].stage == Greeted && s.conns[id].seqNo == 1
    ensures var s1 := Next(s, Subscribe(id));
            s1.Some? &&
            (var s2 := Next(s1.value, Intent(id, text, 0));
             s2.Some? && EndsWithSeqOne(s, s2.value, id))
  {
    hide Added, SnapshotOf, NameOf;
  }

  predicate EndsWithSeqOne(s: Server, s': Server, id: nat) {
    var n := |s.channel|;
    && |s'.channel| == n + 1 && s'.channel[n].sender == id
    && s'.channel[n].wire.Snapshot? && s'.channel[n].wire.seqNo == 1
  }
}
