/** The webchat authority (examples/webchat/src/main.rs): many sessions share one room, a counter
    and a broadcast channel.  A step is one lock section, one send or one receive of a session. */
module Webchat {
  import opened Wrappers
  import opened BoundedWindow

  datatype ChatMessage = ChatMessage(author: string, text: string, timestamp: nat)

  const WINDOW: nat := 100
  const CAPACITY: nat := 256

  /** A snapshot sent on the channel; `at` is the length of the room's history when it was taken. */
  datatype Broadcast = Broadcast(seqNo: nat, data: seq<ChatMessage>, at: nat)

  class AppState {
    var messages: seq<ChatMessage>
    var nextSeq: nat
    var sent: seq<(nat, seq<ChatMessage>)>

    constructor ()
      ensures messages == [] && nextSeq == 1 && sent == []
    {
      messages, nextSeq, sent := [], 1, [];
    }

    method AddMessage(author: string, text: string, timestamp: nat)
      modifies this`messages
      ensures messages == PushBounded(WINDOW, old(messages), ChatMessage(author, text, timestamp))
      ensures forall history :: old(messages) == Last(WINDOW, history) ==>
                messages == Last(WINDOW, history + [ChatMessage(author, text, timestamp)])
    {
      messages := messages + [ChatMessage(author, text, timestamp)];
      if |messages| > 100 {
        messages := messages[1..];
      }
    }

    method BroadcastSnapshot()
      modifies this`nextSeq, this`sent
      ensures sent == old(sent) + [(old(nextSeq), messages)] && nextSeq == old(nextSeq) + 1
    {
      var seqNo := nextSeq;
      nextSeq := nextSeq + 1;
      sent := sent + [(seqNo, messages)];
    }
  }

  // -------------------------------------------------------------------------
  // The protocol.
  // -------------------------------------------------------------------------

  /** A client past the greeting.  `snapAt` and `snapPos` are the lengths of history and channel at
      its initial snapshot; it subscribed when the channel had length `subPos` and has read up to
      `pos`. */
  datatype Client = Client(name: string, snapshot: seq<ChatMessage>, snapAt: nat, snapPos: nat, subPos: nat, pos: nat,
                           received: seq<Broadcast>)

  datatype Session =
    | Authenticating
    | ManifestSent(name: string)
    | Greeted(client: Client)     // snapshot sent, not yet subscribed
    | Live(client: Client)
    | Adding(client: Client)      // between add_message and broadcast_snapshot
    | Closed

  datatype System = System(messages: seq<ChatMessage>, history: seq<ChatMessage>, nextSeq: nat,
                           channel: seq<Broadcast>, sessions: map<nat, Session>)

  datatype Action =
    | Connect(id: nat)
    | Authenticate(id: nat, name: string)
    | SendSnapshot(id: nat)
    | Subscribe(id: nat)
    | AddMessage(id: nat, text: string, timestamp: nat)
    | BroadcastSnapshot(id: nat)
    | ReceiveBroadcast(id: nat)
    | Close(id: nat)

  function Goto(s: System, id: nat, session: Session): System {
    s.(sessions := s.sessions[id := session])
  }

  /** broadcast_rx.recv(): the next snapshot, or a jump to the oldest one kept. */
  function ReadNext(c: Client, channel: seq<Broadcast>): Client
    requires c.pos < |channel|
  {
    if |channel| - c.pos > CAPACITY then c.(pos := |channel| - CAPACITY)
    else c.(pos := c.pos + 1, received := c.received + [channel[c.pos]])
  }

  function Next(s: System, a: Action): Option<System> {
    if a.Connect? then
      if a.id in s.sessions then None else Some(Goto(s, a.id, Authenticating))
    else if a.id !in s.sessions then None
    else match (a, s.sessions[a.id])
      case (Authenticate(id, name), Authenticating) => Some(Goto(s, id, ManifestSent(name)))
      case (SendSnapshot(id), ManifestSent(name)) =>
        Some(Goto(s, id, Greeted(Client(name, s.messages, |s.history|, |s.channel|, 0, 0, []))))
      case (Subscribe(id), Greeted(c)) =>
        Some(Goto(s, id, Live(c.(subPos := |s.channel|, pos := |s.channel|))))
      case (AddMessage(id, text, timestamp), Live(c)) =>
        var m := ChatMessage(c.name, text, timestamp);
        Some(Goto(s, id, Adding(c)).(messages := PushBounded(WINDOW, s.messages, m), history := s.history + [m]))
      case (BroadcastSnapshot(id), Adding(c)) =>
        Some(Goto(s, id, Live(c)).(nextSeq := s.nextSeq + 1,
                                   channel := s.channel + [Broadcast(s.nextSeq, s.messages, |s.history|)]))
      case (ReceiveBroadcast(id), Live(c)) =>
        if c.pos < |s.channel| then Some(Goto(s, id, Live(ReadNext(c, s.channel)))) else None
      case (Close(id), session) => if session.Adding? then None else Some(Goto(s, id, Closed))
      case _ => None
  }

  const START: System := System([], [], 1, [], map[])

  /** The state after the actions, None when one of them is not enabled. */
  function Run(actions: seq<Action>): Option<System> {
    if actions == [] then Some(START)
    else
      var before := Run(actions[..|actions| - 1]);
      if before.None? then None else Next(before.value, actions[|actions| - 1])
  }

  // -------------------------------------------------------------------------
  // The invariant.
  // -------------------------------------------------------------------------

  /** The k-th broadcast carries seq k and the last hundred messages of the history at that moment. */
  ghost predicate ChannelInv(channel: seq<Broadcast>, history: seq<ChatMessage>) {
    && (forall k :: 0 <= k < |channel| ==>
          && channel[k].seqNo == k + 1
          && channel[k].at <= |history|
          && channel[k].data == Last(WINDOW, history[..channel[k].at]))
    && (forall j, k :: 0 <= j < k < |channel| ==> channel[j].at <= channel[k].at)
  }

  /** How much of the history the last broadcast covers. */
  function Covered(channel: seq<Broadcast>): nat {
    if channel == [] then 0 else channel[|channel| - 1].at
  }

  ghost predicate GreetingInv(c: Client, channel: seq<Broadcast>, history: seq<ChatMessage>) {
    && c.snapAt <= |history| && c.snapshot == Last(WINDOW, history[..c.snapAt])
    && c.snapPos <= |channel|
    && (forall k :: 0 <= k < c.snapPos ==> channel[k].at <= c.snapAt)
  }

  ghost predicate ReadingInv(c: Client, channel: seq<Broadcast>) {
    && c.snapPos <= c.subPos <= c.pos <= |channel|
    && (forall i :: 0 <= i < |c.received| ==>
          && c.subPos < c.received[i].seqNo <= c.pos
          && c.received[i] == channel[c.received[i].seqNo - 1])
    && (forall i, j :: 0 <= i < j < |c.received| ==> c.received[i].seqNo < c.received[j].seqNo)
    && (c.pos == c.subPos ==> c.received == [])
    && (c.pos > c.subPos ==>
          (c.received != [] && c.received[|c.received| - 1] == channel[c.pos - 1]) || c.pos + CAPACITY <= |channel|)
  }

  ghost predicate SessionInv(session: Session, channel: seq<Broadcast>, history: seq<ChatMessage>) {
    match session
    case Greeted(c) => GreetingInv(c, channel, history) && c.received == []
    case Live(c) => GreetingInv(c, channel, history) && ReadingInv(c, channel)
    case Adding(c) => GreetingInv(c, channel, history) && ReadingInv(c, channel)
    case _ => true
  }

  ghost predicate Quiet(s: System) {
    forall id :: id in s.sessions ==> !s.sessions[id].Adding?
  }

  ghost predicate Inv(s: System) {
    && s.messages == Last(WINDOW, s.history)
    && s.nextSeq == |s.channel| + 1
    && ChannelInv(s.channel, s.history)
    && (Quiet(s) ==> Covered(s.channel) == |s.history|)
    && (forall id :: id in s.sessions ==> SessionInv(s.sessions[id], s.channel, s.history))
  }

  lemma GrowHistory(s: System, m: ChatMessage)
    requires Inv(s)
    ensures ChannelInv(s.channel, s.history + [m])
    ensures forall id :: id in s.sessions ==> SessionInv(s.sessions[id], s.channel, s.history + [m])
  {
    var h := s.history + [m];
    assert forall n :: 0 <= n <= |s.history| ==> h[..n] == s.history[..n];
  }

  lemma GrowChannel(s: System)
    requires Inv(s)
    ensures var channel := s.channel + [Broadcast(s.nextSeq, s.messages, |s.history|)];
            && ChannelInv(channel, s.history)
            && forall id :: id in s.sessions ==> SessionInv(s.sessions[id], channel, s.history)
  {
    var channel := s.channel + [Broadcast(s.nextSeq, s.messages, |s.history|)];
    assert s.history[..|s.history|] == s.history;
    forall id | id in s.sessions ensures SessionInv(s.sessions[id], channel, s.history) {
      var session := s.sessions[id];
      if session.Live? || session.Adding? {
        ReadingGrows(session.client, s.channel, channel);
      }
    }
  }

  lemma ReadingGrows(c: Client, channel: seq<Broadcast>, longer: seq<Broadcast>)
    requires ReadingInv(c, channel) && channel <= longer
    ensures ReadingInv(c, longer)
  {
  }

  lemma LagInv(c: Client, channel: seq<Broadcast>)
    requires ReadingInv(c, channel) && |channel| - c.pos > CAPACITY
    ensures ReadingInv(ReadNext(c, channel), channel)
  {
  }

  /** A client that gets the next broadcast, which carries its own position as seq. */
  lemma NextReceived(c: Client, channel: seq<Broadcast>)
    requires ReadingInv(c, channel) && c.pos < |channel| && channel[c.pos].seqNo == c.pos + 1
    ensures ReadingInv(c.(pos := c.pos + 1, received := c.received + [channel[c.pos]]), channel)
  {
  }

  lemma ReadNextInv(c: Client, channel: seq<Broadcast>, history: seq<ChatMessage>)
    requires ChannelInv(channel, history) && ReadingInv(c, channel) && c.pos < |channel|
    ensures ReadingInv(ReadNext(c, channel), channel)
  {
    if |channel| - c.pos > CAPACITY {
      LagInv(c, channel);
    } else {
      assert channel[c.pos].seqNo == c.pos + 1;
      hide ChannelInv;
      NextReceived(c, channel);
    }
  }

  lemma GotoInv(s: System, id: nat, session: Session)
    requires Inv(s) && SessionInv(session, s.channel, s.history) && !session.Adding?
    requires id in s.sessions ==> !s.sessions[id].Adding?
    ensures Inv(Goto(s, id, session))
  {
    var s' := Goto(s, id, session);
    hide ChannelInv, SessionInv;
    if Quiet(s') {
      forall i | i in s.sessions ensures !s.sessions[i].Adding? {
        assert i != id ==> s'.sessions[i] == s.sessions[i];
      }
      assert Quiet(s);
    }
  }

  lemma AddInv(s: System, id: nat, text: string, timestamp: nat)
    requires Inv(s) && id in s.sessions && s.sessions[id].Live?
    ensures Inv(Next(s, AddMessage(id, text, timestamp)).value)
  {
    var c := s.sessions[id].client;
    var m := ChatMessage(c.name, text, timestamp);
    var s' := Next(s, AddMessage(id, text, timestamp)).value;
    GrowHistory(s, m);
    PushKeepsLast(WINDOW, s.history, m);
    hide ChannelInv, GreetingInv, ReadingInv;
    assert s'.sessions[id].Adding?;
  }

  lemma BroadcastInv(s: System, id: nat)
    requires Inv(s) && id in s.sessions && s.sessions[id].Adding?
    ensures Inv(Next(s, BroadcastSnapshot(id)).value)
  {
    GrowChannel(s);
    hide ChannelInv, GreetingInv, ReadingInv;
  }

  lemma ReceiveInv(s: System, id: nat)
    requires Inv(s) && Next(s, ReceiveBroadcast(id)).Some?
    ensures Inv(Next(s, ReceiveBroadcast(id)).value)
  {
    var c := s.sessions[id].client;
    assert SessionInv(s.sessions[id], s.channel, s.history);
    hide Inv, ChannelInv, ReadNext, ReadingInv;
    assert ChannelInv(s.channel, s.history) by { InvChannel(s); }
    ReadNextInv(c, s.channel, s.history);
    GotoInv(s, id, Live(ReadNext(c, s.channel)));
  }

  lemma InvChannel(s: System)
    requires Inv(s)
    ensures ChannelInv(s.channel, s.history)
  {
  }

  lemma SnapshotInv(s: System, id: nat)
    requires Inv(s) && Next(s, SendSnapshot(id)).Some?
    ensures Inv(Next(s, SendSnapshot(id)).value)
  {
    hide ReadingInv;
    assert s.history[..|s.history|] == s.history;
    GotoInv(s, id, Next(s, SendSnapshot(id)).value.sessions[id]);
  }

  lemma SubscribeInv(s: System, id: nat)
    requires Inv(s) && Next(s, Subscribe(id)).Some?
    ensures Inv(Next(s, Subscribe(id)).value)
  {
    assert SessionInv(s.sessions[id], s.channel, s.history);
    GotoInv(s, id, Next(s, Subscribe(id)).value.sessions[id]);
  }

  lemma NextInv(s: System, a: Action)
    requires Inv(s)
    ensures Next(s, a).Some? ==> Inv(Next(s, a).value)
  {
    hide ChannelInv, GreetingInv, ReadingInv, Last, PushBounded;
    if Next(s, a).Some? {
      match a {
        case AddMessage(id, text, timestamp) => AddInv(s, id, text, timestamp);
        case BroadcastSnapshot(id) => BroadcastInv(s, id);
        case ReceiveBroadcast(id) => ReceiveInv(s, id);
        case SendSnapshot(id) => SnapshotInv(s, id);
        case Subscribe(id) => SubscribeInv(s, id);
        case _ => GotoInv(s, a.id, Next(s, a).value.sessions[a.id]);
      }
    }
  }

  // -------------------------------------------------------------------------
  // Main results, over every run.
  // -------------------------------------------------------------------------

  /** Every run keeps the invariant. */
  lemma {:induction false} RunInv(actions: seq<Action>)
    ensures Run(actions).Some? ==> Inv(Run(actions).value)
  {
    hide Next;
    if actions == [] {
    } else {
      var before := actions[..|actions| - 1];
      RunInv(before);
      if Run(before).Some? {
        NextInv(Run(before).value, actions[|actions| - 1]);
      }
    }
  }

  /** The k-th broadcast of a run carries seq k and the room as it was then. */
  lemma BroadcastsAreNumbered(actions: seq<Action>, k: nat)
    requires Run(actions).Some? && k < |Run(actions).value.channel|
    ensures var s := Run(actions).value;
            && s.channel[k].seqNo == k + 1
            && s.channel[k].at <= |s.history|
            && s.channel[k].data == Last(100, s.history[..s.channel[k].at])
  {
    RunInv(actions);
  }

  /** Whenever no session stands between adding and broadcasting, the last broadcast is the room. */
  lemma QuietRoomIsBroadcast(actions: seq<Action>)
    requires Run(actions).Some? && Quiet(Run(actions).value)
    ensures var s := Run(actions).value;
            && s.messages == Last(100, s.history)
            && if s.channel == [] then s.messages == [] else s.channel[|s.channel| - 1].data == s.messages
  {
    var s := Run(actions).value;
    RunInv(actions);
    hide Run, SessionInv;
    assert s.history[..|s.history|] == s.history;
    if s.channel != [] {
      var last := s.channel[|s.channel| - 1];
      assert last.data == Last(WINDOW, s.history[..last.at]);
    }
  }

  /** Every subscriber, a lagged one too, gets strictly increasing seqs, each with the snapshot that
      was broadcast under it, and none from before it subscribed. */
  lemma SubscribersSeeIncreasingSeqs(actions: seq<Action>, id: nat)
    requires Run(actions).Some? && id in Run(actions).value.sessions
    requires Run(actions).value.sessions[id].Live? || Run(actions).value.sessions[id].Adding?
    ensures InOrder(Run(actions).value.sessions[id].client, Run(actions).value.channel)
  {
    var s := Run(actions).value;
    RunInv(actions);
    SessionKeepsInv(s, id);
    hide Run, Inv, GreetingInv;
  }

  ghost predicate InOrder(c: Client, channel: seq<Broadcast>) {
    && (forall i, j :: 0 <= i < j < |c.received| ==> c.received[i].seqNo < c.received[j].seqNo)
    && (forall i :: 0 <= i < |c.received| ==>
          c.subPos < c.received[i].seqNo <= |channel| && c.received[i] == channel[c.received[i].seqNo - 1])
  }

  lemma SessionKeepsInv(s: System, id: nat)
    requires Inv(s) && id in s.sessions
    ensures SessionInv(s.sessions[id], s.channel, s.history)
  {
  }

  // -------------------------------------------------------------------------
  // What is said, and who gets it.
  // -------------------------------------------------------------------------

  /** The name under which a session authenticated. */
  function Named(actions: seq<Action>, id: nat): string {
    if actions == [] then ""
    else
      var a := actions[|actions| - 1];
      if a.Authenticate? && a.id == id then a.name else Named(actions[..|actions| - 1], id)
  }

  /** The messages of a run, each under the name of its sender. */
  function Said(actions: seq<Action>): seq<ChatMessage> {
    if actions == [] then []
    else
      var before, a := actions[..|actions| - 1], actions[|actions| - 1];
      Said(before) + if a.AddMessage? then [ChatMessage(Named(before, a.id), a.text, a.timestamp)] else []
  }

  /** A session that goes by a name goes by this one. */
  predicate GoesBy(session: Session, name: string) {
    match session
    case ManifestSent(n) => n == name
    case Greeted(c) => c.name == name
    case Live(c) => c.name == name
    case Adding(c) => c.name == name
    case _ => true
  }

  /** Only adding a message changes the history, by that message under the session's name. */
  lemma NextHistory(s: System, a: Action)
    requires Next(s, a).Some?
    ensures a.AddMessage? ==> a.id in s.sessions && s.sessions[a.id].Live?
    ensures Next(s, a).value.history ==
            s.history +
            if a.AddMessage? then [ChatMessage(s.sessions[a.id].client.name, a.text, a.timestamp)] else []
  {
    hide ReadNext, PushBounded;
    assert s.history + [] == s.history;
  }

  /** Only authenticating gives a name. */
  lemma NextName(s: System, a: Action, id: nat, name: string)
    requires Next(s, a).Some? && id in Next(s, a).value.sessions
    requires id in s.sessions ==> GoesBy(s.sessions[id], name)
    ensures GoesBy(Next(s, a).value.sessions[id], if a.Authenticate? && a.id == id then a.name else name)
  {
    hide PushBounded;
  }

  /** In every run the room's history is what was said, in order, under the names of those who said it,
      and the room keeps the last hundred of it. */
  lemma {:induction false} HistoryIsSaid(actions: seq<Action>)
    requires Run(actions).Some?
    ensures var s := Run(actions).value;
            && s.history == Said(actions) && s.messages == Last(100, Said(actions))
            && forall id :: id in s.sessions ==> GoesBy(s.sessions[id], Named(actions, id))
  {
    RunInv(actions);
    if actions != [] {
      var before := actions[..|actions| - 1];
      HistoryIsSaid(before);
      var s, a := Run(before).value, actions[|actions| - 1];
      NextHistory(s, a);
      forall id | id in Run(actions).value.sessions
        ensures GoesBy(Run(actions).value.sessions[id], Named(actions, id))
      {
        NextName(s, a, id, Named(before, id));
        hide Next, Run, Said, GoesBy;
      }
      assert a.AddMessage? ==> GoesBy(s.sessions[a.id], Named(before, a.id));
    }
    hide Next, Named;
  }

  /** A client is greeted with the room as it is, and subscribes to what comes then. */
  lemma GreetedWithTheRoom(actions: seq<Action>, id: nat)
    requires Run(actions).Some?
    ensures Run(actions + [SendSnapshot(id)]).Some? ==>
              (var session := SessionOf(actions + [SendSnapshot(id)], id);
               && session.Greeted? && session.client.snapshot == Last(100, Said(actions))
               && session.client.snapAt == |Said(actions)| && session.client.snapPos == |Run(actions).value.channel|)
    ensures Run(actions + [Subscribe(id)]).Some? ==>
              (var session := SessionOf(actions + [Subscribe(id)], id);
               && session.Live? && session.client.received == []
               && session.client.pos == session.client.subPos == |Run(actions).value.channel|)
  {
    RunSnoc(actions, SendSnapshot(id));
    RunSnoc(actions, Subscribe(id));
    HistoryIsSaid(actions);
    RunInv(actions);
    hide Run, Said, Named;
  }

  /** A session after a run; Closed stands for one that never connected. */
  function SessionOf(actions: seq<Action>, id: nat): Session {
    if Run(actions).Some? && id in Run(actions).value.sessions then Run(actions).value.sessions[id] else Closed
  }

  /** A receive gives the next broadcast when at most 256 are unread, and otherwise skips exactly the
      unread ones in front of the last 256. */
  lemma ReceiveGivesNext(actions: seq<Action>, id: nat)
    requires Run(actions + [ReceiveBroadcast(id)]).Some?
    ensures Run(actions).Some? && SessionOf(actions, id).Live? && SessionOf(actions + [ReceiveBroadcast(id)], id).Live?
    ensures var channel := Run(actions).value.channel;
            var c, c' := SessionOf(actions, id).client, SessionOf(actions + [ReceiveBroadcast(id)], id).client;
            && c.pos < |channel|
            && c' == if |channel| - c.pos <= 256
                     then c.(pos := c.pos + 1, received := c.received + [channel[c.pos]])
                     else c.(pos := |channel| - 256)
  {
    RunSnoc(actions, ReceiveBroadcast(id));
    hide Run;
  }

  function Receives(id: nat, n: nat): (actions: seq<Action>)
    ensures |actions| == n && forall i :: 0 <= i < n ==> actions[i] == ReceiveBroadcast(id)
  {
    seq(n, _ => ReceiveBroadcast(id))
  }

  lemma GotoTwice(s: System, id: nat, before: Session, after: Session)
    ensures Goto(Goto(s, id, before), id, after) == Goto(s, id, after)
  {
    assert s.sessions[id := before][id := after] == s.sessions[id := after];
  }

  lemma ReceiveStep(s: System, id: nat, c: Client)
    ensures Next(Goto(s, id, Live(c)), ReceiveBroadcast(id)) ==
            if c.pos >= |s.channel| then None
            else if |s.channel| - c.pos > 256 then Some(Goto(s, id, Live(c.(pos := |s.channel| - 256))))
            else Some(Goto(s, id, Live(c.(pos := c.pos + 1, received := c.received + [s.channel[c.pos]]))))
  {
    if c.pos < |s.channel| {
      GotoTwice(s, id, Live(c), Live(ReadNext(c, s.channel)));
    }
  }

  /** What a client holds after it received the next n broadcasts. */
  function Further(c: Client, channel: seq<Broadcast>, n: nat): Client
    requires c.pos + n <= |channel|
  {
    c.(pos := c.pos + n, received := c.received + channel[c.pos..c.pos + n])
  }

  lemma {:induction false} ReceivesInReach(actions: seq<Action>, s: System, id: nat, c: Client, n: nat)
    requires Run(actions) == Some(Goto(s, id, Live(c)))
    requires n <= |s.channel| - c.pos <= 256
    ensures Run(actions + Receives(id, n)) == Some(Goto(s, id, Live(Further(c, s.channel, n))))
  {
    hide Run, Next, Goto;
    if n == 0 {
      assert actions + Receives(id, 0) == actions;
      assert Further(c, s.channel, 0) == c by {
        assert c.received + s.channel[c.pos..c.pos] == c.received;
      }
    } else {
      ReceivesInReach(actions, s, id, c, n - 1);
      assert actions + Receives(id, n) == (actions + Receives(id, n - 1)) + [ReceiveBroadcast(id)];
      RunSnoc(actions + Receives(id, n - 1), ReceiveBroadcast(id));
      var last := Further(c, s.channel, n - 1);
      ReceiveStep(s, id, last);
      assert last.received + [s.channel[last.pos]] == c.received + s.channel[c.pos..c.pos + n];
    }
  }

  lemma CatchesUpInReach(actions: seq<Action>, s: System, id: nat, c: Client)
    requires Run(actions) == Some(Goto(s, id, Live(c))) && c.pos <= |s.channel| <= c.pos + 256
    ensures var all := actions + Receives(id, |s.channel| - c.pos);
            && Run(all) ==
               Some(Goto(s, id, Live(c.(pos := |s.channel|, received := c.received + s.channel[c.pos..]))))
            && Run(all + [ReceiveBroadcast(id)]).None?
  {
    hide Run, Next, Goto;
    var unread := |s.channel| - c.pos;
    ReceivesInReach(actions, s, id, c, unread);
    RunSnoc(actions + Receives(id, unread), ReceiveBroadcast(id));
    ReceiveStep(s, id, Further(c, s.channel, unread));
    assert s.channel[c.pos..c.pos + unread] == s.channel[c.pos..];
  }

  lemma CatchesUpBehind(actions: seq<Action>, s: System, id: nat, c: Client)
    requires Run(actions) == Some(Goto(s, id, Live(c))) && c.pos + 256 < |s.channel|
    ensures var all := actions + Receives(id, 257);
            && Run(all) ==
               Some(Goto(s, id, Live(c.(pos := |s.channel|, received := c.received + s.channel[|s.channel| - 256..]))))
            && Run(all + [ReceiveBroadcast(id)]).None?
  {
    hide Run, Next, Goto;
    var skipped, later := actions + [ReceiveBroadcast(id)], c.(pos := |s.channel| - 256);
    RunSnoc(actions, ReceiveBroadcast(id));
    ReceiveStep(s, id, c);
    CatchesUpInReach(skipped, s, id, later);
    assert actions + Receives(id, 257) == skipped + Receives(id, 256);
  }

  /** Left to itself, a subscriber in any reachable state receives until nothing is unread: all of it in
      as many receives when that is at most 256, else the last 256 after one receive that skips. */
  lemma CatchesUp(actions: seq<Action>, id: nat)
    requires Run(actions).Some? && SessionOf(actions, id).Live?
    ensures var s, c := Run(actions).value, SessionOf(actions, id).client;
            var unread := |s.channel| - c.pos;
            && c.pos <= |s.channel|
            && var from := if unread <= 256 then c.pos else |s.channel| - 256;
            var all := actions + Receives(id, if unread <= 256 then unread else 257);
            && Run(all) == Some(Goto(s, id, Live(c.(pos := |s.channel|, received := c.received + s.channel[from..]))))
            && Run(all + [ReceiveBroadcast(id)]).None?
  {
    hide Run, Next, Goto, Receives;
    var s, c := Run(actions).value, SessionOf(actions, id).client;
    ReadsWithin(actions, id);
    if |s.channel| - c.pos <= 256 {
      CatchesUpInReach(actions, s, id, c);
    } else {
      CatchesUpBehind(actions, s, id, c);
    }
  }

  lemma ReadsWithin(actions: seq<Action>, id: nat)
    requires Run(actions).Some? && SessionOf(actions, id).Live?
    ensures SessionOf(actions, id).client.pos <= |Run(actions).value.channel|
    ensures Run(actions).value == Goto(Run(actions).value, id, SessionOf(actions, id))
  {
    var s := Run(actions).value;
    RunInv(actions);
    assert SessionInv(s.sessions[id], s.channel, s.history);
    assert s.sessions[id := s.sessions[id]] == s.sessions;
  }

  /** A session can end whenever it is not between adding a message and broadcasting it. */
  lemma ClosesIff(actions: seq<Action>, id: nat)
    requires Run(actions).Some? && id in Run(actions).value.sessions
    ensures Run(actions + [Close(id)]).Some? <==> !SessionOf(actions, id).Adding?
    ensures SessionOf(actions, id).Adding? ==> Run(actions + [BroadcastSnapshot(id)]).Some?
  {
    RunSnoc(actions, Close(id));
    RunSnoc(actions, BroadcastSnapshot(id));
    hide Run;
  }

  /** The session is never more than 256 broadcasts behind when it receives. */
  ghost predicate KeepsUp(actions: seq<Action>, id: nat) {
    forall k :: 0 <= k < |actions| && actions[k] == ReceiveBroadcast(id) ==> InReach(actions[..k], id)
  }

  predicate InReach(actions: seq<Action>, id: nat) {
    Run(actions).Some? && SessionOf(actions, id).Live? ==>
      |Run(actions).value.channel| - SessionOf(actions, id).client.pos <= 256
  }

  predicate HasAll(session: Session, channel: seq<Broadcast>) {
    session.Live? || session.Adding? ==>
      session.client.subPos <= session.client.pos <= |channel| &&
      session.client.received == channel[session.client.subPos..session.client.pos]
  }

  lemma NextHasAll(s: System, a: Action, id: nat)
    requires Next(s, a).Some? && id in Next(s, a).value.sessions
    requires id in s.sessions ==>
               && HasAll(s.sessions[id], s.channel)
               && (s.sessions[id].Greeted? ==> s.sessions[id].client.received == [])
    requires a == ReceiveBroadcast(id) && id in s.sessions && s.sessions[id].Live? ==>
               |s.channel| - s.sessions[id].client.pos <= 256
    ensures HasAll(Next(s, a).value.sessions[id], Next(s, a).value.channel)
  {
    hide PushBounded;
  }

  /** A subscriber that keeps up has received every broadcast since it subscribed, up to where it has
      read, each once and in order. */
  lemma {:induction false} SubscriberGetsAll(actions: seq<Action>, id: nat)
    requires Run(actions).Some? && KeepsUp(actions, id)
    ensures id in Run(actions).value.sessions ==> HasAll(Run(actions).value.sessions[id], Run(actions).value.channel)
  {
    if actions != [] && id in Run(actions).value.sessions {
      var before, a := actions[..|actions| - 1], actions[|actions| - 1];
      assert forall k :: 0 <= k < |before| ==> before[..k] == actions[..k];
      assert InReach(before, id) || a != ReceiveBroadcast(id);
      SubscriberGetsAll(before, id);
      RunInv(before);
      var s := Run(before).value;
      if id in s.sessions {
        assert SessionInv(s.sessions[id], s.channel, s.history);
      }
      hide Next, HasAll, Inv;
      NextHasAll(s, a, id);
    }
  }

  /** What the client shows last, and how much history that covers. */
  function View(c: Client): seq<ChatMessage> {
    if c.received == [] then c.snapshot else c.received[|c.received| - 1].data
  }

  function ViewAt(c: Client): nat {
    if c.received == [] then c.snapAt else c.received[|c.received| - 1].at
  }

  /** No broadcast between a client's snapshot and its subscription has a message newer than the snapshot. */
  ghost predicate MissedNothing(c: Client, channel: seq<Broadcast>)
    requires c.subPos <= |channel|
  {
    forall k :: c.snapPos <= k < c.subPos ==> channel[k].at <= c.snapAt
  }

  /** A client that has read everything, in a quiet room, is up to date exactly when it has received
      a broadcast or missed none between its snapshot and its subscription. */
  lemma CaughtUpClient(actions: seq<Action>, id: nat)
    requires Run(actions).Some? && Quiet(Run(actions).value)
    requires id in Run(actions).value.sessions && Run(actions).value.sessions[id].Live?
    requires Run(actions).value.sessions[id].client.pos == |Run(actions).value.channel|
    ensures var s := Run(actions).value;
            var c := s.sessions[id].client;
            && c.subPos <= |s.channel|
            && (ViewAt(c) == |s.history| <==> c.received != [] || MissedNothing(c, s.channel))
            && (ViewAt(c) == |s.history| ==> View(c) == s.messages)
  {
    var s := Run(actions).value;
    var c := s.sessions[id].client;
    RunInv(actions);
    assert SessionInv(s.sessions[id], s.channel, s.history);
    assert s.history[..|s.history|] == s.history;
    if c.received == [] && s.channel != [] {
      var last := |s.channel| - 1;
      assert c.subPos == |s.channel|;
      if last < c.snapPos {
        assert s.channel[last].at <= c.snapAt;
      }
    }
  }

  // -------------------------------------------------------------------------
  // The gap between the initial snapshot and the subscription.
  // -------------------------------------------------------------------------

  const GAP: seq<Action> := [
    Connect(1), Authenticate(1, "ann"), SendSnapshot(1), Subscribe(1),
    Connect(2), Authenticate(2, "bob"), SendSnapshot(2),
    AddMessage(1, "hello", 0), BroadcastSnapshot(1),
    Subscribe(2)]

  lemma RunSnoc(actions: seq<Action>, a: Action)
    ensures Run(actions + [a]) == if Run(actions).None? then None else Next(Run(actions).value, a)
  {
    assert (actions + [a])[..|actions|] == actions;
  }

  /** A row of states, each the next one's predecessor, is a run. */
  lemma {:induction false} TraceIsRun(states: seq<System>, actions: seq<Action>)
    requires |states| == |actions| + 1 && states[0] == START
    requires forall i :: 0 <= i < |actions| ==> Next(states[i], actions[i]) == Some(states[i + 1])
    ensures Run(actions) == Some(states[|actions|])
  {
    if actions != [] {
      var n := |actions| - 1;
      TraceIsRun(states[..|states| - 1], actions[..n]);
      RunSnoc(actions[..n], actions[n]);
      assert actions[..n] + [actions[n]] == actions;
    }
  }

  /** A session's way from its connection to its initial snapshot. */
  lemma GreetingSteps(s: System, id: nat, name: string)
    requires id !in s.sessions
    ensures var s1 := Goto(s, id, Authenticating);
            var s2 := Goto(s1, id, ManifestSent(name));
            var s3 := Goto(s2, id, Greeted(Client(name, s.messages, |s.history|, |s.channel|, 0, 0, [])));
            && Next(s, Connect(id)) == Some(s1)
            && Next(s1, Authenticate(id, name)) == Some(s2)
            && Next(s2, SendSnapshot(id)) == Some(s3)
  {
  }

  lemma AddSteps(s: System, id: nat, c: Client, text: string, m: ChatMessage)
    requires id in s.sessions && s.sessions[id] == Live(c) && m == ChatMessage(c.name, text, 0)
    requires s.messages == [] && s.history == [] && s.channel == []
    ensures var s1 := Goto(s, id, Adding(c)).(messages := [m], history := [m]);
            var s2 := Goto(s1, id, Live(c)).(nextSeq := s.nextSeq + 1, channel := [Broadcast(s.nextSeq, [m], 1)]);
            && Next(s, AddMessage(id, text, 0)) == Some(s1)
            && Next(s1, BroadcastSnapshot(id)) == Some(s2)
  {
    assert PushBounded(WINDOW, s.messages, m) == [m] && s.history + [m] == [m];
    assert s.channel + [Broadcast(s.nextSeq, [m], 1)] == [Broadcast(s.nextSeq, [m], 1)];
  }

  function GapStates(): seq<System> {
    var ann := Client("ann", [], 0, 0, 0, 0, []);
    var bob := Client("bob", [], 0, 0, 0, 0, []);
    var m := ChatMessage("ann", "hello", 0);
    var s1 := Goto(START, 1, Authenticating);
    var s2 := Goto(s1, 1, ManifestSent("ann"));
    var s3 := Goto(s2, 1, Greeted(ann));
    var s4 := Goto(s3, 1, Live(ann));
    var s5 := Goto(s4, 2, Authenticating);
    var s6 := Goto(s5, 2, ManifestSent("bob"));
    var s7 := Goto(s6, 2, Greeted(bob));
    var s8 := Goto(s7, 1, Adding(ann)).(messages := [m], history := [m]);
    var s9 := Goto(s8, 1, Live(ann)).(nextSeq := 2, channel := [Broadcast(1, [m], 1)]);
    [START, s1, s2, s3, s4, s5, s6, s7, s8, s9, Goto(s9, 2, Live(bob.(subPos := 1, pos := 1)))]
  }

  lemma GapSteps(i: nat)
    requires i < 10
    ensures Next(GapStates()[i], GAP[i]) == Some(GapStates()[i + 1])
  {
    if i < 4 {
      AnnSteps(i);
    } else if i < 7 {
      BobSteps(i);
    } else {
      LastSteps(i);
    }
  }

  lemma AnnSteps(i: nat)
    requires i < 4
    ensures Next(GapStates()[i], GAP[i]) == Some(GapStates()[i + 1])
  {
    if i < 3 {
      GreetingSteps(START, 1, "ann");
    } else {
      assert GapStates()[3].sessions[1].Greeted?;
    }
  }

  lemma BobSteps(i: nat)
    requires 4 <= i < 7
    ensures Next(GapStates()[i], GAP[i]) == Some(GapStates()[i + 1])
  {
    GreetingSteps(GapStates()[4], 2, "bob");
    hide Next;
  }

  lemma LastSteps(i: nat)
    requires 7 <= i < 10
    ensures Next(GapStates()[i], GAP[i]) == Some(GapStates()[i + 1])
  {
    var states := GapStates();
    if i < 9 {
      AddSteps(states[7], 1, states[7].sessions[1].client, "hello", ChatMessage("ann", "hello", 0));
    }
  }

  /** A run after which a subscribed client has read everything, nothing is under way, and it still
      shows a room without the message that was broadcast before it subscribed. */
  lemma MissedBroadcast()
    ensures Run(GAP).Some? && Quiet(Run(GAP).value)
    ensures var s := Run(GAP).value;
            && 2 in s.sessions && s.sessions[2].Live?
            && s.sessions[2].client.pos == |s.channel|
            && View(s.sessions[2].client) == []
            && s.messages == [ChatMessage("ann", "hello", 0)]
  {
    forall i | 0 <= i < 10 ensures Next(GapStates()[i], GAP[i]) == Some(GapStates()[i + 1]) {
      GapSteps(i);
    }
    TraceIsRun(GapStates(), GAP) by { hide Next, Run, Inv; }
    hide Next, Run, Inv;
  }
}
