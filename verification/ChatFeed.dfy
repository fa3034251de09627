/** What the chat server's connections say and are sent (examples/chat/src/server.rs:280-328), over every
    run: the history, the names, every broadcast and every connection's stream behind its greeting. */
module ChatFeed {
  import opened Wrappers
  import opened BoundedWindow
  import opened Handshake
  import opened ChatServer

  // -------------------------------------------------------------------------
  // Names and history, from the actions alone.
  // -------------------------------------------------------------------------

  /** The name that a connection authenticated with. */
  function DisplayName(actions: seq<Action>, id: nat): string {
    if actions == [] then ""
    else
      var a := actions[|actions| - 1];
      if a.Authenticate? && a.id == id then a.name else DisplayName(actions[..|actions| - 1], id)
  }

  /** The name that it goes by in the room: its passport's, when it brought one. */
  function EnteredName(actions: seq<Action>, id: nat): string {
    if actions == [] then ""
    else
      var a := actions[|actions| - 1];
      if a.Authenticate? && a.id == id then if a.passportName.Some? then a.passportName.value else a.name
      else EnteredName(actions[..|actions| - 1], id)
  }

  /** The messages of a run, each under the name of its sender in the room. */
  function Said(actions: seq<Action>): seq<ChatMessage> {
    if actions == [] then []
    else
      var before, a := actions[..|actions| - 1], actions[|actions| - 1];
      Said(before) + if a.Intent? then [ChatMessage(EnteredName(before, a.id), a.text, a.timestamp)] else []
  }

  /** A connection goes by its names. */
  predicate GoesBy(s: Server, id: nat, display: string, entered: string)
    requires id in s.conns
  {
    s.conns[id].session != 0 ==>
      && s.conns[id].name == display
      && (s.conns[id].session in s.room.users ==> s.room.users[s.conns[id].session] == entered)
  }

  lemma NextGoesBy(s: Server, a: Action, id: nat, display: string, entered: string)
    requires Inv(s) && Next(s, a).Some? && id in Next(s, a).value.conns
    requires id in s.conns ==> GoesBy(s, id, display, entered)
    ensures if a.Authenticate? && a.id == id
            then GoesBy(Next(s, a).value, id, a.name, if a.passportName.Some? then a.passportName.value else a.name)
            else GoesBy(Next(s, a).value, id, display, entered)
  {
    hide SeqInv, OutboxInv, Added, SnapshotOf, NameOf, Owns;
    if id in s.conns {
      assert ConnInv(s.conns[id], s, id);
    }
    if a.id in s.conns {
      assert ConnInv(s.conns[a.id], s, a.id);
    }
    UsersOfNext(s, a);
  }

  /** How a step changes the room's users. */
  lemma UsersOfNext(s: Server, a: Action)
    requires Next(s, a).Some?
    ensures var users, users' := s.room.users, Next(s, a).value.room.users;
            if a.Authenticate?
            then users' == users[s.nextSession := if a.passportName.Some? then a.passportName.value else a.name]
            else if a.Leave? then a.id in s.conns && users' == users - {s.conns[a.id].session}
            else users' == users
  {
    hide PushBounded, SnapshotOf, NameOf;
  }

  /** In every run each connection carries the name it authenticated with, and the room shows it under
      the name that it entered with. */
  lemma {:induction false} NamesAreGiven(manifest: string, actions: seq<Action>, id: nat)
    requires Run(manifest, actions).Some? && id in Run(manifest, actions).value.conns
    ensures GoesBy(Run(manifest, actions).value, id, DisplayName(actions, id), EnteredName(actions, id))
  {
    hide Next, Inv, GoesBy;
    if actions == [] {
    } else {
      var before, a := actions[..|actions| - 1], actions[|actions| - 1];
      RunInv(manifest, before);
      if id in Run(manifest, before).value.conns {
        NamesAreGiven(manifest, before, id);
      }
      NextGoesBy(Run(manifest, before).value, a, id, DisplayName(before, id), EnteredName(before, id));
    }
  }

  /** How many connections authenticated. */
  function Authentications(actions: seq<Action>): nat {
    if actions == [] then 0
    else Authentications(actions[..|actions| - 1]) + if actions[|actions| - 1].Authenticate? then 1 else 0
  }

  lemma NextSession(s: Server, a: Action)
    requires Next(s, a).Some?
    ensures Next(s, a).value.nextSession == s.nextSession + if a.Authenticate? then 1 else 0
    ensures a.Authenticate? ==> Next(s, a).value.conns[a.id].session == s.nextSession
  {
    hide PushBounded, SnapshotOf, NameOf;
  }

  /** Sessions are numbered from 1 in the order in which connections authenticate. */
  lemma {:induction false} SessionsCountUp(manifest: string, actions: seq<Action>)
    requires Run(manifest, actions).Some?
    ensures Run(manifest, actions).value.nextSession == Authentications(actions) + 1
    ensures actions != [] && actions[|actions| - 1].Authenticate? ==>
              && actions[|actions| - 1].id in Run(manifest, actions).value.conns
              && Run(manifest, actions).value.conns[actions[|actions| - 1].id].session == Authentications(actions)
  {
    if actions != [] {
      hide Next;
      var before := actions[..|actions| - 1];
      SessionsCountUp(manifest, before);
      NextSession(Run(manifest, before).value, actions[|actions| - 1]);
    }
  }

  /** What an intent does, in every reachable state: the room's history grows by the message under the
      sender's name; everyone gets a snapshot of the last 50 messages, this one included, and of the
      users as they are; nothing else changes. */
  lemma IntentBroadcasts(s: Server, id: nat, text: string, timestamp: nat)
    requires Inv(s) && Next(s, Intent(id, text, timestamp)).Some?
    ensures var s' := Next(s, Intent(id, text, timestamp)).value;
            && id in s.conns && s.conns[id].stage.Live? && s.conns[id].session in s.room.users
            && var m := ChatMessage(s.room.users[s.conns[id].session], text, timestamp);
            && s'.history == s.history + [m]
            && s'.channel == s.channel + [Item(id, Snapshot(|OwnSeqs(s.channel, id)| + 1,
                                                            ChatSnapshot(Last(50, s.history + [m]), s.room.users)),
                                               |s.history| + 1)]
            && s'.room.users == s.room.users && s'.conns.Keys == s.conns.Keys
            && (forall j :: j in s.conns ==> s'.conns[j] == s.conns[j].(seqNo := s'.conns[j].seqNo))
  {
    hide OutboxInv, OwnSeqs, CountsUp, Owns, Last, PushBounded;
    var c := s.conns[id];
    assert ConnInv(c, s, id) && SeqInv(c, s.channel, id);
    var m := ChatMessage(s.room.users[c.session], text, timestamp);
    PushKeepsLast(100, s.history, m);
    LastOfWindow(s.history + [m]);
  }

  lemma NoMessage(s: Server, a: Action)
    requires Next(s, a).Some? && !a.Intent?
    ensures Next(s, a).value.history == s.history
  {
    hide Added, SnapshotOf, NameOf;
  }

  /** In every run the history is what was said, in order, and the room keeps the last hundred of it. */
  lemma {:induction false} HistoryIsSaid(manifest: string, actions: seq<Action>)
    requires Run(manifest, actions).Some?
    ensures Run(manifest, actions).value.history == Said(actions)
    ensures Run(manifest, actions).value.room.messages == Last(100, Said(actions))
  {
    RunInv(manifest, actions);
    if actions != [] {
      hide Next, EnteredName, DisplayName;
      var before, a := actions[..|actions| - 1], actions[|actions| - 1];
      HistoryIsSaid(manifest, before);
      RunInv(manifest, before);
      var s := Run(manifest, before).value;
      if a.Intent? {
        IntentBroadcasts(s, a.id, a.text, a.timestamp);
        NamesAreGiven(manifest, before, a.id);
        assert s.conns[a.id].session != 0 by { LiveHasSession(s, a.id); }
      } else {
        NoMessage(s, a);
        assert Said(before) + [] == Said(before);
      }
    }
  }

  lemma LiveHasSession(s: Server, id: nat)
    requires Inv(s) && id in s.conns && s.conns[id].stage.Live?
    ensures s.conns[id].session != 0
  {
    assert ConnInv(s.conns[id], s, id);
  }

  // -------------------------------------------------------------------------
  // The channel.
  // -------------------------------------------------------------------------

  /** Snapshots among the items. */
  function Snapshots(channel: seq<Item>): nat {
    if channel == [] then 0
    else Snapshots(channel[..|channel| - 1]) + if channel[|channel| - 1].wire.Snapshot? then 1 else 0
  }

  /** Item i, when it is a snapshot, is the k-th for some k and shows the first k messages of the
      history, the last 50 of them; any other item is a system message. */
  predicate ShowsItsMoment(channel: seq<Item>, history: seq<ChatMessage>, i: nat)
    requires i < |channel|
  {
    var wire := channel[i].wire;
    if wire.Snapshot? then
      var k := Snapshots(channel[..i + 1]);
      && channel[i].at == k && 1 <= k <= |history|
      && wire.data.messages == Last(50, history[..k])
    else wire.System?
  }

  ghost predicate ChannelShows(channel: seq<Item>, history: seq<ChatMessage>) {
    && Snapshots(channel) == |history|
    && forall i :: 0 <= i < |channel| ==> ShowsItsMoment(channel, history, i)
  }

  lemma ChannelGrows(channel: seq<Item>, history: seq<ChatMessage>, item: Item, more: seq<ChatMessage>)
    requires ChannelShows(channel, history)
    requires if item.wire.Snapshot?
             then |more| == 1 && item.at == |history| + 1 && item.wire.data.messages == Last(50, history + more)
             else more == [] && item.wire.System?
    ensures ChannelShows(channel + [item], history + more)
  {
    hide Last;
    var channel', history' := channel + [item], history + more;
    assert channel'[..|channel|] == channel && channel'[..|channel'|] == channel';
    forall i | 0 <= i < |channel'| ensures ShowsItsMoment(channel', history', i) {
      if i < |channel| {
        assert ShowsItsMoment(channel, history, i);
        assert channel'[..i + 1] == channel[..i + 1];
        var k := Snapshots(channel[..i + 1]);
        assert k <= |history| ==> history'[..k] == history[..k];
      } else {
        assert channel'[..i + 1] == channel';
        assert history'[..|history'|] == history';
      }
    }
  }

  /** Which items other steps send. */
  lemma SystemItems(s: Server, a: Action)
    requires Next(s, a).Some? && !a.Intent?
    ensures a.BroadcastJoin? || a.BroadcastLeave? ==> a.id in s.conns
    ensures Next(s, a).value.channel ==
            s.channel + if a.BroadcastJoin? then [Item(a.id, System(s.conns[a.id].name + " joined"), |s.history|)]
                        else if a.BroadcastLeave? then [Item(a.id, System(s.conns[a.id].name + " left"), |s.history|)]
                        else []
  {
    hide Added, SnapshotOf, NameOf;
    assert s.channel + [] == s.channel;
  }

  /** In every run the k-th snapshot on the channel, whoever sent it, shows the last 50 of the first k
      messages said, and there is one for each of them. */
  lemma {:induction false} BroadcastsShowHistory(manifest: string, actions: seq<Action>)
    requires Run(manifest, actions).Some?
    ensures ChannelShows(Run(manifest, actions).value.channel, Said(actions))
  {
    HistoryIsSaid(manifest, actions);
    if actions != [] {
      hide Next, Said, ChannelShows;
      var before, a := actions[..|actions| - 1], actions[|actions| - 1];
      BroadcastsShowHistory(manifest, before);
      HistoryIsSaid(manifest, before);
      RunInv(manifest, before);
      var s := Run(manifest, before).value;
      if a.Intent? {
        IntentBroadcasts(s, a.id, a.text, a.timestamp);
        var s' := Next(s, a).value;
        ChannelGrows(s.channel, s.history, s'.channel[|s.channel|], s'.history[|s.history|..]);
        assert s.history + s'.history[|s.history|..] == s'.history;
      } else {
        NoMessage(s, a);
        SystemItems(s, a);
        if a.BroadcastJoin? || a.BroadcastLeave? {
          ChannelGrows(s.channel, s.history, Next(s, a).value.channel[|s.channel|], []);
        }
        assert s.history + [] == s.history && s.channel + [] == s.channel;
      }
    } else {
      assert Said([]) == [];
    }
  }

  /** The system messages that a connection sent, by its stage. */
  function OwnTexts(channel: seq<Item>, id: nat): seq<string> {
    if channel == [] then []
    else
      var last := channel[|channel| - 1];
      OwnTexts(channel[..|channel| - 1], id) + if last.sender == id && last.wire.System? then [last.wire.text] else []
  }

  predicate Announces(stage: Stage, name: string, texts: seq<string>) {
    match stage
    case Accepted => texts == []
    case Authed => texts == []
    case ManifestSent => texts == []
    case Gone => texts == [name + " joined", name + " left"]
    case Aborted => texts == [] || texts == [name + " joined"]
    case _ => texts == [name + " joined"]
  }

  lemma OwnTextsGrow(channel: seq<Item>, item: Item, id: nat)
    ensures OwnTexts(channel + [item], id) ==
            OwnTexts(channel, id) + if item.sender == id && item.wire.System? then [item.wire.text] else []
  {
    assert (channel + [item])[..|channel|] == channel;
  }

  lemma {:induction false} NoOwnTexts(channel: seq<Item>, id: nat)
    requires forall i :: 0 <= i < |channel| ==> channel[i].sender != id
    ensures OwnTexts(channel, id) == []
  {
    if channel != [] {
      NoOwnTexts(channel[..|channel| - 1], id);
    }
  }

  /** How a step moves a connection's stage and keeps its name. */
  lemma NextStage(s: Server, a: Action, id: nat)
    requires Next(s, a).Some? && id in Next(s, a).value.conns
    ensures id !in s.conns ==> Next(s, a).value.conns[id].stage == Accepted
    ensures id in s.conns ==>
              var c, c' := s.conns[id], Next(s, a).value.conns[id];
              && (a.id != id ==> c' == c)
              && (a.id == id && a.BroadcastJoin? ==> c.stage.ManifestSent? && c'.stage.Announced? && c'.name == c.name)
              && (a.id == id && a.BroadcastLeave? ==> c.stage.Leaving? && c'.stage.Gone? && c'.name == c.name)
              && (a.id == id && !a.BroadcastJoin? && !a.BroadcastLeave? ==>
                    forall texts :: Announces(c.stage, c.name, texts) ==> Announces(c'.stage, c'.name, texts))
  {
    hide Added, SnapshotOf, NameOf;
  }

  /** In every run a connection has announced its join once past it, under the name it authenticated
      with, and its leave once it is gone; and nothing else. */
  lemma {:induction false} JoinsAndLeaves(manifest: string, actions: seq<Action>, id: nat)
    requires Run(manifest, actions).Some? && id in Run(manifest, actions).value.conns
    ensures var s := Run(manifest, actions).value;
            Announces(s.conns[id].stage, s.conns[id].name, OwnTexts(s.channel, id))
  {
    if actions != [] {
      hide Next, Announces, OwnTexts;
      var before, a := actions[..|actions| - 1], actions[|actions| - 1];
      RunInv(manifest, before);
      var s := Run(manifest, before).value;
      NextStage(s, a, id);
      NextTexts(s, a, id);
      if id in s.conns {
        JoinsAndLeaves(manifest, before, id);
        StageTexts(s.conns[id], OwnTexts(s.channel, id));
      } else {
        NoOwnTexts(s.channel, id);
        StageTexts(Next(s, a).value.conns[id], []);
      }
    }
  }

  lemma NextTexts(s: Server, a: Action, id: nat)
    requires Inv(s) && Next(s, a).Some?
    ensures (a.BroadcastJoin? || a.BroadcastLeave?) && a.id == id ==> id in s.conns
    ensures OwnTexts(Next(s, a).value.channel, id) ==
            OwnTexts(s.channel, id) +
            if a.BroadcastJoin? && a.id == id then [s.conns[id].name + " joined"]
            else if a.BroadcastLeave? && a.id == id then [s.conns[id].name + " left"] else []
  {
    hide Next, Inv, OwnTexts;
    assert OwnTexts(s.channel, id) + [] == OwnTexts(s.channel, id) && s.channel + [] == s.channel;
    if a.Intent? {
      IntentBroadcasts(s, a.id, a.text, a.timestamp);
      OwnTextsGrow(s.channel, Next(s, a).value.channel[|s.channel|], id);
    } else {
      SystemItems(s, a);
      if a.BroadcastJoin? || a.BroadcastLeave? {
        OwnTextsGrow(s.channel, Next(s, a).value.channel[|s.channel|], id);
      }
    }
  }

  lemma StageTexts(c: Conn, texts: seq<string>)
    ensures c.stage.Accepted? ==> (Announces(c.stage, c.name, texts) <==> texts == [])
    ensures c.stage.ManifestSent? && Announces(c.stage, c.name, texts) ==>
              Announces(Announced, c.name, texts + [c.name + " joined"])
    ensures c.stage.Leaving? && Announces(c.stage, c.name, texts) ==>
              Announces(Gone, c.name, texts + [c.name + " left"])
    ensures texts + [] == texts
  {
  }

  // -------------------------------------------------------------------------
  // A connection's stream behind its greeting.
  // -------------------------------------------------------------------------

  /** The direct answers in a stream, and what it relays from the channel. */
  function Direct(outs: seq<Out>): seq<Out> {
    if outs == [] then []
    else
      var last := outs[|outs| - 1];
      Direct(outs[..|outs| - 1]) + if last.Transfer? || last.Error? || last.Pong? then [last] else []
  }

  function Relayed(outs: seq<Out>): seq<Out> {
    if outs == [] then []
    else
      var last := outs[|outs| - 1];
      Relayed(outs[..|outs| - 1]) + if last.Snapshot? || last.System? then [last] else []
  }

  /** The channel between two positions, less those dropped. */
  function Kept(channel: seq<Item>, from: nat, to: nat, dropped: set<nat>): seq<Out>
    requires to <= |channel|
  {
    if to <= from then []
    else Kept(channel, from, to - 1, dropped) + if to - 1 in dropped then [] else [channel[to - 1].wire]
  }

  /** The answers that a run gave a connection directly. */
  function Replies(actions: seq<Action>, id: nat): seq<Out> {
    if actions == [] then []
    else
      var a := actions[|actions| - 1];
      Replies(actions[..|actions| - 1], id) + if a.Reply? && a.id == id then [a.wire] else []
  }

  /** A connection's stream: its outbox behind the greeting is its direct answers and, between them,
      the channel from its subscription up to where it has read, less what was dropped. */
  predicate FeedInv(c: Conn, channel: seq<Item>, replies: seq<Out>) {
    && c.subPos <= c.pos <= |channel|
    && (forall p :: p in c.dropped ==> c.subPos <= p < c.pos)
    && (|c.outbox| < 2 ==> replies == [] && c.subPos == c.pos && c.dropped == {})
    && (|c.outbox| >= 2 ==>
          && Direct(c.outbox[2..]) == replies
          && Relayed(c.outbox[2..]) == Kept(channel, c.subPos, c.pos, c.dropped)
          && |c.outbox| == 2 + |Direct(c.outbox[2..])| + |Relayed(c.outbox[2..])|)
  }

  lemma {:induction false} KeptStays(channel: seq<Item>, longer: seq<Item>, from: nat, to: nat,
                                     dropped: set<nat>, more: set<nat>)
    requires to <= |channel| && channel <= longer
    requires forall p :: p in more ==> p >= to
    ensures Kept(longer, from, to, dropped + more) == Kept(channel, from, to, dropped)
  {
    if to > from {
      KeptStays(channel, longer, from, to - 1, dropped, more);
    }
  }

  /** Dropping a whole range keeps nothing of it. */
  lemma {:induction false} KeptSkips(channel: seq<Item>, from: nat, mid: nat, to: nat, dropped: set<nat>)
    requires from <= mid <= to <= |channel|
    requires forall p: nat :: mid <= p < to ==> p in dropped
    ensures Kept(channel, from, to, dropped) == Kept(channel, from, mid, dropped)
  {
    if mid < to {
      KeptSkips(channel, from, mid, to - 1, dropped);
    }
  }

  lemma TailGrows(outbox: seq<Out>, out: Out)
    requires |outbox| >= 2
    ensures Direct((outbox + [out])[2..]) ==
            Direct(outbox[2..]) + if out.Transfer? || out.Error? || out.Pong? then [out] else []
    ensures Relayed((outbox + [out])[2..]) ==
            Relayed(outbox[2..]) + if out.Snapshot? || out.System? then [out] else []
  {
    var tail := (outbox + [out])[2..];
    assert tail == outbox[2..] + [out];
    assert tail[..|tail| - 1] == outbox[2..];
  }

  /** How a step changes what a connection has been sent and read. */
  lemma NextFeed(s: Server, a: Action, id: nat)
    requires Inv(s) && Next(s, a).Some? && id in Next(s, a).value.conns
    ensures s.channel <= Next(s, a).value.channel
    ensures id !in s.conns ==>
              var c' := Next(s, a).value.conns[id];
              c'.outbox == [] && c'.subPos == c'.pos == 0 && c'.dropped == {} && !(a.Reply? && a.id == id)
    ensures id in s.conns ==>
              var c, c' := s.conns[id], Next(s, a).value.conns[id];
              if a.id == id && a.Reply? then
                |c.outbox| >= 2 && (a.wire.Transfer? || a.wire.Error? || a.wire.Pong?) &&
                c' == c.(outbox := c.outbox + [a.wire])
              else if a.id == id && a.Forward? then
                |c.outbox| >= 2 && c.pos < |s.channel| &&
                c' == c.(pos := c.pos + 1, outbox := c.outbox + [s.channel[c.pos].wire])
              else if a.id == id && a.Lag? then
                |c.outbox| >= 2 && c.pos < a.to && a.to + 100 <= |s.channel| &&
                c' == c.(pos := a.to, dropped := c.dropped + Between(c.pos, a.to))
              else if a.id == id && a.Subscribe? then
                |c.outbox| == 2 && c' == c.(stage := Live, subPos := |s.channel|, pos := |s.channel|)
              else if a.id == id && (a.SendManifest? || a.SendSnapshot?) then
                && |c'.outbox| == |c.outbox| + 1 <= 2
                && c'.subPos == c.subPos && c'.pos == c.pos && c'.dropped == c.dropped
              else c'.outbox == c.outbox && c'.subPos == c.subPos && c'.pos == c.pos && c'.dropped == c.dropped
  {
    hide SeqInv, Greeting, Added, SnapshotOf, NameOf, Owns;
    if id in s.conns {
      assert ConnInv(s.conns[id], s, id);
    }
  }

  lemma FeedGrows(c: Conn, channel: seq<Item>, longer: seq<Item>, replies: seq<Out>)
    requires FeedInv(c, channel, replies) && channel <= longer
    ensures FeedInv(c, longer, replies)
  {
    KeptStays(channel, longer, c.subPos, c.pos, c.dropped, {});
    assert c.dropped + {} == c.dropped;
    hide Kept, Direct, Relayed;
  }

  lemma FeedReply(c: Conn, channel: seq<Item>, replies: seq<Out>, wire: Out)
    requires FeedInv(c, channel, replies) && |c.outbox| >= 2 && (wire.Transfer? || wire.Error? || wire.Pong?)
    ensures FeedInv(c.(outbox := c.outbox + [wire]), channel, replies + [wire])
  {
    hide Kept, Direct, Relayed;
    TailGrows(c.outbox, wire);
    assert Relayed(c.outbox[2..]) + [] == Relayed(c.outbox[2..]);
  }

  lemma FeedForward(c: Conn, channel: seq<Item>, replies: seq<Out>)
    requires FeedInv(c, channel, replies) && |c.outbox| >= 2 && c.pos < |channel|
    requires channel[c.pos].wire.Snapshot? || channel[c.pos].wire.System?
    ensures FeedInv(c.(pos := c.pos + 1, outbox := c.outbox + [channel[c.pos].wire]), channel, replies)
  {
    var wire := channel[c.pos].wire;
    assert Kept(channel, c.subPos, c.pos + 1, c.dropped) == Kept(channel, c.subPos, c.pos, c.dropped) + [wire];
    hide Kept, Direct, Relayed;
    TailGrows(c.outbox, wire);
    assert Direct(c.outbox[2..]) + [] == Direct(c.outbox[2..]);
  }

  lemma FeedLag(c: Conn, channel: seq<Item>, replies: seq<Out>, to: nat)
    requires FeedInv(c, channel, replies) && |c.outbox| >= 2 && c.pos < to <= |channel|
    ensures FeedInv(c.(pos := to, dropped := c.dropped + Between(c.pos, to)), channel, replies)
  {
    var dropped := c.dropped + Between(c.pos, to);
    KeptSkips(channel, c.subPos, c.pos, to, dropped);
    KeptStays(channel, channel, c.subPos, c.pos, c.dropped, Between(c.pos, to));
    hide Kept, Direct, Relayed;
  }

  lemma FeedSubscribe(c: Conn, channel: seq<Item>, replies: seq<Out>)
    requires FeedInv(c, channel, replies) && |c.outbox| == 2 && c.subPos == c.pos
    ensures FeedInv(c.(stage := Live, subPos := |channel|, pos := |channel|), channel, replies)
  {
  }

  /** The channel positions that lags took from a connection. */
  function Dropped(manifest: string, actions: seq<Action>, id: nat): set<nat> {
    if actions == [] then {}
    else
      var before, a := actions[..|actions| - 1], actions[|actions| - 1];
      Dropped(manifest, before, id) +
      if a.Lag? && a.id == id && Run(manifest, before).Some? && id in Run(manifest, before).value.conns
      then Between(Run(manifest, before).value.conns[id].pos, a.to) else {}
  }

  lemma {:induction false} NothingDropped(manifest: string, actions: seq<Action>, id: nat)
    requires forall i :: 0 <= i < |actions| ==> !(actions[i].Lag? && actions[i].id == id)
    ensures Dropped(manifest, actions, id) == {}
  {
    if actions != [] {
      NothingDropped(manifest, actions[..|actions| - 1], id);
    }
  }

  /** Before it subscribes a connection has read nothing and dropped nothing. */
  predicate Unread(c: Conn) {
    c.stage.Accepted? || c.stage.Authed? || c.stage.ManifestSent? || c.stage.Announced? || c.stage.Greeted? ==>
      c.subPos == c.pos == 0 && c.dropped == {}
  }

  lemma NextUnread(s: Server, a: Action, id: nat)
    requires Next(s, a).Some? && id in Next(s, a).value.conns && (id in s.conns ==> Unread(s.conns[id]))
    ensures Unread(Next(s, a).value.conns[id])
  {
    hide Added, SnapshotOf, NameOf;
  }

  lemma FeedOfNext(s: Server, a: Action, id: nat, replies: seq<Out>)
    requires Inv(s) && Next(s, a).Some? && id in s.conns && FeedInv(s.conns[id], s.channel, replies)
    requires Unread(s.conns[id])
    requires forall i :: 0 <= i < |s.channel| ==> s.channel[i].wire.Snapshot? || s.channel[i].wire.System?
    ensures id in Next(s, a).value.conns
    ensures FeedInv(Next(s, a).value.conns[id], Next(s, a).value.channel,
                    replies + if a.Reply? && a.id == id then [a.wire] else [])
  {
    hide Inv, FeedInv, Unread, Next;
    OthersStay(s, a);
    OwnFeedOfNext(s, a, id, replies);
    ChannelPrefix(s, a);
    FeedGrows(Next(s, a).value.conns[id], s.channel, Next(s, a).value.channel,
              replies + if a.Reply? && a.id == id then [a.wire] else []);
  }

  lemma ChannelPrefix(s: Server, a: Action)
    requires Next(s, a).Some?
    ensures s.channel <= Next(s, a).value.channel
  {
    var added := ChannelStep(s, a);
    hide Next;
  }

  lemma OwnFeedOfNext(s: Server, a: Action, id: nat, replies: seq<Out>)
    requires Inv(s) && Next(s, a).Some? && id in s.conns && FeedInv(s.conns[id], s.channel, replies)
    requires Unread(s.conns[id]) && id in Next(s, a).value.conns
    requires forall i :: 0 <= i < |s.channel| ==> s.channel[i].wire.Snapshot? || s.channel[i].wire.System?
    ensures FeedInv(Next(s, a).value.conns[id], s.channel, replies + if a.Reply? && a.id == id then [a.wire] else [])
  {
    hide Inv, FeedInv, Unread, Next, Between;
    NextFeed(s, a, id);
    if a.id == id && a.Subscribe? {
      SubscribesUnread(s, id);
    }
    FeedOfOwn(s.conns[id], Next(s, a).value.conns[id], s.channel, a, id, replies);
  }

  lemma SubscribesUnread(s: Server, id: nat)
    requires Next(s, Subscribe(id)).Some? && id in s.conns && Unread(s.conns[id])
    ensures s.conns[id].subPos == s.conns[id].pos
  {
  }

  /** A connection's own change, of one of the kinds that change its stream. */
  lemma FeedOfOwn(c: Conn, c': Conn, channel: seq<Item>, a: Action, id: nat, replies: seq<Out>)
    requires FeedInv(c, channel, replies)
    requires forall i :: 0 <= i < |channel| ==> channel[i].wire.Snapshot? || channel[i].wire.System?
    requires if a.id == id && a.Reply? then
               |c.outbox| >= 2 && (a.wire.Transfer? || a.wire.Error? || a.wire.Pong?) &&
               c' == c.(outbox := c.outbox + [a.wire])
             else if a.id == id && a.Forward? then
               |c.outbox| >= 2 && c.pos < |channel| &&
               c' == c.(pos := c.pos + 1, outbox := c.outbox + [channel[c.pos].wire])
             else if a.id == id && a.Lag? then
               |c.outbox| >= 2 && c.pos < a.to <= |channel| &&
               c' == c.(pos := a.to, dropped := c.dropped + Between(c.pos, a.to))
             else if a.id == id && a.Subscribe? then
               |c.outbox| == 2 && c.subPos == c.pos &&
               c' == c.(stage := Live, subPos := |channel|, pos := |channel|)
             else (c'.outbox == c.outbox || |c'.outbox| == |c.outbox| + 1 <= 2) &&
                  c'.subPos == c.subPos && c'.pos == c.pos && c'.dropped == c.dropped
    ensures FeedInv(c', channel, replies + if a.Reply? && a.id == id then [a.wire] else [])
  {
    hide FeedInv, Between;
    assert replies + [] == replies;
    if a.id == id && a.Reply? {
      FeedReply(c, channel, replies, a.wire);
    } else if a.id == id && a.Forward? {
      FeedForward(c, channel, replies);
    } else if a.id == id && a.Lag? {
      FeedLag(c, channel, replies, a.to);
    } else if a.id == id && a.Subscribe? {
      FeedSubscribe(c, channel, replies);
    } else {
      FeedSame(c, c', channel, replies);
    }
  }

  lemma FeedSame(c: Conn, c': Conn, channel: seq<Item>, replies: seq<Out>)
    requires FeedInv(c, channel, replies)
    requires c'.subPos == c.subPos && c'.pos == c.pos && c'.dropped == c.dropped
    requires c'.outbox == c.outbox || |c'.outbox| == |c.outbox| + 1 <= 2
    ensures FeedInv(c', channel, replies)
  {
    if |c'.outbox| == 2 && c'.outbox != c.outbox {
      assert c'.outbox[2..] == [];
    }
  }

  lemma NewFeed(c: Conn, channel: seq<Item>)
    requires c.outbox == [] && c.subPos == c.pos == 0 && c.dropped == {}
    ensures FeedInv(c, channel, [])
  {
  }

  lemma {:induction false} NoReplies(manifest: string, actions: seq<Action>, id: nat)
    requires Run(manifest, actions).Some? && id !in Run(manifest, actions).value.conns
    ensures Replies(actions, id) == [] && Dropped(manifest, actions, id) == {}
  {
    hide Next;
    if actions != [] {
      var before, a := actions[..|actions| - 1], actions[|actions| - 1];
      var s := Run(manifest, before).value;
      OthersStay(s, a);
      if id != a.id {
        NoReplies(manifest, before, id);
      }
    }
  }

  ghost predicate Fed(manifest: string, actions: seq<Action>, id: nat) {
    && Run(manifest, actions).Some? && id in Run(manifest, actions).value.conns
    && var s := Run(manifest, actions).value;
    && Unread(s.conns[id])
    && FeedInv(s.conns[id], s.channel, Replies(actions, id))
    && s.conns[id].dropped == Dropped(manifest, actions, id)
  }

  lemma OnlySystemAndSnapshots(manifest: string, actions: seq<Action>)
    requires Run(manifest, actions).Some?
    ensures var channel := Run(manifest, actions).value.channel;
            forall i :: 0 <= i < |channel| ==> channel[i].wire.Snapshot? || channel[i].wire.System?
  {
    BroadcastsShowHistory(manifest, actions);
    var channel := Run(manifest, actions).value.channel;
    assert forall i :: 0 <= i < |channel| ==> ShowsItsMoment(channel, Said(actions), i);
    hide Run, Said;
  }

  /** In every run a connection's outbox behind its greeting is its direct answers interleaved with the
      channel from its subscription up to where it has read, less exactly what lags dropped. */
  lemma {:induction false} OutboxIsAnswersAndChannel(manifest: string, actions: seq<Action>, id: nat)
    requires Run(manifest, actions).Some? && id in Run(manifest, actions).value.conns
    ensures Fed(manifest, actions, id)
  {
    hide Next, Inv, FeedInv, Unread, Replies;
    if actions == [] {
    } else {
      var before, a := actions[..|actions| - 1], actions[|actions| - 1];
      var s := Run(manifest, before).value;
      RunInv(manifest, before);
      NextFeed(s, a, id);
      if id in s.conns {
        OutboxIsAnswersAndChannel(manifest, before, id);
        OnlySystemAndSnapshots(manifest, before);
        FeedOfNext(s, a, id, Replies(before, id));
        NextUnread(s, a, id);
        RepliesOfNext(actions, id);
      } else {
        NewFeed(Next(s, a).value.conns[id], Next(s, a).value.channel);
        NextUnread(s, a, id);
        NoReplies(manifest, before, id);
        RepliesOfNext(actions, id);
      }
    }
  }

  lemma RepliesOfNext(actions: seq<Action>, id: nat)
    requires actions != []
    ensures var a := actions[|actions| - 1];
            Replies(actions, id) ==
            Replies(actions[..|actions| - 1], id) + if a.Reply? && a.id == id then [a.wire] else []
  {
  }

  /** A subscription starts at the end of the channel. */
  lemma SubscribesAtTheEnd(manifest: string, actions: seq<Action>, id: nat)
    requires Run(manifest, actions).Some? && Run(manifest, actions + [Subscribe(id)]).Some?
    ensures var s' := Run(manifest, actions + [Subscribe(id)]).value;
            id in s'.conns && s'.conns[id].subPos == s'.conns[id].pos == |Run(manifest, actions).value.channel|
  {
    RunSnoc(manifest, actions, Subscribe(id));
    hide Run;
  }

  /** A lag can take what is unread up to a position behind which at least the last hundred items stand,
      and nothing else. */
  lemma LagDrops(manifest: string, actions: seq<Action>, id: nat, to: nat)
    requires Run(manifest, actions).Some?
    ensures var s := Run(manifest, actions).value;
            Run(manifest, actions + [Lag(id, to)]).Some? <==>
              id in s.conns && s.conns[id].stage.Live? && s.conns[id].pos < to && to + 100 <= |s.channel|
    ensures var s := Run(manifest, actions).value;
            Run(manifest, actions + [Lag(id, to)]).Some? ==>
            (forall p: nat :: p in Dropped(manifest, actions + [Lag(id, to)], id) <==>
                  p in Dropped(manifest, actions, id) || s.conns[id].pos <= p < to)
  {
    RunSnoc(manifest, actions, Lag(id, to));
    LagIsFar(Run(manifest, actions).value, id, to);
    assert (actions + [Lag(id, to)])[..|actions|] == actions;
    hide Run, Next;
  }

  lemma LagIsFar(s: Server, id: nat, to: nat)
    ensures Next(s, Lag(id, to)).Some? <==>
              id in s.conns && s.conns[id].stage.Live? && s.conns[id].pos < to && to + 100 <= |s.channel|
  {
  }

  /** A connection that no lag touched was sent the whole channel since it subscribed, up to where it
      has read. */
  lemma NothingLost(manifest: string, actions: seq<Action>, id: nat)
    requires Run(manifest, actions).Some? && id in Run(manifest, actions).value.conns
    requires |Run(manifest, actions).value.conns[id].outbox| >= 2
    requires forall i :: 0 <= i < |actions| ==> !(actions[i].Lag? && actions[i].id == id)
    ensures var s := Run(manifest, actions).value;
            var c := s.conns[id];
            && c.subPos <= c.pos <= |s.channel|
            && Relayed(c.outbox[2..]) == Wires(s.channel[c.subPos..c.pos])
  {
    OutboxIsAnswersAndChannel(manifest, actions, id);
    NothingDropped(manifest, actions, id);
    var s := Run(manifest, actions).value;
    hide Run, Kept, Relayed, Direct, Dropped, Wires;
    KeptIsAll(s.channel, s.conns[id].subPos, s.conns[id].pos);
  }

  function Wires(items: seq<Item>): seq<Out> {
    seq(|items|, i requires 0 <= i < |items| => items[i].wire)
  }

  lemma {:induction false} KeptIsAll(channel: seq<Item>, from: nat, to: nat)
    requires from <= to <= |channel|
    ensures Kept(channel, from, to, {}) == Wires(channel[from..to])
  {
    if from < to {
      KeptIsAll(channel, from, to - 1);
      assert channel[from..to] == channel[from..to - 1] + [channel[to - 1]];
    }
  }

  // -------------------------------------------------------------------------
  // What a connection can always do.
  // -------------------------------------------------------------------------

  function Forwards(id: nat, n: nat): (actions: seq<Action>)
    ensures |actions| == n && forall i :: 0 <= i < n ==> actions[i] == Forward(id)
  {
    seq(n, _ => Forward(id))
  }

  lemma GotoTwice(s: Server, id: nat, before: Conn, after: Conn)
    ensures Goto(Goto(s, id, before), id, after) == Goto(s, id, after)
  {
    assert s.conns[id := before][id := after] == s.conns[id := after];
  }

  /** A connection that was sent the next n items of the channel. */
  function Further(c: Conn, channel: seq<Item>, n: nat): Conn
    requires c.pos + n <= |channel|
  {
    c.(pos := c.pos + n, outbox := c.outbox + Wires(channel[c.pos..c.pos + n]))
  }

  lemma ForwardStep(s: Server, id: nat, c: Conn)
    ensures Next(Goto(s, id, c), Forward(id)).Some? <==> c.stage.Live? && c.pos < |s.channel|
    ensures c.stage.Live? && c.pos < |s.channel| ==>
              Next(Goto(s, id, c), Forward(id)) == Some(Goto(s, id, Further(c, s.channel, 1)))
  {
    if c.stage.Live? && c.pos < |s.channel| {
      assert Wires(s.channel[c.pos..c.pos + 1]) == [s.channel[c.pos].wire];
      GotoTwice(s, id, c, Further(c, s.channel, 1));
    }
  }

  lemma FurtherAdds(c: Conn, channel: seq<Item>, n: nat)
    requires n > 0 && c.pos + n <= |channel|
    ensures Further(Further(c, channel, n - 1), channel, 1) == Further(c, channel, n)
  {
    var at := c.pos + (n - 1);
    assert channel[c.pos..c.pos + n] == channel[c.pos..at] + channel[at..at + 1];
    assert Wires(channel[c.pos..c.pos + n]) == Wires(channel[c.pos..at]) + Wires(channel[at..at + 1]);
  }

  lemma {:induction false} ForwardsRun(manifest: string, actions: seq<Action>, s: Server, id: nat, c: Conn, n: nat)
    requires Run(manifest, actions) == Some(Goto(s, id, c)) && c.stage.Live? && c.pos + n <= |s.channel|
    ensures Run(manifest, actions + Forwards(id, n)) == Some(Goto(s, id, Further(c, s.channel, n)))
  {
    hide Run, Next, Goto;
    if n == 0 {
      assert actions + Forwards(id, 0) == actions;
      assert c.outbox + Wires(s.channel[c.pos..c.pos]) == c.outbox;
    } else {
      ForwardsRun(manifest, actions, s, id, c, n - 1);
      assert actions + Forwards(id, n) == (actions + Forwards(id, n - 1)) + [Forward(id)];
      RunSnoc(manifest, actions + Forwards(id, n - 1), Forward(id));
      ForwardStep(s, id, Further(c, s.channel, n - 1));
      FurtherAdds(c, s.channel, n);
    }
  }

  lemma CatchesUpFrom(manifest: string, actions: seq<Action>, s: Server, id: nat, c: Conn)
    requires Run(manifest, actions) == Some(Goto(s, id, c)) && c.stage.Live? && c.pos <= |s.channel|
    ensures var all := actions + Forwards(id, |s.channel| - c.pos);
            && Run(manifest, all) ==
               Some(Goto(s, id, c.(pos := |s.channel|, outbox := c.outbox + Wires(s.channel[c.pos..]))))
            && Run(manifest, all + [Forward(id)]).None?
  {
    hide Run, Next, Goto, Wires;
    var n := |s.channel| - c.pos;
    ForwardsRun(manifest, actions, s, id, c, n);
    RunSnoc(manifest, actions + Forwards(id, n), Forward(id));
    ForwardStep(s, id, Further(c, s.channel, n));
    assert s.channel[c.pos..c.pos + n] == s.channel[c.pos..];
  }

  lemma IsItself(s: Server, id: nat)
    requires id in s.conns
    ensures s == Goto(s, id, s.conns[id])
  {
    assert s.conns[id := s.conns[id]] == s.conns;
  }

  /** Left to itself, a live connection in any reachable state is sent all that is unread, in as many
      forwards, and then has nothing to forward. */
  lemma CatchesUp(manifest: string, actions: seq<Action>, id: nat)
    requires Run(manifest, actions).Some? && id in Run(manifest, actions).value.conns
    requires Run(manifest, actions).value.conns[id].stage.Live?
    ensures var s := Run(manifest, actions).value;
            var c := s.conns[id];
            && c.pos <= |s.channel|
            && var all := actions + Forwards(id, |s.channel| - c.pos);
            && Run(manifest, all) ==
               Some(Goto(s, id, c.(pos := |s.channel|, outbox := c.outbox + Wires(s.channel[c.pos..]))))
            && Run(manifest, all + [Forward(id)]).None?
  {
    hide Run, Next, Goto, Forwards, Wires, Kept, Relayed, Direct, Dropped, Unread;
    var s := Run(manifest, actions).value;
    OutboxIsAnswersAndChannel(manifest, actions, id);
    IsItself(s, id);
    CatchesUpFrom(manifest, actions, s, id, s.conns[id]);
  }

  /** A live connection can be answered at any time with a transfer, an error or a pong, and nobody else
      notices. */
  lemma AnswersIff(manifest: string, actions: seq<Action>, id: nat, wire: Out)
    requires Run(manifest, actions).Some?
    ensures var s, s' := Run(manifest, actions).value, Run(manifest, actions + [Reply(id, wire)]);
            && (s'.Some? <==>
                  id in s.conns && s.conns[id].stage.Live? && (wire.Transfer? || wire.Error? || wire.Pong?))
            && (s'.Some? ==>
                  s'.value == s.(conns := s.conns[id := s.conns[id].(outbox := s.conns[id].outbox + [wire])]))
  {
    RunSnoc(manifest, actions, Reply(id, wire));
    hide Run;
  }

  lemma LeaveSteps(s: Server, id: nat)
    requires id in s.conns && s.conns[id].stage.Live?
    ensures var c := s.conns[id];
            var left := Next(s, Leave(id));
            && left.Some?
            && left.value == Goto(s, id, c.(stage := Leaving)).(room := s.room.(users := s.room.users - {c.session}))
            && Next(left.value, BroadcastLeave(id)) ==
               Some(Goto(s, id, c.(stage := Gone))
                      .(room := s.room.(users := s.room.users - {c.session}),
                        channel := s.channel + [Item(id, System(c.name + " left"), |s.history|)]))
  {
    var c := s.conns[id];
    assert s.conns[id := c.(stage := Leaving)][id := c.(stage := Gone)] == s.conns[id := c.(stage := Gone)];
  }

  /** A live connection can leave at any time: its user, and nobody else, is out of the room, and the
      channel then tells. */
  lemma LeavesAndTells(manifest: string, actions: seq<Action>, id: nat)
    requires Run(manifest, actions).Some? && id in Run(manifest, actions).value.conns
    requires Run(manifest, actions).value.conns[id].stage.Live?
    ensures var s, s' := Run(manifest, actions).value, Run(manifest, actions + [Leave(id)] + [BroadcastLeave(id)]);
            var c := s.conns[id];
            && s'.Some? && c.session in s.room.users
            && s'.value.room.users == s.room.users - {c.session}
            && s'.value.history == s.history
            && s'.value.channel == s.channel + [Item(id, System(DisplayName(actions, id) + " left"), |s.history|)]
            && s'.value.conns == s.conns[id := c.(stage := Gone)]
  {
    NamesAreGiven(manifest, actions, id);
    RunInv(manifest, actions);
    LiveHasSession(Run(manifest, actions).value, id);
    LeaveSteps(Run(manifest, actions).value, id);
    RunSnoc(manifest, actions, Leave(id));
    RunSnoc(manifest, actions + [Leave(id)], BroadcastLeave(id));
    hide Run, Next, Inv, DisplayName, EnteredName;
  }
}
