/** Shared-cursor delivery in the daemon (crates/interconnect-daemon/src/daemon.rs): many readers
    drain one append-only log per room.  A reader's request is cut into its atomic steps: the lock
    sections, the creation of the `notified()` future and its completion. */
module Daemon {
  import opened Wrappers

  type Message = string
  type Name = string

  /** The shared part of a room. */
  datatype Room = Room(messages: seq<Message>, cursor: nat) {
    predicate Valid() { cursor <= |messages| }

    function Pending(): seq<Message>
      requires Valid()
    {
      messages[cursor..]
    }
  }

  function Pushed(r: Room, m: Message): Room { r.(messages := r.messages + [m]) }

  function Drained(r: Room): Room { r.(cursor := |r.messages|) }

  class RoomState {
    var messages: seq<Message>
    var cursor: nat
    var wakeups: nat   // calls of notify_waiters so far

    ghost function Abstract(): Room
      reads this
    {
      Room(messages, cursor)
    }

    constructor ()
      ensures Abstract() == Room([], 0) && wakeups == 0
    {
      messages, cursor, wakeups := [], 0, 0;
    }

    method Push(msg: Message)
      modifies this
      ensures Abstract() == Pushed(old(Abstract()), msg)
      ensures wakeups == old(wakeups) + 1
    {
      messages := messages + [msg];
      wakeups := wakeups + 1;
    }

    method DrainPending() returns (msgs: seq<Message>)
      requires Abstract().Valid()
      modifies this`cursor
      ensures Abstract() == Drained(old(Abstract())) && Abstract().Valid()
      ensures msgs == old(Abstract().Pending())
      ensures old(messages[..cursor]) + msgs == messages[..cursor] && Abstract().Pending() == []
    {
      msgs := messages[cursor..];
      cursor := |messages|;
    }

    method Snapshot() returns (count: nat, position: nat, last: Option<Message>)
      ensures count == |messages| && position == cursor
      ensures last == if messages == [] then None else Some(messages[|messages| - 1])
    {
      count, position := |messages|, cursor;
      last := if messages == [] then None else Some(messages[|messages| - 1]);
    }
  }

  // -------------------------------------------------------------------------
  // The protocol.
  // -------------------------------------------------------------------------

  datatype Response =
    | Messages(batch: seq<Message>)
    | StateOf(count: nat, cursor: nat, last: Option<Message>)
    | RoomNotFound
    | Panic   // an index into the room table that is not there

  /** Where a reader's request stands.  `drainedAt` is the length of the log at the reader's last
      drain, which came back empty; `registeredAt` its length when `notified()` was created. */
  datatype Pc =
    | Idle
    | FirstDrain(room: Name, block: bool)
    | FetchNotify(room: Name, drainedAt: nat)
    | Register(room: Name, drainedAt: nat)
    | Waiting(room: Name, drainedAt: nat, registeredAt: nat, woken: bool)
    | LoopDrain(room: Name)
    | Returned(block: bool, response: Response)

  datatype Delivery = Delivery(reader: nat, room: Name, batch: seq<Message>)

  datatype System = System(rooms: map<Name, Room>, readers: map<nat, Pc>, deliveries: seq<Delivery>)

  datatype Action =
    | Push(room: Name, msg: Message)
    | Receive(reader: nat, room: Name, block: bool)   // a Recv request arrives
    | Inspect(reader: nat, room: Name)                // a State request, one lock section
    | Step(reader: nat)                               // the reader's next atomic step

  function PcOf(s: System, r: nat): Pc {
    if r in s.readers then s.readers[r] else Idle
  }

  function Goto(s: System, r: nat, pc: Pc): System {
    s.(readers := s.readers[r := pc])
  }

  /** notify_waiters: wakes the futures that exist now and leaves nothing for later ones. */
  function NotifyWaiters(readers: map<nat, Pc>, room: Name): map<nat, Pc> {
    map r | r in readers ::
      if readers[r].Waiting? && readers[r].room == room then readers[r].(woken := true) else readers[r]
  }

  function Deliver(s: System, r: nat, room: Name, block: bool): System
    requires room in s.rooms && s.rooms[room].Valid()
  {
    var batch := s.rooms[room].Pending();
    s.(rooms := s.rooms[room := Drained(s.rooms[room])],
       readers := s.readers[r := Returned(block, Messages(batch))],
       deliveries := s.deliveries + [Delivery(r, room, batch)])
  }

  predicate RoomsValid(s: System) {
    forall n :: n in s.rooms ==> s.rooms[n].Valid()
  }

  /** One action; None when it is not enabled. */
  function Next(s: System, a: Action): Option<System>
    requires RoomsValid(s)
  {
    match a
    case Push(room, msg) =>
      if room !in s.rooms then Some(s)
      else Some(s.(rooms := s.rooms[room := Pushed(s.rooms[room], msg)],
                   readers := NotifyWaiters(s.readers, room)))
    case Receive(r, room, block) =>
      if PcOf(s, r).Idle? || PcOf(s, r).Returned? then Some(Goto(s, r, FirstDrain(room, block))) else None
    case Inspect(r, room) =>
      if !PcOf(s, r).Idle? && !PcOf(s, r).Returned? then None
      else if room !in s.rooms then Some(Goto(s, r, Returned(false, RoomNotFound)))
      else
        var ms := s.rooms[room].messages;
        var last := if ms == [] then None else Some(ms[|ms| - 1]);
        Some(Goto(s, r, Returned(false, StateOf(|ms|, s.rooms[room].cursor, last))))
    case Step(r) => StepReader(s, r)
  }

  function StepReader(s: System, r: nat): Option<System>
    requires RoomsValid(s)
  {
    match PcOf(s, r)
    case Idle => None
    case Returned(_, _) => None
    case FirstDrain(room, block) =>
      if room !in s.rooms then Some(Goto(s, r, Returned(block, RoomNotFound)))
      else if !block || s.rooms[room].Pending() != [] then Some(Deliver(s, r, room, block))
      else Some(Goto(s, r, FetchNotify(room, |s.rooms[room].messages|)))
    case FetchNotify(room, at) =>
      if room !in s.rooms then Some(Goto(s, r, Returned(true, Panic)))
      else Some(Goto(s, r, Register(room, at)))
    case Register(room, at) =>
      // `notified()` reads the room's Notify, which the reader holds, not the room table
      var now := if room in s.rooms then |s.rooms[room].messages| else 0;
      Some(Goto(s, r, Waiting(room, at, now, false)))
    case Waiting(room, _, _, woken) =>
      if woken then Some(Goto(s, r, LoopDrain(room))) else None
    case LoopDrain(room) =>
      if room !in s.rooms then Some(Goto(s, r, Returned(true, RoomNotFound)))
      else if s.rooms[room].Pending() != [] then Some(Deliver(s, r, room, true))
      else Some(Goto(s, r, Register(room, |s.rooms[room].messages|)))
  }

  function Init(names: set<Name>): System {
    System(map n | n in names :: Room([], 0), map[], [])
  }

  /** The state after the actions, None when one of them is not enabled. */
  function Run(names: set<Name>, actions: seq<Action>): (s: Option<System>)
    ensures s.Some? ==> RoomsValid(s.value)
  {
    if actions == [] then Some(Init(names))
    else
      var before := Run(names, actions[..|actions| - 1]);
      if before.None? then None else Next(before.value, actions[|actions| - 1])
  }

  // -------------------------------------------------------------------------
  // The invariant.
  // -------------------------------------------------------------------------

  /** The batches returned for a room, concatenated in drain order. */
  function Delivered(ds: seq<Delivery>, room: Name): seq<Message> {
    if ds == [] then []
    else
      var d := ds[|ds| - 1];
      Delivered(ds[..|ds| - 1], room) + if d.room == room then d.batch else []
  }

  predicate PcInv(rooms: map<Name, Room>, pc: Pc) {
    match pc
    case Idle => true
    case FirstDrain(_, _) => true
    case FetchNotify(n, at) => n in rooms && at <= rooms[n].cursor
    case Register(n, at) => n in rooms && at <= rooms[n].cursor
    case Waiting(n, at, from, woken) =>
      && n in rooms
      && at <= rooms[n].cursor && at <= from <= |rooms[n].messages|
      && (woken <==> from < |rooms[n].messages|)
    case LoopDrain(n) => n in rooms
    case Returned(block, response) =>
      && response != Panic
      && (block && response.Messages? ==> response.batch != [])
  }

  ghost predicate Inv(s: System, names: set<Name>) {
    && s.rooms.Keys == names
    && RoomsValid(s)
    && (forall n :: n in s.rooms ==> Delivered(s.deliveries, n) == s.rooms[n].messages[..s.rooms[n].cursor])
    && (forall r :: r in s.readers ==> PcInv(s.rooms, s.readers[r]))
  }

  lemma InitInv(names: set<Name>)
    ensures Inv(Init(names), names)
  {
  }

  lemma DeliveredAppend(ds: seq<Delivery>, d: Delivery, room: Name)
    ensures Delivered(ds + [d], room) == Delivered(ds, room) + if d.room == room then d.batch else []
  {
    assert (ds + [d])[..|ds|] == ds;
  }

  lemma DeliverInv(s: System, r: nat, room: Name, block: bool, names: set<Name>)
    requires Inv(s, names) && room in s.rooms
    requires block ==> s.rooms[room].Pending() != []
    ensures Inv(Deliver(s, r, room, block), names)
  {
    var s' := Deliver(s, r, room, block);
    var d := s'.deliveries[|s.deliveries|];
    forall n | n in s'.rooms
      ensures Delivered(s'.deliveries, n) == s'.rooms[n].messages[..s'.rooms[n].cursor]
    {
      DeliveredAppend(s.deliveries, d, n);
      if n == room {
        var m := s.rooms[n];
        assert m.messages[..m.cursor] + m.messages[m.cursor..] == m.messages[..|m.messages|];
      }
    }
  }

  lemma PushInv(s: System, room: Name, msg: Message, names: set<Name>)
    requires Inv(s, names) && room in s.rooms
    ensures Inv(Next(s, Push(room, msg)).value, names)
  {
    hide Delivered;
    var s' := Next(s, Push(room, msg)).value;
    forall n | n in s'.rooms
      ensures Delivered(s'.deliveries, n) == s'.rooms[n].messages[..s'.rooms[n].cursor]
    {
      assert s'.rooms[n].messages[..s.rooms[n].cursor] == s.rooms[n].messages[..s.rooms[n].cursor];
    }
  }

  /** A reader that moves without draining keeps the invariant if its new state does. */
  lemma GotoInv(s: System, r: nat, pc: Pc, names: set<Name>)
    requires Inv(s, names) && PcInv(s.rooms, pc)
    ensures Inv(Goto(s, r, pc), names)
  {
    hide Delivered, PcInv;
  }

  lemma StepInv(s: System, r: nat, names: set<Name>)
    requires Inv(s, names) && StepReader(s, r).Some?
    ensures Inv(StepReader(s, r).value, names)
  {
    hide Delivered;
    var s' := StepReader(s, r).value;
    var pc := PcOf(s, r);
    assert r in s.readers && PcInv(s.rooms, s.readers[r]);
    if (pc.FirstDrain? || pc.LoopDrain?) && pc.room in s.rooms &&
       (s.rooms[pc.room].Pending() != [] || (pc.FirstDrain? && !pc.block)) {
      DeliverInv(s, r, pc.room, if pc.FirstDrain? then pc.block else true, names);
    } else {
      hide Inv;
      assert s' == Goto(s, r, PcOf(s', r));
      GotoInv(s, r, PcOf(s', r), names);
    }
  }

  /** Every action keeps the invariant. */
  lemma NextInv(s: System, a: Action, names: set<Name>)
    requires Inv(s, names)
    ensures Next(s, a).Some? ==> Inv(Next(s, a).value, names)
  {
    hide Delivered, StepReader;
    if Next(s, a).Some? {
      match a {
        case Push(room, msg) =>
          if room in s.rooms {
            PushInv(s, room, msg, names);
          }
        case Step(r) => StepInv(s, r, names);
        case Receive(r, room, block) => GotoInv(s, r, FirstDrain(room, block), names);
        case Inspect(r, room) => GotoInv(s, r, PcOf(Next(s, a).value, r), names);
      }
    }
  }

  // -------------------------------------------------------------------------
  // Main results, over every run.
  // -------------------------------------------------------------------------

  /** Every run keeps the invariant. */
  lemma {:induction false} RunInv(names: set<Name>, actions: seq<Action>)
    ensures Run(names, actions).Some? ==> Inv(Run(names, actions).value, names)
  {
    hide Next;
    if actions == [] {
      InitInv(names);
    } else {
      var before := actions[..|actions| - 1];
      RunInv(names, before);
      if Run(names, before).Some? {
        NextInv(Run(names, before).value, actions[|actions| - 1], names);
      }
    }
  }

  /** The messages a run pushes to a room, in order. */
  function PushesTo(actions: seq<Action>, room: Name): seq<Message> {
    if actions == [] then []
    else
      var a := actions[|actions| - 1];
      PushesTo(actions[..|actions| - 1], room) + if a.Push? && a.room == room then [a.msg] else []
  }

  /** Only pushes to a room change its log, and they append to it. */
  lemma NextLog(s: System, a: Action, names: set<Name>, room: Name)
    requires Inv(s, names) && room in s.rooms && Next(s, a).Some?
    ensures room in Next(s, a).value.rooms
    ensures Next(s, a).value.rooms[room].messages ==
            s.rooms[room].messages + if a.Push? && a.room == room then [a.msg] else []
  {
  }

  lemma {:induction false} LogIsPushes(names: set<Name>, actions: seq<Action>, room: Name)
    requires Run(names, actions).Some? && room in names
    ensures room in Run(names, actions).value.rooms
    ensures Run(names, actions).value.rooms[room].messages == PushesTo(actions, room)
  {
    if actions != [] {
      hide Next, Inv;
      var before := actions[..|actions| - 1];
      LogIsPushes(names, before, room);
      RunInv(names, before);
      NextLog(Run(names, before).value, actions[|actions| - 1], names, room);
    }
  }

  /** An action in which some reader drains a room, with or without something to get. */
  predicate Drains(s: System, a: Action, room: Name) {
    a.Step? && (PcOf(s, a.reader).FirstDrain? || PcOf(s, a.reader).LoopDrain?) && PcOf(s, a.reader).room == room
  }

  predicate PushesOn(a: Action, room: Name) {
    a.Push? && a.room == room
  }

  /** What an action hands to its reader for a room: the batch it answers with. */
  function AnswerFor(s: System, a: Action, room: Name): seq<Message>
    requires RoomsValid(s)
  {
    if !a.Step? || Next(s, a).None? || RoomOf(s, a) != Some(room) then []
    else
      var pc := PcOf(Next(s, a).value, a.reader);
      if pc.Returned? && pc.response.Messages? then pc.response.batch else []
  }

  /** The batches that a run answered with for a room, in order. */
  function Received(names: set<Name>, actions: seq<Action>, room: Name): seq<Message> {
    if actions == [] then []
    else
      var before := actions[..|actions| - 1];
      Received(names, before, room) +
      if Run(names, before).None? then [] else AnswerFor(Run(names, before).value, actions[|actions| - 1], room)
  }

  /** A step of a reader answers with what is pending in its room just before, or not at all. */
  lemma NextAnswer(s: System, a: Action, names: set<Name>, room: Name)
    requires Inv(s, names) && room in names && Next(s, a).Some?
    ensures room in s.rooms
    ensures AnswerFor(s, a, room) == if Drains(s, a, room) then s.rooms[room].Pending() else []
  {
    hide Delivered, PcInv;
  }

  /** In every interleaving, what the readers were answered with for a room, in order, is the first
      part of what was pushed to it, in push order, each message once and none skipped; the rest is
      pending, and the cursor counts what was answered.  The room table keeps its keys. */
  lemma {:induction false} DeliveryInOrderExactlyOnce(names: set<Name>, actions: seq<Action>, room: Name)
    requires Run(names, actions).Some? && room in names
    ensures var s := Run(names, actions).value;
            && s.rooms.Keys == names
            && Received(names, actions, room) + s.rooms[room].Pending() == PushesTo(actions, room)
            && |Received(names, actions, room)| == s.rooms[room].cursor
            && Delivered(s.deliveries, room) == Received(names, actions, room)
  {
    hide Next, PushesTo, Delivered, Inv, Drains, AnswerFor;
    RunInv(names, actions);
    LogIsPushes(names, actions, room);
    DrainedAndPending(Run(names, actions).value, names, room);
    ReceivedAndPending(names, actions, room);
    SameFront(Received(names, actions, room), Delivered(Run(names, actions).value.deliveries, room),
              Run(names, actions).value.rooms[room].Pending());
  }

  lemma {:induction false} ReceivedAndPending(names: set<Name>, actions: seq<Action>, room: Name)
    requires Run(names, actions).Some? && room in names
    ensures room in Run(names, actions).value.rooms
    ensures Received(names, actions, room) + Run(names, actions).value.rooms[room].Pending() == PushesTo(actions, room)
  {
    if actions != [] {
      hide Next, Inv, Drains, AnswerFor;
      var before, a := actions[..|actions| - 1], actions[|actions| - 1];
      ReceivedAndPending(names, before, room);
      RunInv(names, before);
      var s := Run(names, before).value;
      NextAnswer(s, a, names, room);
      NextPending(s, a, names, room);
      var got, pending := Received(names, before, room), s.rooms[room].Pending();
      var more := if PushesOn(a, room) then [a.msg] else [];
      assert got + pending + more == got + (pending + more);
      assert got + pending + [] == got + pending;
      if Drains(s, a, room) {
        assert !PushesOn(a, room) by { DrainerIsNoPusher(s, a, room); }
      }
    }
  }

  lemma DrainerIsNoPusher(s: System, a: Action, room: Name)
    requires Drains(s, a, room)
    ensures !PushesOn(a, room)
  {
  }

  lemma SameFront(a: seq<Message>, b: seq<Message>, tail: seq<Message>)
    requires a + tail == b + tail
    ensures a == b
  {
    assert |a| == |b| && (a + tail)[..|a|] == a && (b + tail)[..|b|] == b;
  }

  lemma DrainedAndPending(s: System, names: set<Name>, room: Name)
    requires Inv(s, names) && room in names
    ensures s.rooms.Keys == names && room in s.rooms && RoomsValid(s)
    ensures Delivered(s.deliveries, room) + s.rooms[room].Pending() == s.rooms[room].messages
    ensures |Delivered(s.deliveries, room)| == s.rooms[room].cursor
  {
    hide Delivered, PcInv;
    var m := s.rooms[room];
    assert m.messages[..m.cursor] + m.messages[m.cursor..] == m.messages;
  }

  /** A request that blocks never returns an empty batch, and no request panics. */
  lemma BlockingNeverEmpty(names: set<Name>, actions: seq<Action>, r: nat)
    requires Run(names, actions).Some?
    ensures var pc := PcOf(Run(names, actions).value, r);
            pc.Returned? ==> pc.response != Panic && (pc.block && pc.response.Messages? ==> pc.response.batch != [])
  {
    RunInv(names, actions);
    hide Run, Delivered;
  }

  /** Which steps end a request and how, in every reachable state: a drain with something pending, a
      first drain that is not to block, or one of a room that is not there; a message batch is what
      was pending in the room just before.  No other reader is answered. */
  lemma StepAnswers(names: set<Name>, actions: seq<Action>, r: nat)
    requires Run(names, actions).Some? && Run(names, actions + [Step(r)]).Some?
    ensures var s, s' := Run(names, actions).value, Run(names, actions + [Step(r)]).value;
            var pc := PcOf(s, r);
            && s.rooms.Keys == names && (pc.LoopDrain? ==> pc.room in names)
            && (pc.FirstDrain? ==>
                  PcOf(s', r) == if pc.room !in names then Returned(pc.block, RoomNotFound)
                                 else if !pc.block || s.rooms[pc.room].Pending() != []
                                 then Returned(pc.block, Messages(s.rooms[pc.room].Pending()))
                                 else FetchNotify(pc.room, |PushesTo(actions, pc.room)|))
            && (pc.LoopDrain? ==>
                  PcOf(s', r) == if s.rooms[pc.room].Pending() != []
                                 then Returned(true, Messages(s.rooms[pc.room].Pending()))
                                 else Register(pc.room, |PushesTo(actions, pc.room)|))
            && (!pc.FirstDrain? && !pc.LoopDrain? ==> !PcOf(s', r).Returned?)
            && (forall q :: q != r ==> PcOf(s', q) == PcOf(s, q))
  {
    RunInv(names, actions);
    RunSnoc(names, actions, Step(r));
    var s := Run(names, actions).value;
    var pc := PcOf(s, r);
    if r in s.readers {
      assert PcInv(s.rooms, pc);
    }
    if (pc.FirstDrain? || pc.LoopDrain?) && pc.room in names {
      LogIsPushes(names, actions, pc.room);
    }
    hide Run, PushesTo, Delivered;
  }

  /** A request that finds something, or is not to block, is answered by its first step. */
  lemma RecvAtOnce(names: set<Name>, actions: seq<Action>, r: nat, room: Name, block: bool)
    requires Run(names, actions).Some?
    requires PcOf(Run(names, actions).value, r).Idle? || PcOf(Run(names, actions).value, r).Returned?
    ensures var s := Run(names, actions).value;
            var s' := Run(names, actions + [Receive(r, room, block)] + [Step(r)]);
            && s'.Some?
            && (room !in names ==> PcOf(s'.value, r) == Returned(block, RoomNotFound) && s'.value.rooms == s.rooms)
            && (room in names ==>
                  && room in s.rooms && room in s'.value.rooms && s'.value.rooms[room].Pending() == []
                  && (!block || s.rooms[room].Pending() != [] ==>
                        PcOf(s'.value, r) == Returned(block, Messages(s.rooms[room].Pending())))
                  && (block && s.rooms[room].Pending() == [] ==> PcOf(s'.value, r).FetchNotify?))
  {
    RunInv(names, actions);
    RunSnoc(names, actions, Receive(r, room, block));
    RunSnoc(names, actions + [Receive(r, room, block)], Step(r));
    hide Run, Delivered, PcInv;
  }

  /** A State request is answered with how many messages were pushed, how many were answered with,
      and the last one pushed; it changes nothing else. */
  lemma StateAnswers(names: set<Name>, actions: seq<Action>, r: nat, room: Name)
    requires Run(names, actions).Some?
    requires PcOf(Run(names, actions).value, r).Idle? || PcOf(Run(names, actions).value, r).Returned?
    ensures var s, s' := Run(names, actions).value, Run(names, actions + [Inspect(r, room)]);
            && s'.Some? && s'.value == Goto(s, r, PcOf(s'.value, r))
            && PcOf(s'.value, r) ==
               Returned(false,
                        if room !in names then RoomNotFound
                        else
                          var pushed := PushesTo(actions, room);
                          StateOf(|pushed|, |Received(names, actions, room)|,
                                  if pushed == [] then None else Some(pushed[|pushed| - 1])))
  {
    RunInv(names, actions);
    RunSnoc(names, actions, Inspect(r, room));
    if room in names {
      LogIsPushes(names, actions, room);
      DeliveryInOrderExactlyOnce(names, actions, room);
    }
    hide Run, PushesTo, Received, Delivered, PcInv;
  }

  /** What a run has pushed to a room since any reader last drained it. */
  function SinceDrain(names: set<Name>, actions: seq<Action>, room: Name): seq<Message> {
    if actions == [] then []
    else
      var before, a := actions[..|actions| - 1], actions[|actions| - 1];
      if Run(names, before).Some? && Drains(Run(names, before).value, a, room) then []
      else SinceDrain(names, before, room) + if PushesOn(a, room) then [a.msg] else []
  }

  /** One step of it: draining takes all that is pending, pushing adds to it, nothing else changes it. */
  lemma NextPending(s: System, a: Action, names: set<Name>, room: Name)
    requires Inv(s, names) && room in names && Next(s, a).Some?
    ensures var s' := Next(s, a).value;
            && room in s.rooms && room in s'.rooms && RoomsValid(s')
            && s'.rooms[room].Pending() ==
               if Drains(s, a, room) then [] else s.rooms[room].Pending() + if PushesOn(a, room) then [a.msg] else []
  {
    hide Delivered, PcInv;
    NextInv(s, a, names);
    var pending := s.rooms[room].Pending();
    assert pending + [] == pending;
    if PushesOn(a, room) {
      assert Next(s, a).value.rooms[room].Pending() == pending + [a.msg];
    }
  }

  /** In every reachable state what is pending in a room is what was pushed since its last drain. */
  lemma {:induction false} PendingIsSinceDrain(names: set<Name>, actions: seq<Action>, room: Name)
    requires Run(names, actions).Some? && room in names
    ensures var s := Run(names, actions).value;
            room in s.rooms && s.rooms[room].Pending() == SinceDrain(names, actions, room)
  {
    hide Next, Inv, Drains;
    if actions != [] {
      var before := actions[..|actions| - 1];
      PendingIsSinceDrain(names, before, room);
      RunInv(names, before);
      NextPending(Run(names, before).value, actions[|actions| - 1], names, room);
    }
  }

  /** The k-th action of a run drains a room. */
  predicate DrainsAt(names: set<Name>, actions: seq<Action>, k: nat, room: Name)
    requires k < |actions|
  {
    Run(names, actions[..k]).Some? && Drains(Run(names, actions[..k]).value, actions[k], room)
  }

  /** Action k pushes to a room and no later one drains it. */
  ghost predicate LeftBehind(names: set<Name>, actions: seq<Action>, room: Name, k: nat) {
    k < |actions| && PushesOn(actions[k], room) && forall j :: k < j < |actions| ==> !DrainsAt(names, actions, j, room)
  }

  /** Something was pushed since the last drain exactly when some push has no drain behind it. */
  lemma {:induction false} SinceDrainIff(names: set<Name>, actions: seq<Action>, room: Name)
    ensures SinceDrain(names, actions, room) != [] <==> exists k :: LeftBehind(names, actions, room, k)
  {
    hide Run, Drains;
    if actions != [] {
      var n := |actions| - 1;
      var before := actions[..n];
      SinceDrainIff(names, before, room);
      assert forall k :: 0 <= k < n ==> before[..k] == actions[..k];
      if DrainsAt(names, actions, n, room) {
        assert !PushesOn(actions[n], room) by { DrainIsNoPush(names, actions, n, room); }
        assert forall k :: LeftBehind(names, actions, room, k) ==> k == n;
      } else if PushesOn(actions[n], room) {
        assert LeftBehind(names, actions, room, n);
      } else {
        forall k ensures LeftBehind(names, actions, room, k) <==> LeftBehind(names, before, room, k) {
          LeftBehindStays(names, actions, room, k);
        }
      }
    }
  }

  lemma DrainIsNoPush(names: set<Name>, actions: seq<Action>, k: nat, room: Name)
    requires k < |actions| && DrainsAt(names, actions, k, room)
    ensures !PushesOn(actions[k], room)
  {
    hide Run;
  }

  lemma LeftBehindStays(names: set<Name>, actions: seq<Action>, room: Name, k: nat)
    requires actions != []
    requires !DrainsAt(names, actions, |actions| - 1, room) && !PushesOn(actions[|actions| - 1], room)
    ensures LeftBehind(names, actions, room, k) <==> LeftBehind(names, actions[..|actions| - 1], room, k)
  {
    hide Run, Drains;
    var before := actions[..|actions| - 1];
    forall j | 0 <= j < |before| ensures DrainsAt(names, before, j, room) == DrainsAt(names, actions, j, room) {
      assert before[..j] == actions[..j];
    }
  }

  /** A reader that registers falls asleep, whatever is pending; and it falls asleep over a message if
      and only if the room was pushed to after the last drain, its own or another reader's. */
  lemma RegisterFallsAsleep(names: set<Name>, actions: seq<Action>, r: nat)
    requires Run(names, actions).Some? && PcOf(Run(names, actions).value, r).Register?
    ensures var pc := PcOf(Run(names, actions).value, r);
            var s' := Run(names, actions + [Step(r)]);
            && s'.Some? && pc.room in s'.value.rooms
            && PcOf(s'.value, r) == Waiting(pc.room, pc.drainedAt, |s'.value.rooms[pc.room].messages|, false)
            && s'.value.rooms[pc.room].Pending() == SinceDrain(names, actions, pc.room)
            && |SinceDrain(names, actions, pc.room)| <= |s'.value.rooms[pc.room].messages| - pc.drainedAt
            && (s'.value.rooms[pc.room].Pending() != [] <==> exists k :: LeftBehind(names, actions, pc.room, k))
  {
    var s := Run(names, actions).value;
    RunInv(names, actions);
    assert PcInv(s.rooms, s.readers[r]);
    RunSnoc(names, actions, Step(r));
    PendingIsSinceDrain(names, actions, PcOf(s, r).room);
    SinceDrainIff(names, actions, PcOf(s, r).room);
    hide Run, SinceDrain, LeftBehind, Delivered;
  }

  /** A reader asleep and not woken has seen no push since it registered, so what is pending was
      pushed between its last drain and its registration; and something is pending if and only if
      some push to the room has no drain behind it. */
  lemma SleepingReader(names: set<Name>, actions: seq<Action>, r: nat)
    requires Run(names, actions).Some?
    requires PcOf(Run(names, actions).value, r).Waiting? && !PcOf(Run(names, actions).value, r).woken
    ensures var s := Run(names, actions).value;
            var pc := PcOf(s, r);
            && pc.room in s.rooms
            && |s.rooms[pc.room].messages| == pc.registeredAt
            && pc.drainedAt <= s.rooms[pc.room].cursor
            && s.rooms[pc.room].Pending() == SinceDrain(names, actions, pc.room)
            && |s.rooms[pc.room].Pending()| <= pc.registeredAt - pc.drainedAt
            && (s.rooms[pc.room].Pending() != [] <==> exists k :: LeftBehind(names, actions, pc.room, k))
            && (pc.drainedAt == pc.registeredAt ==> s.rooms[pc.room].Pending() == [])
  {
    var s := Run(names, actions).value;
    RunInv(names, actions);
    assert PcInv(s.rooms, s.readers[r]);
    PendingIsSinceDrain(names, actions, PcOf(s, r).room);
    SinceDrainIff(names, actions, PcOf(s, r).room);
    hide Run, Delivered, SinceDrain, LeftBehind;
  }

  /** The next push wakes a sleeping reader; if it runs first, it returns everything pending and
      the new message. */
  lemma NextPushDelivers(names: set<Name>, actions: seq<Action>, r: nat, msg: Message)
    requires Run(names, actions).Some?
    requires PcOf(Run(names, actions).value, r).Waiting? && !PcOf(Run(names, actions).value, r).woken
    ensures var s := Run(names, actions).value;
            var room := PcOf(s, r).room;
            var s' := Run(names, actions + [Push(room, msg), Step(r), Step(r)]);
            && s'.Some? && room in s.rooms && room in s'.value.rooms
            && PcOf(s'.value, r) == Returned(true, Messages(s.rooms[room].Pending() + [msg]))
            && s'.value.rooms[room].Pending() == []
  {
    RunInv(names, actions);
    hide Next, Inv, Run;
    var s := Run(names, actions).value;
    var room := PcOf(s, r).room;
    RunSnoc(names, actions, Push(room, msg));
    RunSnoc(names, actions + [Push(room, msg)], Step(r));
    RunSnoc(names, actions + [Push(room, msg)] + [Step(r)], Step(r));
    assert actions + [Push(room, msg)] + [Step(r)] + [Step(r)] == actions + [Push(room, msg), Step(r), Step(r)];
    WokenDelivers(s, names, r, msg);
  }

  lemma WokenDelivers(s: System, names: set<Name>, r: nat, msg: Message)
    requires Inv(s, names) && PcOf(s, r).Waiting? && !PcOf(s, r).woken
    ensures var room := PcOf(s, r).room;
            var s1 := Next(s, Push(room, msg));
            && room in s.rooms && s1.Some? && Inv(s1.value, names)
            && var s2 := Next(s1.value, Step(r));
            && s2.Some? && Inv(s2.value, names)
            && var s3 := Next(s2.value, Step(r));
            && s3.Some? && Inv(s3.value, names) && room in s3.value.rooms
            && PcOf(s3.value, r) == Returned(true, Messages(s.rooms[room].Pending() + [msg]))
            && s3.value.rooms[room].Pending() == []
  {
    var room := PcOf(s, r).room;
    NextInv(s, Push(room, msg), names);
    var s1 := Next(s, Push(room, msg)).value;
    assert PcOf(s1, r) == PcOf(s, r).(woken := true);
    NextInv(s1, Step(r), names);
    var s2 := Next(s1, Step(r)).value;
    assert s2.rooms[room].Pending() == s.rooms[room].Pending() + [msg];
    NextInv(s2, Step(r), names);
  }

  lemma RunSnoc(names: set<Name>, actions: seq<Action>, a: Action)
    ensures Run(names, actions + [a]) ==
            if Run(names, actions).None? then None else Next(Run(names, actions).value, a)
  {
    assert (actions + [a])[..|actions|] == actions;
  }

  /** Actions of one room. */
  function RoomOf(s: System, a: Action): Option<Name> {
    match a
    case Push(n, _) => Some(n)
    case Receive(_, n, _) => Some(n)
    case Inspect(_, n) => Some(n)
    case Step(r) =>
      var pc := PcOf(s, r);
      if pc.Idle? || pc.Returned? then None else Some(pc.room)
  }

  /** No action of one room changes another room, its deliveries, or a reader waiting on it. */
  lemma OtherRoomsUntouched(s: System, a: Action, names: set<Name>, other: Name)
    requires Inv(s, names) && other in names && RoomOf(s, a) != Some(other) && Next(s, a).Some?
    ensures var s' := Next(s, a).value;
            && other in s'.rooms && s'.rooms[other] == s.rooms[other]
            && Delivered(s'.deliveries, other) == Delivered(s.deliveries, other)
            && forall r :: PcOf(s, r).Waiting? && PcOf(s, r).room == other ==> PcOf(s', r) == PcOf(s, r)
  {
    hide Delivered;
    var s' := Next(s, a).value;
    if s'.deliveries != s.deliveries {
      DeliveredAppend(s.deliveries, s'.deliveries[|s.deliveries|], other);
    }
    forall r | PcOf(s, r).Waiting? && PcOf(s, r).room == other ensures PcOf(s', r) == PcOf(s, r) {
      OtherWaitersUntouched(s, a, names, r);
    }
  }

  lemma OtherWaitersUntouched(s: System, a: Action, names: set<Name>, r: nat)
    requires Inv(s, names) && PcOf(s, r).Waiting? && RoomOf(s, a) != Some(PcOf(s, r).room) && Next(s, a).Some?
    ensures PcOf(Next(s, a).value, r) == PcOf(s, r)
  {
    hide Delivered, Inv;
  }

  // -------------------------------------------------------------------------
  // The gap: a push between the empty drain and the registration is not announced.
  // -------------------------------------------------------------------------

  /** A blocking request, its empty drain, then a push, and only then the registration. */
  function Gap(r: nat, room: Name, msg: Message): seq<Action> {
    [Receive(r, room, true), Step(r), Push(room, msg), Step(r), Step(r)]
  }

  predicate AsleepOver(s: System, r: nat, room: Name, msg: Message) {
    && PcOf(s, r).Waiting? && PcOf(s, r).room == room && !PcOf(s, r).woken
    && room in s.rooms && s.rooms[room].Valid() && s.rooms[room].Pending() == [msg]
  }

  lemma DrainSteps(s: System, r: nat, room: Name)
    requires RoomsValid(s) && room in s.rooms && s.rooms[room].Pending() == []
    requires PcOf(s, r).Idle? || PcOf(s, r).Returned?
    ensures var s1 := Next(s, Receive(r, room, true));
            && s1.Some? && RoomsValid(s1.value)
            && var s2 := Next(s1.value, Step(r));
            && s2.Some? && s2.value.rooms == s.rooms
            && PcOf(s2.value, r) == FetchNotify(room, |s.rooms[room].messages|)
  {
  }

  lemma RegisterSteps(s: System, r: nat, room: Name, msg: Message)
    requires RoomsValid(s) && room in s.rooms && s.rooms[room].Pending() == [] && PcOf(s, r).FetchNotify?
    requires PcOf(s, r).room == room
    ensures var s1 := Next(s, Push(room, msg));
            && s1.Some? && RoomsValid(s1.value)
            && var s2 := Next(s1.value, Step(r));
            && s2.Some? && RoomsValid(s2.value)
            && var s3 := Next(s2.value, Step(r));
            && s3.Some? && RoomsValid(s3.value) && AsleepOver(s3.value, r, room, msg) && Next(s3.value, Step(r)).None?
  {
    var s1 := Next(s, Push(room, msg)).value;
    assert s1.rooms[room].Pending() == [msg];
    assert PcOf(s1, r) == PcOf(s, r);
  }

  /** From every reachable state in which a room has nothing pending and a reader no request, five
      steps lead to a reader asleep, not woken, with a message pending: the comment at
      daemon.rs:233-234 does not hold. */
  lemma AsleepFromEveryQuietState(names: set<Name>, actions: seq<Action>, r: nat, room: Name, msg: Message)
    requires Run(names, actions).Some? && room in Run(names, actions).value.rooms
    requires Run(names, actions).value.rooms[room].Pending() == []
    requires PcOf(Run(names, actions).value, r).Idle? || PcOf(Run(names, actions).value, r).Returned?
    ensures var s := Run(names, actions + Gap(r, room, msg));
            s.Some? && AsleepOver(s.value, r, room, msg) && Next(s.value, Step(r)).None?
  {
    hide Next, Run, AsleepOver;
    var gap := Gap(r, room, msg);
    var a1 := actions + [gap[0]];
    var a2 := a1 + [gap[1]];
    var a3 := a2 + [gap[2]];
    var a4 := a3 + [gap[3]];
    RunSnoc(names, actions, gap[0]);
    RunSnoc(names, a1, gap[1]);
    RunSnoc(names, a2, gap[2]);
    RunSnoc(names, a3, gap[3]);
    RunSnoc(names, a4, gap[4]);
    assert a4 + [gap[4]] == actions + gap;
    DrainSteps(Run(names, actions).value, r, room);
    RegisterSteps(Run(names, a2).value, r, room, msg);
  }

  /** So with one room and one reader. */
  lemma PendingWhileAsleep()
    ensures var s := Run({"room"}, Gap(7, "room", "hello"));
            s.Some? && AsleepOver(s.value, 7, "room", "hello") && Next(s.value, Step(7)).None?
  {
    assert Run({"room"}, []) == Some(Init({"room"}));
    AsleepFromEveryQuietState({"room"}, [], 7, "room", "hello");
    assert [] + Gap(7, "room", "hello") == Gap(7, "room", "hello");
  }
}
