/** The client side of the handshake (crates/interconnect-client/src/connection.rs): send Auth, wait
    for the manifest, then for the initial snapshot, skipping system messages. */
module Handshake {
  import opened Wrappers

  datatype ServerWire<+S> =
    | Manifest(manifest: string)
    | Snapshot(seqNo: nat, data: S)
    | Transfer(destination: string, passport: string)
    | Error(code: string, message: string)
    | System(text: string)
    | Pong

  /** What the transport hands over: a message, bytes that do not parse, or its own failure. */
  datatype Frame<+S> = Wire(wire: ServerWire<S>) | Malformed | Failure

  datatype ClientWire = Auth(identity: string, name: Option<string>, passport: Option<string>)

  datatype ConnectError<+S> =
    | TransportFailed
    | ClosedEarly
    | BadJson
    | ServerError(code: string, message: string)
    | Unexpected(got: ServerWire<S>)

  class Transport<S> {
    var inbox: seq<Frame<S>>       // what the server sends, in order; the stream closes after it
    var outbox: seq<ClientWire>
    const sends: bool              // whether sending works

    constructor (stream: seq<Frame<S>>, works: bool)
      ensures inbox == stream && outbox == [] && sends == works
    {
      inbox, outbox, sends := stream, [], works;
    }

    method Send(wire: ClientWire) returns (ok: bool)
      modifies this`outbox
      ensures ok == sends && outbox == old(outbox) + if sends then [wire] else []
    {
      if sends {
        outbox := outbox + [wire];
      }
      ok := sends;
    }

    method Recv() returns (frame: Option<Frame<S>>)
      modifies this`inbox
      ensures old(inbox) == [] ==> frame == None && inbox == []
      ensures old(inbox) != [] ==> frame == Some(old(inbox)[0]) && inbox == old(inbox)[1..]
    {
      if inbox == [] {
        return None;
      }
      frame, inbox := Some(inbox[0]), inbox[1..];
    }
  }

  // -------------------------------------------------------------------------
  // The two wait loops.
  // -------------------------------------------------------------------------

  datatype Waited<+A, +S> = Got(value: A, rest: seq<Frame<S>>) | Failed(error: ConnectError<S>, rest: seq<Frame<S>>)

  function AwaitManifest<S>(stream: seq<Frame<S>>): Waited<string, S> {
    if stream == [] then Failed(ClosedEarly, [])
    else match stream[0]
      case Failure => Failed(TransportFailed, stream[1..])
      case Malformed => Failed(BadJson, stream[1..])
      case Wire(w) => match w
        case Manifest(m) => Got(m, stream[1..])
        case System(_) => AwaitManifest(stream[1..])
        case Error(code, message) => Failed(ServerError(code, message), stream[1..])
        case _ => Failed(Unexpected(w), stream[1..])
  }

  function AwaitSnapshot<S>(stream: seq<Frame<S>>): Waited<S, S> {
    if stream == [] then Failed(ClosedEarly, [])
    else match stream[0]
      case Failure => Failed(TransportFailed, stream[1..])
      case Malformed => Failed(BadJson, stream[1..])
      case Wire(w) => match w
        case Snapshot(_, d) => Got(d, stream[1..])
        case System(_) => AwaitSnapshot(stream[1..])
        case Error(code, message) => Failed(ServerError(code, message), stream[1..])
        case _ => Failed(Unexpected(w), stream[1..])
  }

  datatype Outcome<+S> =
    | Connected(manifest: string, initial: S, rest: seq<Frame<S>>)
    | NotConnected(error: ConnectError<S>, rest: seq<Frame<S>>)

  /** What connecting to a stream gives, and the part of the stream it leaves. */
  function ConnectTo<S>(stream: seq<Frame<S>>): Outcome<S> {
    var m := AwaitManifest(stream);
    if m.Failed? then NotConnected(m.error, m.rest)
    else
      var d := AwaitSnapshot(m.rest);
      if d.Failed? then NotConnected(d.error, d.rest)
      else Connected(m.value, d.value, d.rest)
  }

  method Connect<S>(transport: Transport<S>, identity: string, name: Option<string>, passport: Option<string>)
    returns (result: Outcome<S>)
    modifies transport
    ensures result.rest == transport.inbox
    ensures transport.sends ==>
              result == ConnectTo(old(transport.inbox)) &&
              transport.outbox == old(transport.outbox) + [Auth(identity, name, passport)]
    ensures !transport.sends ==>
              result.NotConnected? && result.error == TransportFailed && transport.inbox == old(transport.inbox)
  {
    var ok := transport.Send(Auth(identity, name, passport));
    if !ok {
      return NotConnected(TransportFailed, transport.inbox);
    }
    var manifest: string;
    while true
      invariant transport.outbox == old(transport.outbox) + [Auth(identity, name, passport)]
      invariant AwaitManifest(old(transport.inbox)) == AwaitManifest(transport.inbox)
      decreases |transport.inbox|
    {
      var frame := transport.Recv();
      match frame {
        case None => return NotConnected(ClosedEarly, transport.inbox);
        case Some(Failure) => return NotConnected(TransportFailed, transport.inbox);
        case Some(Malformed) => return NotConnected(BadJson, transport.inbox);
        case Some(Wire(Manifest(m))) => manifest := m; break;
        case Some(Wire(System(_))) => continue;
        case Some(Wire(Error(code, message))) => return NotConnected(ServerError(code, message), transport.inbox);
        case Some(Wire(other)) => return NotConnected(Unexpected(other), transport.inbox);
      }
    }
    assert AwaitManifest(old(transport.inbox)) == Got(manifest, transport.inbox);
    ghost var after := transport.inbox;
    while true
      invariant transport.outbox == old(transport.outbox) + [Auth(identity, name, passport)]
      invariant AwaitSnapshot(after) == AwaitSnapshot(transport.inbox)
      decreases |transport.inbox|
    {
      var frame := transport.Recv();
      match frame {
        case None => return NotConnected(ClosedEarly, transport.inbox);
        case Some(Failure) => return NotConnected(TransportFailed, transport.inbox);
        case Some(Malformed) => return NotConnected(BadJson, transport.inbox);
        case Some(Wire(Snapshot(_, data))) => return Connected(manifest, data, transport.inbox);
        case Some(Wire(System(_))) => continue;
        case Some(Wire(Error(code, message))) => return NotConnected(ServerError(code, message), transport.inbox);
        case Some(Wire(other)) => return NotConnected(Unexpected(other), transport.inbox);
      }
    }
  }

  // -------------------------------------------------------------------------
  // recv, on a connection.
  // -------------------------------------------------------------------------

  datatype Received<+S> =
    | Closed
    | Message(wire: ServerWire<S>)
    | Lost(error: ConnectError<S>)

  function Read<S>(f: Frame<S>): Received<S> {
    match f
    case Wire(w) => Message(w)
    case Malformed => Lost(BadJson)
    case Failure => Lost(TransportFailed)
  }

  /** One recv: the next frame as a message or as the error it makes; Closed, again and again, at the
      end of the stream. */
  method Receive<S>(transport: Transport<S>) returns (r: Received<S>)
    modifies transport`inbox
    ensures old(transport.inbox) == [] ==> r == Closed && transport.inbox == []
    ensures old(transport.inbox) != [] ==>
              r == Read(old(transport.inbox)[0]) && transport.inbox == old(transport.inbox)[1..]
  {
    var frame := transport.Recv();
    match frame {
      case None => r := Closed;
      case Some(Wire(w)) => r := Message(w);
      case Some(Malformed) => r := Lost(BadJson);
      case Some(Failure) => r := Lost(TransportFailed);
    }
  }

  // -------------------------------------------------------------------------
  // The language of streams that connect.
  // -------------------------------------------------------------------------

  predicate IsSystem<S>(f: Frame<S>) {
    f.Wire? && f.wire.System?
  }

  predicate AllSystem<S>(frames: seq<Frame<S>>) {
    forall i :: 0 <= i < |frames| ==> IsSystem(frames[i])
  }

  /** System*, Manifest, System*, Snapshot, and the rest. */
  predicate Greets<S(==)>(stream: seq<Frame<S>>, sys1: seq<Frame<S>>, m: string, sys2: seq<Frame<S>>, k: nat, d: S,
                          rest: seq<Frame<S>>)
  {
    && AllSystem(sys1) && AllSystem(sys2)
    && stream == sys1 + ([Wire(Manifest(m))] + (sys2 + ([Wire(Snapshot(k, d))] + rest)))
  }

  lemma {:induction false} SkipSystem<S>(sys: seq<Frame<S>>, rest: seq<Frame<S>>)
    requires AllSystem(sys)
    ensures AwaitManifest(sys + rest) == AwaitManifest(rest)
    ensures AwaitSnapshot(sys + rest) == AwaitSnapshot(rest)
  {
    if sys == [] {
      assert sys + rest == rest;
    } else {
      assert (sys + rest)[1..] == sys[1..] + rest;
      assert IsSystem(sys[0]);
      SkipSystem(sys[1..], rest);
    }
  }

  lemma GreetingConnects<S>(stream: seq<Frame<S>>, sys1: seq<Frame<S>>, m: string, sys2: seq<Frame<S>>, k: nat, d: S,
                            rest: seq<Frame<S>>)
    requires Greets(stream, sys1, m, sys2, k, d, rest)
    ensures ConnectTo(stream) == Connected(m, d, rest)
  {
    var tail := sys2 + ([Wire(Snapshot(k, d))] + rest);
    SkipSystem(sys1, [Wire(Manifest(m))] + tail);
    assert ([Wire(Manifest(m))] + tail)[1..] == tail;
    SkipSystem(sys2, [Wire(Snapshot(k, d))] + rest);
    assert ([Wire(Snapshot(k, d))] + rest)[1..] == rest;
  }

  lemma {:induction false} ManifestFound<S>(stream: seq<Frame<S>>) returns (sys: seq<Frame<S>>)
    requires AwaitManifest(stream).Got?
    ensures AllSystem(sys)
    ensures stream == sys + ([Wire(Manifest(AwaitManifest(stream).value))] + AwaitManifest(stream).rest)
  {
    if IsSystem(stream[0]) {
      sys := ManifestFound(stream[1..]);
      sys := [stream[0]] + sys;
    } else {
      sys := [];
    }
  }

  lemma {:induction false} SnapshotFound<S>(stream: seq<Frame<S>>) returns (sys: seq<Frame<S>>, k: nat)
    requires AwaitSnapshot(stream).Got?
    ensures AllSystem(sys)
    ensures stream == sys + ([Wire(Snapshot(k, AwaitSnapshot(stream).value))] + AwaitSnapshot(stream).rest)
  {
    if IsSystem(stream[0]) {
      sys, k := SnapshotFound(stream[1..]);
      sys := [stream[0]] + sys;
    } else {
      sys, k := [], stream[0].wire.seqNo;
    }
  }

  /** `connect` succeeds exactly on the streams that greet, consumes only the greeting and leaves the
      rest, in order, to `recv`. */
  lemma ConnectsIffGreets<S>(stream: seq<Frame<S>>, m: string, d: S, rest: seq<Frame<S>>)
    ensures ConnectTo(stream) == Connected(m, d, rest) <==>
            exists sys1, sys2, k :: Greets(stream, sys1, m, sys2, k, d, rest)
  {
    if ConnectTo(stream) == Connected(m, d, rest) {
      var sys1 := ManifestFound(stream);
      var sys2, k := SnapshotFound(AwaitManifest(stream).rest);
      assert Greets(stream, sys1, m, sys2, k, d, rest);
    }
    forall sys1, sys2, k | Greets(stream, sys1, m, sys2, k, d, rest)
      ensures ConnectTo(stream) == Connected(m, d, rest)
    {
      GreetingConnects(stream, sys1, m, sys2, k, d, rest);
    }
  }

  function Refusal<S>(f: Frame<S>): ConnectError<S> {
    match f
    case Failure => TransportFailed
    case Malformed => BadJson
    case Wire(Error(code, message)) => ServerError(code, message)
    case Wire(w) => Unexpected(w)
  }

  /** On every other stream the first frame that does not fit, or the end, decides the error, and
      nothing after it is consumed. */
  lemma FirstMisfitDecides<S>(sys1: seq<Frame<S>>, m: string, sys2: seq<Frame<S>>, f: Frame<S>, rest: seq<Frame<S>>)
    requires AllSystem(sys1) && AllSystem(sys2) && !IsSystem(f)
    ensures !(f.Wire? && f.wire.Manifest?) ==> ConnectTo(sys1 + ([f] + rest)) == NotConnected(Refusal(f), rest)
    ensures !(f.Wire? && f.wire.Snapshot?) ==>
              ConnectTo(sys1 + ([Wire(Manifest(m))] + (sys2 + ([f] + rest)))) == NotConnected(Refusal(f), rest)
    ensures ConnectTo(sys1) == NotConnected(ClosedEarly, [])
    ensures ConnectTo(sys1 + ([Wire(Manifest(m))] + sys2)) == NotConnected(ClosedEarly, [])
  {
    var tail := sys2 + ([f] + rest);
    assert ([f] + rest)[1..] == rest;
    assert ([Wire(Manifest(m))] + tail)[1..] == tail;
    assert ([Wire(Manifest(m))] + sys2)[1..] == sys2;
    SkipSystem(sys1, [f] + rest);
    SkipSystem(sys1, [Wire(Manifest(m))] + tail);
    SkipSystem(sys2, [f] + rest);
    SkipSystem(sys1, [Wire(Manifest(m))] + sys2);
    SkipSystem(sys1, []);
    SkipSystem(sys2, []);
    assert sys1 + [] == sys1 && sys2 + [] == sys2;
  }

  /** Frames that arrive later do not change the outcome; they are left to `recv`. */
  lemma LaterFramesAreLeft<S>(stream: seq<Frame<S>>, later: seq<Frame<S>>)
    requires ConnectTo(stream).Connected?
    ensures var r := ConnectTo(stream); ConnectTo(stream + later) == Connected(r.manifest, r.initial, r.rest + later)
  {
    var r := ConnectTo(stream);
    var sys1 := ManifestFound(stream);
    var sys2, k := SnapshotFound(AwaitManifest(stream).rest);
    assert stream + later ==
           sys1 + ([Wire(Manifest(r.manifest))] + (sys2 + ([Wire(Snapshot(k, r.initial))] + (r.rest + later))));
    GreetingConnects(stream + later, sys1, r.manifest, sys2, k, r.initial, r.rest + later);
  }
}
