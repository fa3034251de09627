/** The IRC connector's line protocol (interconnect-connector-irc/src/transport.rs): what `send`
    prints, as a server relays it (section 2.3.1 of RFC 1459), and what `recv` reads. */
module Irc {
  import opened Wrappers
  import opened TextSplit
  import opened BoundedWindow

  // -------------------------------------------------------------------------
  // Reading.
  // -------------------------------------------------------------------------

  /** next_line: up to a newline, which is dropped with one carriage return before it; the rest. */
  function ReadLine(stream: string): (string, string) {
    var cut := SplitOnce(stream, '\n');
    if cut.None? then (stream, "")
    else
      var line := cut.value.0;
      (if line != "" && line[|line| - 1] == '\r' then line[..|line| - 1] else line, cut.value.1)
  }

  /** The part before the first c, the whole when there is none; the part after it. */
  function Head(s: string, c: char): string {
    if SplitOnce(s, c).None? then s else SplitOnce(s, c).value.0
  }

  function Tail(s: string, c: char): string {
    if SplitOnce(s, c).None? then "" else SplitOnce(s, c).value.1
  }

  /** splitn(2, " :") */
  function SplitTrailing(s: string): (string, string) {
    if s == "" then ("", "")
    else if |s| >= 2 && s[0] == ' ' && s[1] == ':' then ("", s[2..])
    else
      var r := SplitTrailing(s[1..]);
      ([s[0]] + r.0, r.1)
  }

  /** Unicode White_Space. */
  predicate IsSpace(c: char) {
    '\t' <= c <= '\r' || c == ' ' || c == '\U{85}' || c == '\U{A0}' || c == '\U{1680}' || '\U{2000}' <= c <= '\U{200A}'
    || c == '\U{2028}' || c == '\U{2029}' || c == '\U{202F}' || c == '\U{205F}' || c == '\U{3000}'
  }

  function Trim(s: string): string
    decreases |s|
  {
    if s != "" && IsSpace(s[0]) then Trim(s[1..])
    else if s != "" && IsSpace(s[|s| - 1]) then Trim(s[..|s| - 1])
    else s
  }

  function LowerChar(c: char): char {
    if 'A' <= c <= 'Z' then (c as int + 32) as char else c
  }

  predicate EqIgnoreCase(s: string, t: string) {
    |s| == |t| && forall i :: 0 <= i < |s| ==> LowerChar(s[i]) == LowerChar(t[i])
  }

  datatype Parsed = Ping(rest: string) | Skipped | Privmsg(nick: string, text: string)

  function ParseNick(prefix: string): string { Head(prefix, '!') }

  const PING: string := "PING "
  const PRIVMSG: string := "PRIVMSG"

  /** The part behind the prefix: only messages to the channel count. */
  function ParseCommand(nick: string, rest: string, channel: string): Parsed {
    if Head(rest, ' ') != PRIVMSG then Skipped
    else
      var params := SplitTrailing(Tail(rest, ' '));
      if !EqIgnoreCase(Trim(params.0), channel) then Skipped else Privmsg(nick, params.1)
  }

  /** What one line means to a connection to `channel`. */
  function ParseLine(raw: string, channel: string): Parsed {
    var line := TrimEnd(raw, '\r');
    if PING <= line then Ping(line[|PING|..])
    else if line != "" && line[0] == ':' then
      ParseCommand(ParseNick(Head(line[1..], ' ')), Tail(line[1..], ' '), channel)
    else ParseCommand("", line, channel)
  }

  // -------------------------------------------------------------------------
  // Printing.
  // -------------------------------------------------------------------------

  /** The line that `send` writes. */
  function MessageLine(channel: string, text: string): string {
    "PRIVMSG" + (" " + (channel + (" :" + text)))
  }

  /** The line as a server relays it, with the sender in front. */
  function Relayed(nick: string, user: string, host: string, line: string): string {
    ":" + ((nick + ("!" + (user + ("@" + host)))) + (" " + line))
  }

  // -------------------------------------------------------------------------
  // The round trip.
  // -------------------------------------------------------------------------

  lemma SplitHead(w: string, c: char, r: string)
    requires c !in w
    ensures Head(w + ([c] + r), c) == w && Tail(w + ([c] + r), c) == r
  {
    SplitOnceAt(w, c, r);
    assert w + ([c] + r) == w + [c] + r;
  }

  /** Nothing in it starts a trailing parameter. */
  predicate NoTrailer(s: string) {
    forall i :: 0 <= i < |s| - 1 ==> s[i] != ' ' || s[i + 1] != ':'
  }

  lemma {:induction false} SplitsAtTrailer(w: string, r: string)
    requires NoTrailer(w)
    ensures SplitTrailing(w + (" :" + r)) == (w, r)
  {
    var s := w + (" :" + r);
    if w == "" {
      assert s[2..] == r;
    } else {
      assert NoTrailer(w[1..]);
      SplitsAtTrailer(w[1..], r);
      assert s[1..] == w[1..] + (" :" + r);
      assert s[1] == if |w| > 1 then w[1] else ' ';
      assert [s[0]] + w[1..] == w;
    }
  }

  lemma {:induction false} SplitsNothing(w: string)
    requires NoTrailer(w)
    ensures SplitTrailing(w) == (w, "")
  {
    if w != "" {
      assert NoTrailer(w[1..]);
      SplitsNothing(w[1..]);
      assert [w[0]] + w[1..] == w;
    }
  }

  /** The 25 characters of Unicode White_Space. */
  const WHITE: string :=
    "\U{9}\U{A}\U{B}\U{C}\U{D}\U{20}\U{85}\U{A0}\U{1680}\U{2000}\U{2001}\U{2002}\U{2003}\U{2004}\U{2005}\U{2006}" +
    "\U{2007}\U{2008}\U{2009}\U{200A}\U{2028}\U{2029}\U{202F}\U{205F}\U{3000}"

  lemma WhiteSpaceIs(c: char)
    ensures IsSpace(c) <==> c in WHITE
  {
  }

  predicate NoSpaces(s: string) {
    forall i :: 0 <= i < |s| ==> !IsSpace(s[i])
  }

  /** ASCII letters that differ in case only, or the same character. */
  predicate SameLetter(c: char, d: char) {
    c == d || ('a' <= c <= 'z' && c as int == d as int + 32) || ('a' <= d <= 'z' && d as int == c as int + 32)
  }

  predicate SameChannel(s: string, t: string) {
    |s| == |t| && forall i :: 0 <= i < |s| ==> SameLetter(s[i], t[i])
  }

  /** Channels are compared letter by letter, the case of ASCII letters aside. */
  lemma ComparesLetters(s: string, t: string)
    ensures EqIgnoreCase(s, t) <==> SameChannel(s, t)
  {
    if SameChannel(s, t) {
      forall i | 0 <= i < |s| ensures LowerChar(s[i]) == LowerChar(t[i]) {
        assert SameLetter(s[i], t[i]);
        LowersAlike(s[i], t[i]);
      }
    }
    if EqIgnoreCase(s, t) {
      forall i | 0 <= i < |s| ensures SameLetter(s[i], t[i]) {
        LowersAlike(s[i], t[i]);
      }
    }
  }

  lemma LowersAlike(c: char, d: char)
    ensures LowerChar(c) == LowerChar(d) <==> SameLetter(c, d)
  {
  }

  /** A message command, to this channel or to another one. */
  lemma ParsePrivmsg(nick: string, target: string, text: string, channel: string)
    requires NoSpaces(target)
    ensures ParseCommand(nick, MessageLine(target, text), channel) ==
            if SameChannel(target, channel) then Privmsg(nick, text) else Skipped
  {
    hide Head, Tail, SplitTrailing, Trim, EqIgnoreCase, SameChannel;
    SplitHead("PRIVMSG", ' ', target + (" :" + text));
    SplitsAtTrailer(target, text);
    TrimNothing(target);
    ComparesLetters(target, channel);
  }

  /** Any other command is skipped. */
  lemma ParseOther(nick: string, word: string, params: Option<string>, channel: string)
    requires ' ' !in word && word != "PRIVMSG"
    ensures ParseCommand(nick, if params.Some? then word + (" " + params.value) else word, channel) == Skipped
  {
    if params.Some? {
      SplitHead(word, ' ', params.value);
    } else {
      HeadOfAll(word, ' ');
    }
  }

  lemma {:induction false} HeadOfAll(w: string, c: char)
    requires c !in w
    ensures Head(w, c) == w && Tail(w, c) == ""
  {
    if w != "" {
      HeadOfAll(w[1..], c);
    }
  }

  lemma {:induction false} TrimTakesWhite(a: string, w: string, b: string)
    requires forall i :: 0 <= i < |a| ==> IsSpace(a[i])
    requires forall i :: 0 <= i < |b| ==> IsSpace(b[i])
    requires w == "" || (!IsSpace(w[0]) && !IsSpace(w[|w| - 1]))
    ensures Trim(a + w + b) == w
    decreases |a|, |b|
  {
    hide IsSpace;
    var s := a + w + b;
    if a != "" {
      assert s[1..] == a[1..] + w + b;
      TrimTakesWhite(a[1..], w, b);
    } else if w == "" && b != "" {
      assert s[1..] == "" + w + b[1..];
      TrimTakesWhite("", w, b[1..]);
    } else if b != "" {
      assert s[..|s| - 1] == a + w + b[..|b| - 1];
      TrimTakesWhite(a, w, b[..|b| - 1]);
    } else {
      assert s == w;
    }
  }

  /** White space around the target does not matter; a message without text has an empty one. */
  lemma PaddedTarget(nick: string, a: string, target: string, b: string, text: string, channel: string)
    requires (forall i :: 0 <= i < |a| ==> a[i] in WHITE) && (forall i :: 0 <= i < |b| ==> b[i] in WHITE)
    requires target == "" || (target[0] !in WHITE && target[|target| - 1] !in WHITE)
    requires NoTrailer(a + target + b)
    ensures ParseCommand(nick, "PRIVMSG" + (" " + ((a + target + b) + (" :" + text))), channel) ==
            if SameChannel(target, channel) then Privmsg(nick, text) else Skipped
    ensures ParseCommand(nick, "PRIVMSG" + (" " + (a + target + b)), channel) ==
            if SameChannel(target, channel) then Privmsg(nick, "") else Skipped
  {
    hide Head, Tail, SplitTrailing, Trim, EqIgnoreCase, SameChannel, IsSpace;
    forall c: char ensures IsSpace(c) <==> c in WHITE {
      WhiteSpaceIs(c);
    }
    var params := a + target + b;
    SplitHead("PRIVMSG", ' ', params + (" :" + text));
    SplitHead("PRIVMSG", ' ', params);
    SplitsAtTrailer(params, text);
    SplitsNothing(params);
    TrimTakesWhite(a, target, b);
    ComparesLetters(target, channel);
  }

  /** A message without parameters counts only where the channel has no name. */
  lemma NoParameters(nick: string, channel: string)
    ensures ParseCommand(nick, "PRIVMSG", channel) == if channel == "" then Privmsg(nick, "") else Skipped
  {
    HeadOfAll("PRIVMSG", ' ');
  }

  /** A line with a prefix: the nick is the prefix up to a `!`, or all of it. */
  lemma ParsePrefixed(nick: string, address: Option<string>, rest: string, raw: string, channel: string)
    requires ' ' !in nick && '!' !in nick && (address.Some? ==> ' ' !in address.value)
    requires TrimEnd(raw, '\r') == ":" + ((if address.Some? then nick + ("!" + address.value) else nick) + (" " + rest))
    ensures ParseLine(raw, channel) == ParseCommand(nick, rest, channel)
  {
    hide Head, Tail, TrimEnd, ParseCommand;
    var sender := if address.Some? then nick + ("!" + address.value) else nick;
    var line := TrimEnd(raw, '\r');
    assert line[0] == ':' && PING[0] == 'P';
    assert line[1..] == sender + ([' '] + rest);
    SplitHead(sender, ' ', rest);
    if address.Some? {
      SplitHead(nick, '!', address.value);
    } else {
      HeadOfAll(nick, '!');
    }
  }

  /** A relayed message is read with the sender's nick and the text up to its final carriage returns,
      if it is for this channel, and skipped otherwise. */
  lemma ParseMessage(nick: string, user: string, host: string, target: string, text: string, channel: string)
    requires ' ' !in nick && '!' !in nick && ' ' !in user && ' ' !in host && NoSpaces(target)
    ensures ParseLine(Relayed(nick, user, host, MessageLine(target, text)), channel) ==
            if SameChannel(target, channel) then Privmsg(nick, TrimEnd(text, '\r')) else Skipped
  {
    hide ParseLine, ParseCommand, TrimEnd, SameChannel;
    var kept := TrimEnd(text, '\r');
    var raw := Relayed(nick, user, host, MessageLine(target, text));
    TrimRelayed(nick, user, host, target, text);
    ParsePrefixed(nick, Some(user + ("@" + host)), MessageLine(target, kept), raw, channel);
    ParsePrivmsg(nick, target, kept, channel);
  }

  lemma SameAsItself(channel: string)
    ensures SameChannel(channel, channel)
  {
  }

  /** A message without a prefix is read with an empty nick. */
  lemma ParseBareMessage(target: string, text: string, channel: string)
    requires NoSpaces(target)
    ensures ParseLine(MessageLine(target, text), channel) ==
            if SameChannel(target, channel) then Privmsg("", TrimEnd(text, '\r')) else Skipped
  {
    hide ParseCommand, TrimEnd, SameChannel;
    var front := "PRIVMSG" + (" " + (target + " :"));
    var kept := TrimEnd(text, '\r');
    assert MessageLine(target, text) == front + text && MessageLine(target, kept) == front + kept;
    TrimEndBehind(front, text, '\r');
    assert !(PING <= front + kept) by { assert (front + kept)[1] == 'R' && PING[1] == 'I'; }
    ParsePrivmsg("", target, TrimEnd(text, '\r'), channel);
  }

  lemma TrimRelayed(nick: string, user: string, host: string, channel: string, text: string)
    ensures TrimEnd(Relayed(nick, user, host, MessageLine(channel, text)), '\r') ==
            Relayed(nick, user, host, MessageLine(channel, TrimEnd(text, '\r')))
  {
    hide TrimEnd;
    var kept := TrimEnd(text, '\r');
    var front := ":" + ((nick + ("!" + (user + ("@" + host)))) + (" " + ("PRIVMSG" + (" " + (channel + " :")))));
    assert Relayed(nick, user, host, MessageLine(channel, text)) == front + text;
    assert Relayed(nick, user, host, MessageLine(channel, kept)) == front + kept;
    TrimEndBehind(front, text, '\r');
  }

  lemma TrimNothing(s: string)
    requires NoSpaces(s)
    ensures Trim(s) == s
  {
  }

  /** A message relayed on the stream is read back with the same nick and text, for this channel, if
      and only if the text has no newline and does not end in a carriage return. */
  lemma MessageComesBack(nick: string, user: string, host: string, channel: string, text: string, later: string)
    requires ' ' !in nick && '!' !in nick && ' ' !in user && ' ' !in host && NoSpaces(channel)
    requires '\n' !in nick && '\n' !in user && '\n' !in host
    ensures var stream := Relayed(nick, user, host, MessageLine(channel, text)) + ("\r\n" + later);
            ParseLine(ReadLine(stream).0, channel) == Privmsg(nick, text)
            <==> '\n' !in text && (text == "" || text[|text| - 1] != '\r')
  {
    hide ParseLine, TrimEnd, SplitOnce;
    var line := Relayed(nick, user, host, MessageLine(channel, text));
    TrimEndKeeps(text, '\r');
    if '\n' !in text {
      assert '\n' !in line;
      assert line + ("\r\n" + later) == (line + "\r") + ['\n'] + later;
      SplitOnceAt(line + "\r", '\n', later);
      assert (line + "\r")[..|line|] == line;
      ParseMessage(nick, user, host, channel, text, channel);
      SameAsItself(channel);
    } else {
      CutMessage(nick, user, host, channel, text, later);
    }
  }

  /** A text with a newline is cut there: a shorter text is read. */
  lemma CutMessage(nick: string, user: string, host: string, channel: string, text: string, later: string)
    requires ' ' !in nick && '!' !in nick && ' ' !in user && ' ' !in host && NoSpaces(channel)
    requires '\n' !in nick && '\n' !in user && '\n' !in host && '\n' in text
    ensures var stream := Relayed(nick, user, host, MessageLine(channel, text)) + ("\r\n" + later);
            ParseLine(ReadLine(stream).0, channel) != Privmsg(nick, text)
  {
    hide ParseLine, TrimEnd, ReadLine;
    var k := FirstNewline(text);
    var before, after := text[..k], text[k + 1..];
    assert text == before + ['\n'] + after;
    var stream := Relayed(nick, user, host, MessageLine(channel, text)) + ("\r\n" + later);
    assert stream == Relayed(nick, user, host, MessageLine(channel, before)) + ['\n'] + (after + ("\r\n" + later));
    var short := ReadCut(nick, user, host, channel, before, after + ("\r\n" + later));
    ParseMessage(nick, user, host, channel, short, channel);
    SameAsItself(channel);
    TrimEndKeeps(short, '\r');
  }

  lemma ReadCut(nick: string, user: string, host: string, channel: string, before: string, later: string)
    returns (short: string)
    requires '\n' !in nick && '\n' !in user && '\n' !in host && NoSpaces(channel) && '\n' !in before
    ensures |short| <= |before|
    ensures ReadLine(Relayed(nick, user, host, MessageLine(channel, before)) + ['\n'] + later).0
         == Relayed(nick, user, host, MessageLine(channel, short))
  {
    hide SplitOnce;
    var line := Relayed(nick, user, host, MessageLine(channel, before));
    assert '\n' !in line;
    SplitOnceAt(line, '\n', later);
    short := before;
    if before != "" && before[|before| - 1] == '\r' {
      short := before[..|before| - 1];
      assert line[..|line| - 1] == Relayed(nick, user, host, MessageLine(channel, short));
    } else {
      assert line[|line| - 1] == if before == "" then ':' else before[|before| - 1];
    }
  }

  lemma FirstNewline(text: string) returns (k: nat)
    requires '\n' in text
    ensures k < |text| && text[k] == '\n' && '\n' !in text[..k]
  {
    k := 0;
    while text[k] != '\n'
      invariant k < |text| && '\n' !in text[..k]
      decreases |text| - k
    {
      k := k + 1;
    }
  }

  // -------------------------------------------------------------------------
  // The receive loop.
  // -------------------------------------------------------------------------

  const MAX_MESSAGES: nat := 50

  datatype Message = Message(nick: string, text: string, timestamp: nat)

  datatype Snapshot = Snapshot(seqNo: nat, messages: seq<Message>)

  /** The text still to read and whether an error or the end of the stream follows it, what is
      written and how many more writes succeed, the window and the snapshot counter. */
  datatype State = State(input: string, broken: bool, output: string, writes: nat, messages: seq<Message>, seqNo: nat)

  /** The result of one call. */
  datatype Received = Got(snapshot: Snapshot) | Closed | Failed

  function Pong(token: string): string { "PONG " + (token + "\r\n") }

  lemma ReadLineShortens(stream: string)
    requires stream != ""
    ensures |ReadLine(stream).1| < |stream|
  {
    SplitOnceShortens(stream, '\n');
  }

  lemma {:induction false} SplitOnceShortens(s: string, c: char)
    ensures SplitOnce(s, c).Some? ==> |SplitOnce(s, c).value.0| + 1 + |SplitOnce(s, c).value.1| == |s|
  {
    if s != "" && s[0] != c {
      SplitOnceShortens(s[1..], c);
    }
  }

  /** One call: answer pings and skip lines up to the next message, to the end of the stream or to
      the first failure.  A line that the stream breaks off is not read. */
  function Receive(st: State, channel: string, now: nat): (r: (State, Received))
    ensures !r.1.Got? ==> r.0.messages == st.messages && r.0.seqNo == st.seqNo
    ensures r.1.Closed? ==> r.0.input == "" && !st.broken
    ensures r.1.Got? ==> |r.0.input| < |st.input|
    decreases |st.input|
  {
    if st.broken && '\n' !in st.input then (st.(input := ""), Failed)
    else if st.input == "" then (st, Closed)
    else
      ReadLineShortens(st.input);
      var (line, rest) := ReadLine(st.input);
      var next := st.(input := rest);
      match ParseLine(line, channel)
      case Ping(token) =>
        if st.writes == 0 then (next, Failed)
        else Receive(next.(output := st.output + Pong(token), writes := st.writes - 1), channel, now)
      case Skipped => Receive(next, channel, now)
      case Privmsg(nick, text) =>
        var messages := PushBounded(MAX_MESSAGES, st.messages, Message(nick, text, now));
        (next.(messages := messages, seqNo := st.seqNo + 1), Got(Snapshot(st.seqNo, messages)))
  }

  class IrcTransport {
    const channel: string
    const broken: bool
    var input: string
    var output: string
    var writes: nat
    var messages: seq<Message>
    var seqNo: nat

    constructor (channel: string, input: string, broken: bool, writes: nat)
      ensures this.channel == channel && Abstract() == State(input, broken, "", writes, [], 0)
    {
      this.channel := channel;
      this.input, this.broken, output, this.writes, messages, seqNo := input, broken, "", writes, [], 0;
    }

    ghost function Abstract(): State
      reads this
    {
      State(input, broken, output, writes, messages, seqNo)
    }

    method PushMessage(m: Message)
      modifies this`messages
      ensures messages == PushBounded(MAX_MESSAGES, old(messages), m)
    {
      messages := messages + [m];
      if |messages| > MAX_MESSAGES {
        messages := messages[1..];
      }
    }

    /** send_raw; not ok when the write fails. */
    method SendRaw(line: string) returns (ok: bool)
      modifies this`output, this`writes
      ensures ok == (old(writes) > 0)
      ensures ok ==> output == old(output) + (line + "\r\n") && writes == old(writes) - 1
      ensures !ok ==> output == old(output) && writes == old(writes)
    {
      ok := writes > 0;
      if ok {
        output, writes := output + (line + "\r\n"), writes - 1;
      }
    }

    /** send: one message to the channel. */
    method Send(text: string) returns (ok: bool)
      modifies this`output, this`writes
      ensures ok == (old(writes) > 0)
      ensures ok ==> output == old(output) + ("PRIVMSG " + channel + " :" + text + "\r\n") && writes == old(writes) - 1
      ensures !ok ==> output == old(output) && writes == old(writes)
    {
      ok := SendRaw(MessageLine(channel, text));
      assert MessageLine(channel, text) + "\r\n" == "PRIVMSG " + channel + " :" + text + "\r\n";
    }

    method Recv(now: nat) returns (r: Received)
      modifies this
      ensures (Abstract(), r) == Receive(old(Abstract()), channel, now)
    {
      hide ReadLine, ParseLine, PushBounded;
      while true
        invariant Receive(Abstract(), channel, now) == Receive(old(Abstract()), channel, now)
        decreases |input|
      {
        if broken && '\n' !in input {
          input := "";
          return Failed;
        }
        if input == "" {
          return Closed;
        }
        ReadLineShortens(input);
        var (raw, rest) := ReadLine(input);
        input := rest;
        var parsed := ParseLine(raw, channel);
        if parsed.Ping? {
          var ok := SendRaw("PONG " + parsed.rest);
          if !ok {
            return Failed;
          }
          assert "PONG " + parsed.rest + "\r\n" == Pong(parsed.rest);
          continue;
        }
        if parsed.Skipped? {
          continue;
        }
        PushMessage(Message(parsed.nick, parsed.text, now));
        r := Got(Snapshot(seqNo, messages));
        seqNo := seqNo + 1;
        return;
      }
    }
  }

  /** Calls until one gives no snapshot, and what that one gives; `clock(k)` is the time when message
      k is read. */
  function ReceiveAll(st: State, channel: string, clock: nat -> nat): (State, seq<Snapshot>, Received)
    decreases |st.input|
  {
    var (next, r) := Receive(st, channel, clock(st.seqNo));
    if !r.Got? then (next, [], r)
    else
      var (end, later, last) := ReceiveAll(next, channel, clock);
      (end, [r.snapshot] + later, last)
  }

  // -------------------------------------------------------------------------
  // A whole conversation.
  // -------------------------------------------------------------------------

  /** What the server sends: a relayed message to this channel or to another, a ping, or another
      command, with or without a prefix. */
  datatype Event =
    | Said(nick: string, user: string, host: string, target: string, text: string)
    | Pinged(token: string)
    | Other(sender: Option<string>, word: string, params: Option<string>)

  function CommandText(word: string, params: Option<string>): string {
    if params.Some? then word + (" " + params.value) else word
  }

  function Line(e: Event): string {
    match e
    case Said(nick, user, host, target, text) => Relayed(nick, user, host, MessageLine(target, text))
    case Pinged(token) => "PING " + token
    case Other(sender, word, params) =>
      if sender.Some? then ":" + (sender.value + (" " + CommandText(word, params))) else CommandText(word, params)
  }

  predicate OneLine(s: string) {
    '\n' !in s && (s == "" || s[|s| - 1] != '\r')
  }

  predicate WellFormed(e: Event) {
    match e
    case Said(nick, user, host, target, text) =>
      && ' ' !in nick && '!' !in nick && '\n' !in nick && ' ' !in user && '\n' !in user
      && ' ' !in host && '\n' !in host && NoSpaces(target) && OneLine(text)
    case Pinged(token) => OneLine(token)
    case Other(sender, word, params) =>
      && ' ' !in word && word != "PRIVMSG" && OneLine(Line(e))
      && (sender.Some? ==> ' ' !in sender.value && '!' !in sender.value)
      && (sender.None? ==> word != "PING" && (word == "" || word[0] != ':'))
  }

  /** Events that are messages to a connection to the channel. */
  predicate Heard(e: Event, channel: string) {
    e.Said? && SameChannel(e.target, channel)
  }

  function Wire(events: seq<Event>): string {
    if events == [] then "" else Line(events[0]) + ("\r\n" + Wire(events[1..]))
  }

  /** What is said to the channel, from message number `first` on. */
  function Messages(events: seq<Event>, channel: string, first: nat, clock: nat -> nat): seq<Message> {
    if events == [] then []
    else if Heard(events[0], channel) then
      [Message(events[0].nick, events[0].text, clock(first))] + Messages(events[1..], channel, first + 1, clock)
    else Messages(events[1..], channel, first, clock)
  }

  /** The answers to the pings. */
  function Pongs(events: seq<Event>): string {
    if events == [] then ""
    else if events[0].Pinged? then ("PONG " + (events[0].token + "\r\n")) + Pongs(events[1..])
    else Pongs(events[1..])
  }

  function Pings(events: seq<Event>): nat {
    if events == [] then 0 else (if events[0].Pinged? then 1 else 0) + Pings(events[1..])
  }

  /** The events up to the first ping whose answer cannot be written. */
  function Served(events: seq<Event>, writes: nat): seq<Event> {
    if events == [] || (events[0].Pinged? && writes == 0) then []
    else [events[0]] + Served(events[1..], if events[0].Pinged? then writes - 1 else writes)
  }

  /** The events behind that ping. */
  function Unread(events: seq<Event>, writes: nat): seq<Event> {
    if events == [] then []
    else if events[0].Pinged? && writes == 0 then events[1..]
    else Unread(events[1..], if events[0].Pinged? then writes - 1 else writes)
  }

  /** With a write for every ping all events are served; otherwise the one behind them is a ping. */
  lemma {:induction false} ServedIsPrefix(events: seq<Event>, writes: nat)
    ensures Pings(Served(events, writes)) <= writes
    ensures if Pings(events) <= writes then Served(events, writes) == events && Unread(events, writes) == []
            else exists e: Event :: e.Pinged? && events == Served(events, writes) + ([e] + Unread(events, writes))
  {
    if events != [] && !(events[0].Pinged? && writes == 0) {
      var left := if events[0].Pinged? then writes - 1 else writes;
      var done := Served(events[1..], left);
      ServedIsPrefix(events[1..], left);
      assert ([events[0]] + done)[1..] == done;
      assert events == [events[0]] + events[1..];
      if Pings(events) > writes {
        var e: Event :| e.Pinged? && events[1..] == done + ([e] + Unread(events[1..], left));
        assert events == Served(events, writes) + ([e] + Unread(events, writes));
      }
    } else if events != [] {
      assert events == Served(events, writes) + ([events[0]] + Unread(events, writes));
    }
  }

  /** A well-formed event is read as what it is. */
  lemma ReadEvent(e: Event, channel: string, later: string)
    requires WellFormed(e)
    ensures ReadLine(Line(e) + ("\r\n" + later)) == (Line(e), later)
    ensures ParseLine(Line(e), channel) ==
            if Heard(e, channel) then Privmsg(e.nick, e.text) else if e.Pinged? then Ping(e.token) else Skipped
  {
    EventLine(e, later);
    EventMeaning(e, channel);
  }

  lemma EventLine(e: Event, later: string)
    requires WellFormed(e)
    ensures ReadLine(Line(e) + ("\r\n" + later)) == (Line(e), later)
  {
    EventIsOneLine(e);
    hide SplitOnce, Line, WellFormed;
    var line := Line(e);
    assert line + ("\r\n" + later) == (line + "\r") + ['\n'] + later;
    SplitOnceAt(line + "\r", '\n', later);
    assert (line + "\r")[..|line|] == line;
  }

  lemma EventIsOneLine(e: Event)
    requires WellFormed(e)
    ensures '\n' !in Line(e)
  {
    if e.Said? {
      assert '\n' !in e.target by { SpacesHaveNewline(e.target); }
      assert '\n' !in MessageLine(e.target, e.text);
    } else if e.Pinged? {
      assert '\n' !in "PING ";
    }
  }

  lemma SpacesHaveNewline(s: string)
    requires NoSpaces(s)
    ensures '\n' !in s
  {
    assert IsSpace('\n');
  }

  lemma EventMeaning(e: Event, channel: string)
    requires WellFormed(e)
    ensures ParseLine(Line(e), channel) ==
            if Heard(e, channel) then Privmsg(e.nick, e.text) else if e.Pinged? then Ping(e.token) else Skipped
  {
    hide ParseLine, TrimEnd, SameChannel;
    match e {
      case Said(nick, user, host, target, text) =>
        ParseMessage(nick, user, host, target, text, channel);
        TrimEndKeeps(text, '\r');
      case Pinged(token) => ParsePing(token, channel);
      case Other(sender, word, params) => ParseOtherLine(sender, word, params, channel);
    }
  }

  lemma ParseOtherLine(sender: Option<string>, word: string, params: Option<string>, channel: string)
    requires WellFormed(Other(sender, word, params))
    ensures ParseLine(Line(Other(sender, word, params)), channel) == Skipped
  {
    var line := Line(Other(sender, word, params));
    TrimEndKeeps(line, '\r');
    ParseOther(if sender.Some? then sender.value else "", word, params, channel);
    if sender.Some? {
      hide ParseLine, ParseCommand, TrimEnd;
      ParsePrefixed(sender.value, None, CommandText(word, params), line, channel);
    } else {
      hide ParseCommand, TrimEnd;
      assert !(PING <= line) by {
        if PING <= line {
          PingWord(word, params);
        }
      }
    }
  }

  lemma PingWord(word: string, params: Option<string>)
    requires ' ' !in word && PING <= CommandText(word, params)
    ensures word == "PING"
  {
    var line := CommandText(word, params);
    assert line[..5] == PING && PING[..4] == "PING";
    assert line[4] == ' ' && forall i :: 0 <= i < 4 ==> line[i] == PING[i] && line[i] != ' ';
    assert params.Some? && |word| == 4 by {
      assert forall i :: 0 <= i < |word| ==> line[i] == word[i];
      assert params.Some? ==> line[|word|] == ' ';
    }
    assert word == line[..4];
  }

  lemma ParsePing(token: string, channel: string)
    requires OneLine(token)
    ensures ParseLine("PING " + token, channel) == Ping(token)
  {
    TrimEndKeeps(PING + token, '\r');
    assert (PING + token)[|PING|..] == token;
  }

  /** The calls leave this state and gave these snapshots: one for each message, numbered without
      gaps, each of the last 50 messages up to it. */
  predicate ReadThrough(st: State, said: seq<Message>, pongs: string, pings: nat, left: string, end: State,
                        snapshots: seq<Snapshot>)
  {
    && pings <= st.writes
    && end == State(left, st.broken, st.output + pongs, st.writes - pings,
                    Last(50, st.messages + said), st.seqNo + |said|)
    && |snapshots| == |said|
    && forall k :: 0 <= k < |said| ==>
         snapshots[k] == Snapshot(st.seqNo + k, Last(50, st.messages + said[..k + 1]))
  }

  /** What reading these events in this state comes to: everything up to the end or to the first ping
      that cannot be answered; then a call fails if it stopped at a ping or the stream is broken, and
      otherwise reports the end. */
  predicate ReadsEvents(st: State, events: seq<Event>, channel: string, clock: nat -> nat) {
    var done := Served(events, st.writes);
    var (end, snapshots, last) := ReceiveAll(st, channel, clock);
    && ReadThrough(st, Messages(done, channel, st.seqNo, clock), Pongs(done), Pings(done),
                   Wire(Unread(events, st.writes)), end, snapshots)
    && last == if st.broken || Pings(events) > st.writes then Failed else Closed
  }

  /** Reading a conversation gives one snapshot for each message of the channel, in order; every ping
      is answered, in order, and nothing else is written. */
  lemma {:induction false} Conversation(st: State, events: seq<Event>, channel: string, clock: nat -> nat)
    requires st.input == Wire(events) && |st.messages| <= MAX_MESSAGES
    requires forall i :: 0 <= i < |events| ==> WellFormed(events[i])
    ensures ReadsEvents(st, events, channel, clock)
    decreases |events|
  {
    hide ReadsEvents, Line, WellFormed, PushBounded, Pong;
    if events == [] {
      NothingLeft(st, channel, clock);
    } else {
      var e := events[0];
      var rest := st.(input := Wire(events[1..]));
      if Heard(e, channel) {
        var m := Message(e.nick, e.text, clock(st.seqNo));
        var next := rest.(messages := PushBounded(MAX_MESSAGES, st.messages, m), seqNo := st.seqNo + 1);
        PushStaysBounded(st.messages, m);
        Conversation(next, events[1..], channel, clock);
        ReadsSaid(st, events, next, channel, clock);
      } else if e.Pinged? && st.writes == 0 {
        ReadsLastPing(st, events, channel, clock);
      } else if e.Pinged? {
        var next := rest.(output := st.output + Pong(e.token), writes := st.writes - 1);
        Conversation(next, events[1..], channel, clock);
        ReadsPing(st, events, next, channel, clock);
      } else {
        Conversation(rest, events[1..], channel, clock);
        ReadsOther(st, events, rest, channel, clock);
      }
    }
  }

  lemma ReadsSaid(st: State, events: seq<Event>, next: State, channel: string, clock: nat -> nat)
    requires events != [] && Heard(events[0], channel) && WellFormed(events[0])
    requires st.input == Wire(events) && |st.messages| <= MAX_MESSAGES
    requires var m := Message(events[0].nick, events[0].text, clock(st.seqNo));
             next == st.(input := Wire(events[1..]), messages := PushBounded(MAX_MESSAGES, st.messages, m),
                         seqNo := st.seqNo + 1)
    requires ReadsEvents(next, events[1..], channel, clock)
    ensures ReadsEvents(st, events, channel, clock)
  {
    hide Line, WellFormed, ReadThrough, PushBounded, ReceiveAll;
    var e := events[0];
    ReceiveEvent(st, e, events[1..], channel, clock);
    ServedFirst(events, channel, st.writes, st.seqNo, clock);
    hide Wire, Served, Unread, Messages, Pongs, Pings;
    var done := Served(events[1..], st.writes);
    var (end, later, _) := ReceiveAll(next, channel, clock);
    MessageFirst(st, next, Message(e.nick, e.text, clock(st.seqNo)), Messages(done, channel, next.seqNo, clock),
                 Pongs(done), Pings(done), Wire(Unread(events[1..], st.writes)), end, later);
    assert "" + Pongs(done) == Pongs(done);
  }

  lemma ReadsPing(st: State, events: seq<Event>, next: State, channel: string, clock: nat -> nat)
    requires events != [] && events[0].Pinged? && WellFormed(events[0])
    requires st.input == Wire(events) && st.writes > 0
    requires next == st.(input := Wire(events[1..]), output := st.output + Pong(events[0].token),
                         writes := st.writes - 1)
    requires ReadsEvents(next, events[1..], channel, clock)
    ensures ReadsEvents(st, events, channel, clock)
  {
    hide Line, WellFormed, ReadThrough, Pong, ReceiveAll;
    ReceiveEvent(st, events[0], events[1..], channel, clock);
    ServedFirst(events, channel, st.writes, st.seqNo, clock);
    hide Wire, Served, Unread, Messages, Pongs, Pings;
    var done := Served(events[1..], next.writes);
    var (end, later, _) := ReceiveAll(next, channel, clock);
    EventFirst(st, next, Pong(events[0].token), 1, Messages(done, channel, st.seqNo, clock), Pongs(done), Pings(done),
               Wire(Unread(events[1..], next.writes)), end, later);
  }

  lemma ReadsOther(st: State, events: seq<Event>, next: State, channel: string, clock: nat -> nat)
    requires events != [] && !Heard(events[0], channel) && !events[0].Pinged? && WellFormed(events[0])
    requires st.input == Wire(events) && next == st.(input := Wire(events[1..]))
    requires ReadsEvents(next, events[1..], channel, clock)
    ensures ReadsEvents(st, events, channel, clock)
  {
    hide Line, WellFormed, ReadThrough, Pong, ReceiveAll;
    ReceiveEvent(st, events[0], events[1..], channel, clock);
    ServedFirst(events, channel, st.writes, st.seqNo, clock);
    hide Wire, Served, Unread, Messages, Pongs, Pings;
    var done := Served(events[1..], st.writes);
    var (end, later, _) := ReceiveAll(next, channel, clock);
    assert st.output + "" == st.output;
    EventFirst(st, next, "", 0, Messages(done, channel, st.seqNo, clock), Pongs(done), Pings(done),
               Wire(Unread(events[1..], st.writes)), end, later);
  }

  lemma ReadsLastPing(st: State, events: seq<Event>, channel: string, clock: nat -> nat)
    requires events != [] && events[0].Pinged? && WellFormed(events[0])
    requires st.input == Wire(events) && st.writes == 0 && |st.messages| <= MAX_MESSAGES
    ensures ReadsEvents(st, events, channel, clock)
  {
    hide Line, WellFormed, ReadThrough, ReceiveAll;
    ReceiveEvent(st, events[0], events[1..], channel, clock);
    Stopped(st, st.(input := Wire(events[1..])));
  }

  lemma ServedFirst(events: seq<Event>, channel: string, writes: nat, first: nat, clock: nat -> nat)
    requires events != [] && !(events[0].Pinged? && writes == 0)
    ensures var e := events[0];
            var left := if e.Pinged? then writes - 1 else writes;
            var done := Served(events[1..], left);
            && Unread(events, writes) == Unread(events[1..], left)
            && Pings(events) == (if e.Pinged? then 1 else 0) + Pings(events[1..])
            && Pings(Served(events, writes)) == (if e.Pinged? then 1 else 0) + Pings(done)
            && Pongs(Served(events, writes)) == (if e.Pinged? then Pong(e.token) else "") + Pongs(done)
            && Messages(Served(events, writes), channel, first, clock) ==
               if Heard(e, channel)
               then [Message(e.nick, e.text, clock(first))] + Messages(done, channel, first + 1, clock)
               else Messages(done, channel, first, clock)
  {
    var e := events[0];
    var done := Served(events[1..], if e.Pinged? then writes - 1 else writes);
    assert ([e] + done)[1..] == done;
    assert "" + Pongs(done) == Pongs(done);
  }

  /** The first event of a conversation decides how the calls go on. */
  lemma ReceiveEvent(st: State, e: Event, later: seq<Event>, channel: string, clock: nat -> nat)
    requires WellFormed(e)
    requires st.input == Line(e) + ("\r\n" + Wire(later))
    ensures Heard(e, channel) ==>
              (var messages := PushBounded(MAX_MESSAGES, st.messages, Message(e.nick, e.text, clock(st.seqNo)));
               var next := st.(input := Wire(later), messages := messages, seqNo := st.seqNo + 1);
               var after := ReceiveAll(next, channel, clock);
               ReceiveAll(st, channel, clock) == (after.0, [Snapshot(st.seqNo, messages)] + after.1, after.2))
    ensures e.Pinged? ==>
              (var rest := st.(input := Wire(later));
               ReceiveAll(st, channel, clock) ==
               if st.writes == 0 then (rest, [], Failed)
               else ReceiveAll(rest.(output := st.output + Pong(e.token), writes := st.writes - 1), channel, clock))
    ensures !Heard(e, channel) && !e.Pinged? ==>
              ReceiveAll(st, channel, clock) == ReceiveAll(st.(input := Wire(later)), channel, clock)
  {
    hide ReadLine, ParseLine, Line, WellFormed, PushBounded, Pong, Receive, Wire;
    ReadEvent(e, channel, Wire(later));
    assert st.input[|Line(e)| + 1] == '\n';
    ReceiveLine(st, Line(e), Wire(later), channel, clock(st.seqNo));
  }

  /** What one line does to a call. */
  lemma ReceiveLine(st: State, line: string, rest: string, channel: string, now: nat)
    requires '\n' in st.input && ReadLine(st.input) == (line, rest)
    ensures var parsed := ParseLine(line, channel);
            var next := st.(input := rest);
            && (parsed.Privmsg? ==>
                  var messages := PushBounded(MAX_MESSAGES, st.messages, Message(parsed.nick, parsed.text, now));
                  Receive(st, channel, now) ==
                  (next.(messages := messages, seqNo := st.seqNo + 1), Got(Snapshot(st.seqNo, messages))))
            && (parsed.Ping? ==>
                  Receive(st, channel, now) ==
                  if st.writes == 0 then (next, Failed)
                  else Receive(next.(output := st.output + Pong(parsed.rest), writes := st.writes - 1), channel, now))
            && (parsed.Skipped? ==> Receive(st, channel, now) == Receive(next, channel, now))
  {
    hide ReadLine, ParseLine, PushBounded, Pong;
  }

  lemma NothingLeft(st: State, channel: string, clock: nat -> nat)
    requires st.input == "" && |st.messages| <= MAX_MESSAGES
    ensures ReadsEvents(st, [], channel, clock)
  {
    assert st.messages + [] == st.messages && st.output + "" == st.output;
  }

  lemma Stopped(st: State, rest: State)
    requires rest == st.(input := rest.input) && |st.messages| <= MAX_MESSAGES
    ensures ReadThrough(st, [], "", 0, rest.input, rest, [])
  {
    assert st.messages + [] == st.messages && st.output + "" == st.output;
  }

  lemma PushStaysBounded(window: seq<Message>, m: Message)
    requires |window| <= MAX_MESSAGES
    ensures |PushBounded(MAX_MESSAGES, window, m)| <= MAX_MESSAGES
  {
  }

  lemma MessageFirst(st: State, next: State, m: Message, said: seq<Message>, pongs: string, pings: nat,
                     left: string, end: State, later: seq<Snapshot>)
    requires next.output == st.output && next.seqNo == st.seqNo + 1 && |st.messages| <= MAX_MESSAGES
    requires next.broken == st.broken && next.writes == st.writes
    requires next.messages == PushBounded(MAX_MESSAGES, st.messages, m)
    requires ReadThrough(next, said, pongs, pings, left, end, later)
    ensures ReadThrough(st, [m] + said, pongs, pings, left, end, [Snapshot(st.seqNo, next.messages)] + later)
  {
    SaidFirst(st.messages, m, said);
    var snapshots := [Snapshot(st.seqNo, next.messages)] + later;
    hide PushBounded, Last;
    assert said[..|said|] == said && ([m] + said)[..|said| + 1] == [m] + said;
    assert next.messages == Last(MAX_MESSAGES, next.messages + said[..0]) by {
      assert next.messages + said[..0] == next.messages;
      KeepsAll(next.messages, st.messages, m);
    }
    forall k | 0 <= k < |said| + 1
      ensures snapshots[k] == Snapshot(st.seqNo + k, Last(MAX_MESSAGES, st.messages + ([m] + said)[..k + 1]))
    {
      if k > 0 {
        assert snapshots[k] == later[k - 1];
      }
    }
  }

  lemma KeepsAll(next: seq<Message>, window: seq<Message>, m: Message)
    requires |window| <= MAX_MESSAGES && next == PushBounded(MAX_MESSAGES, window, m)
    ensures Last(MAX_MESSAGES, next) == next
  {
  }

  /** An event that is no message: what it writes, if anything, stands in front. */
  lemma EventFirst(st: State, next: State, pong: string, ping: nat, said: seq<Message>, pongs: string, pings: nat,
                   left: string, end: State, later: seq<Snapshot>)
    requires ping <= st.writes
    requires next == st.(input := next.input, output := st.output + pong, writes := st.writes - ping)
    requires ReadThrough(next, said, pongs, pings, left, end, later)
    ensures ReadThrough(st, said, pong + pongs, ping + pings, left, end, later)
  {
    assert st.output + pong + pongs == st.output + (pong + pongs);
  }

  lemma SaidFirst(window: seq<Message>, m: Message, later: seq<Message>)
    requires |window| <= MAX_MESSAGES
    ensures forall k :: 0 <= k <= |later| ==>
              Last(MAX_MESSAGES, PushBounded(MAX_MESSAGES, window, m) + later[..k])
              == Last(MAX_MESSAGES, window + ([m] + later)[..k + 1])
  {
    forall k | 0 <= k <= |later|
      ensures Last(MAX_MESSAGES, PushBounded(MAX_MESSAGES, window, m) + later[..k])
           == Last(MAX_MESSAGES, window + ([m] + later)[..k + 1])
    {
      PushKeepsLast(MAX_MESSAGES, window, m);
      LastOfLast(MAX_MESSAGES, window + [m], later[..k]);
      assert window + [m] + later[..k] == window + ([m] + later)[..k + 1];
    }
  }
}
