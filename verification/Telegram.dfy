/** The Telegram connector's receive loop (interconnect-connector-telegram/src/transport.rs): long
    polls with an offset, a filter, a bounded window and at most one snapshot per poll. */
module Telegram {
  import opened Wrappers
  import opened BoundedWindow

  const MAX_MESSAGES: nat := 50

  datatype Incoming = Incoming(chat: int, messageId: int, from: string, text: Option<string>, date: nat)

  datatype Update = Update(id: int, message: Option<Incoming>)

  datatype ChatMessage = ChatMessage(messageId: int, from: string, text: string, timestamp: nat)

  /** The answer to one getUpdates call. */
  datatype Response = Updates(updates: seq<Update>) | NoArray | ApiError(description: string) | HttpError

  datatype Snapshot = Snapshot(seqNo: nat, messages: seq<ChatMessage>)

  datatype State = State(messages: seq<ChatMessage>, seqNo: nat, offset: int)

  /** The message an update contributes: a text of the target chat. */
  function Accepted(chat: int, u: Update): Option<ChatMessage> {
    if u.message.None? then None
    else
      var m := u.message.value;
      if m.chat != chat || m.text.None? then None
      else Some(ChatMessage(m.messageId, m.from, m.text.value, m.date))
  }

  function ProcessOne(chat: int, st: State, u: Update): State {
    var moved := st.(offset := if u.id >= st.offset then u.id + 1 else st.offset);
    var m := Accepted(chat, u);
    if m.None? then moved
    else moved.(messages := PushBounded(MAX_MESSAGES, st.messages, m.value), seqNo := st.seqNo + 1)
  }

  function Process(chat: int, st: State, us: seq<Update>): State {
    if us == [] then st
    else ProcessOne(chat, Process(chat, st, us[..|us| - 1]), us[|us| - 1])
  }

  /** The texts accepted from a row of updates, in order. */
  function Texts(chat: int, us: seq<Update>): seq<ChatMessage> {
    if us == [] then []
    else
      var m := Accepted(chat, us[|us| - 1]);
      Texts(chat, us[..|us| - 1]) + if m.Some? then [m.value] else []
  }

  /** The snapshot a poll emits: one when it accepts a text, of the state it leaves. */
  function Emitted(chat: int, st: State, us: seq<Update>): Option<Snapshot>
    requires Process(chat, st, us).seqNo >= 1 || Texts(chat, us) == []
  {
    var st' := Process(chat, st, us);
    if Texts(chat, us) == [] then None else Some(Snapshot(st'.seqNo - 1, st'.messages))
  }

  class TelegramTransport {
    const chat: int
    var messages: seq<ChatMessage>
    var seqNo: nat
    var offset: int

    constructor (chat: int, initial: State)
      ensures this.chat == chat && Abstract() == initial
    {
      this.chat := chat;
      messages, seqNo, offset := initial.messages, initial.seqNo, initial.offset;
    }

    ghost function Abstract(): State
      reads this
    {
      State(messages, seqNo, offset)
    }

    method PushMessage(m: ChatMessage)
      modifies this`messages
      ensures messages == PushBounded(MAX_MESSAGES, old(messages), m)
    {
      messages := messages + [m];
      if |messages| > MAX_MESSAGES {
        messages := messages[1..];
      }
    }

    /** The loop over the updates of one poll. */
    method ProcessBatch(updates: seq<Update>) returns (emitted: Option<Snapshot>)
      modifies this
      ensures Abstract() == Process(chat, old(Abstract()), updates)
      ensures Texts(chat, updates) != [] ==> seqNo >= 1
      ensures emitted == Emitted(chat, old(Abstract()), updates)
    {
      emitted := None;
      var i := 0;
      while i < |updates|
        invariant 0 <= i <= |updates|
        invariant Abstract() == Process(chat, old(Abstract()), updates[..i])
        invariant Texts(chat, updates[..i]) == [] ==> emitted == None
        invariant Texts(chat, updates[..i]) != [] ==> seqNo >= 1 && emitted == Some(Snapshot(seqNo - 1, messages))
      {
        var update := updates[i];
        assert updates[..i + 1][..i] == updates[..i];
        i := i + 1;
        if update.id >= offset {
          offset := update.id + 1;
        }
        if update.message.None? {
          continue;
        }
        var message := update.message.value;
        if message.chat != chat {
          continue;
        }
        if message.text.None? {
          continue;
        }
        PushMessage(ChatMessage(message.messageId, message.from, message.text.value, message.date));
        emitted := Some(Snapshot(seqNo, messages));
        seqNo := seqNo + 1;
      }
      assert updates[..|updates|] == updates;
    }

    /** recv: polls until a snapshot is emitted or a poll fails.  `polls` are the answers to come;
        `used` counts those taken; with none left the call is still waiting. */
    method Recv(polls: seq<Response>) returns (emitted: Option<Snapshot>, failed: bool, used: nat)
      modifies this
      ensures used <= |polls|
      ensures Abstract() == Replay(chat, old(Abstract()), polls[..used]).state
      ensures Replay(chat, old(Abstract()), polls[..used]).emitted == if emitted.Some? then [emitted.value] else []
      ensures emitted.None? && !failed ==> used == |polls|
      ensures emitted.Some? ==> used > 0 && !failed
      ensures failed <==> used > 0 && (polls[used - 1].ApiError? || polls[used - 1].HttpError?)
      ensures forall i :: 0 <= i < used - 1 ==>
                && !polls[i].ApiError? && !polls[i].HttpError?
                && Replay(chat, old(Abstract()), polls[..i + 1]).emitted == []
    {
      used := 0;
      while used < |polls|
        invariant used <= |polls|
        invariant Abstract() == Replay(chat, old(Abstract()), polls[..used]).state
        invariant Replay(chat, old(Abstract()), polls[..used]).emitted == []
        invariant forall i :: 0 <= i < used ==>
                    !polls[i].ApiError? && !polls[i].HttpError? &&
                    Replay(chat, old(Abstract()), polls[..i + 1]).emitted == []
      {
        var response := polls[used];
        assert polls[..used + 1][..used] == polls[..used];
        used := used + 1;
        if response.ApiError? || response.HttpError? {
          return None, true, used;
        }
        if response.NoArray? || response.updates == [] {
          continue;
        }
        emitted := ProcessBatch(response.updates);
        if emitted.Some? {
          return emitted, false, used;
        }
      }
      return None, false, used;
    }
  }

  // -------------------------------------------------------------------------
  // Many polls.
  // -------------------------------------------------------------------------

  /** Everything that happened: the state, the updates processed and the snapshots emitted. */
  datatype Trace = Trace(state: State, processed: seq<Update>, emitted: seq<Snapshot>)

  function Replay(chat: int, st: State, polls: seq<Response>): (t: Trace)
    ensures t.state.seqNo == st.seqNo + |Texts(chat, t.processed)|
  {
    if polls == [] then Trace(st, [], [])
    else
      var before := Replay(chat, st, polls[..|polls| - 1]);
      var response := polls[|polls| - 1];
      if !response.Updates? then before
      else
        SeqCounts(chat, before.state, response.updates);
        TextsConcat(chat, before.processed, response.updates);
        var e := Emitted(chat, before.state, response.updates);
        Trace(Process(chat, before.state, response.updates), before.processed + response.updates,
              before.emitted + if e.Some? then [e.value] else [])
  }

  lemma {:induction false} SeqCounts(chat: int, st: State, us: seq<Update>)
    ensures Process(chat, st, us).seqNo == st.seqNo + |Texts(chat, us)|
  {
    if us != [] {
      SeqCounts(chat, st, us[..|us| - 1]);
    }
  }

  lemma {:induction false} TextsConcat(chat: int, us: seq<Update>, vs: seq<Update>)
    ensures Texts(chat, us + vs) == Texts(chat, us) + Texts(chat, vs)
    decreases |vs|
  {
    if vs == [] {
      assert us + vs == us;
    } else {
      TextsConcat(chat, us, vs[..|vs| - 1]);
      assert (us + vs)[..|us + vs| - 1] == us + vs[..|vs| - 1];
    }
  }

  /** What contributes to the texts, and what it contributes: exactly the texts of the target chat,
      in order, each with its id, sender, text and date. */
  lemma TextsOfTheChat(chat: int, us: seq<Update>, id: int, m: Incoming)
    ensures Texts(chat, us + [Update(id, None)]) == Texts(chat, us)
    ensures m.text.None? || m.chat != chat ==> Texts(chat, us + [Update(id, Some(m))]) == Texts(chat, us)
    ensures m.text.Some? && m.chat == chat ==>
              Texts(chat, us + [Update(id, Some(m))]) ==
              Texts(chat, us) + [ChatMessage(m.messageId, m.from, m.text.value, m.date)]
  {
    assert (us + [Update(id, None)])[..|us|] == us && (us + [Update(id, Some(m))])[..|us|] == us;
  }

  /** The window is the last 50 of the initial window and the accepted texts. */
  lemma {:induction false} WindowOfBatch(chat: int, st: State, history: seq<ChatMessage>, us: seq<Update>)
    requires st.messages == Last(MAX_MESSAGES, history)
    ensures Process(chat, st, us).messages == Last(MAX_MESSAGES, history + Texts(chat, us))
  {
    if us == [] {
      assert history + [] == history;
    } else {
      var init := us[..|us| - 1];
      WindowOfBatch(chat, st, history, init);
      var m := Accepted(chat, us[|us| - 1]);
      if m.Some? {
        PushKeepsLast(MAX_MESSAGES, history + Texts(chat, init), m.value);
        assert history + Texts(chat, init) + [m.value] == history + Texts(chat, us);
      } else {
        assert Texts(chat, us) == Texts(chat, init) + [];
      }
    }
  }

  /** After any polls the window is the last 50 of the initial one and all texts accepted since, and
      the counter has counted them. */
  lemma {:induction false} WindowOfRun(chat: int, st: State, polls: seq<Response>)
    requires |st.messages| <= MAX_MESSAGES
    ensures var t := Replay(chat, st, polls);
            && t.state.messages == Last(50, st.messages + Texts(chat, t.processed))
            && t.state.seqNo == st.seqNo + |Texts(chat, t.processed)|
  {
    var t := Replay(chat, st, polls);
    if polls == [] {
      assert st.messages + [] == st.messages;
    } else {
      var shorter := polls[..|polls| - 1];
      var before := Replay(chat, st, shorter);
      WindowOfRun(chat, st, shorter);
      var response := polls[|polls| - 1];
      if response.Updates? {
        WindowOfBatch(chat, before.state, st.messages + Texts(chat, before.processed), response.updates);
        TextsConcat(chat, before.processed, response.updates);
        assert st.messages + Texts(chat, before.processed) + Texts(chat, response.updates)
            == st.messages + Texts(chat, t.processed);
      }
    }
  }

  predicate Numbered(first: nat, counter: nat, emitted: seq<Snapshot>) {
    && (forall i :: 0 <= i < |emitted| ==> first <= emitted[i].seqNo < counter)
    && (forall i, j :: 0 <= i < j < |emitted| ==> emitted[i].seqNo < emitted[j].seqNo)
  }

  /** Snapshots are emitted under strictly increasing seqs, all below the counter. */
  lemma {:induction false} EmittedSeqsIncrease(chat: int, st: State, polls: seq<Response>)
    ensures var t := Replay(chat, st, polls);
            t.state.seqNo >= st.seqNo && Numbered(st.seqNo, t.state.seqNo, t.emitted)
  {
    var t := Replay(chat, st, polls);
    if polls != [] {
      var before := Replay(chat, st, polls[..|polls| - 1]);
      EmittedSeqsIncrease(chat, st, polls[..|polls| - 1]);
      var response := polls[|polls| - 1];
      if response.Updates? {
        SeqCounts(chat, before.state, response.updates);
        var e := Emitted(chat, before.state, response.updates);
        assert t.emitted == before.emitted + if e.Some? then [e.value] else [];
        if e.Some? {
          assert e.value.seqNo == t.state.seqNo - 1 && e.value.seqNo >= before.state.seqNo;
        }
      } else {
        assert t == before;
      }
    }
  }

  /** A poll emits exactly when it accepts a text, and then what the window is on return. */
  lemma EmittedIsWindow(chat: int, st: State, polls: seq<Response>)
    requires polls != []
    ensures var before := Replay(chat, st, polls[..|polls| - 1]);
            var t := Replay(chat, st, polls);
            var accepted := |Texts(chat, t.processed)| > |Texts(chat, before.processed)|;
            && (|t.emitted| == |before.emitted| + if accepted then 1 else 0)
            && (accepted ==> t.emitted[|before.emitted|] == Snapshot(t.state.seqNo - 1, t.state.messages))
  {
    var response := polls[|polls| - 1];
    if response.Updates? {
      TextsConcat(chat, Replay(chat, st, polls[..|polls| - 1]).processed, response.updates);
    }
  }

  // -------------------------------------------------------------------------
  // The offset protocol.
  // -------------------------------------------------------------------------

  predicate Ascending(us: seq<Update>) {
    forall i, j :: 0 <= i < j < |us| ==> us[i].id < us[j].id
  }

  /** The updates of the server's log that a poll with this offset asks for. */
  function FromOffset(log: seq<Update>, offset: int): seq<Update> {
    if log == [] || log[0].id >= offset then log else FromOffset(log[1..], offset)
  }

  /** Each poll is answered with the next updates of the log, as many as the server likes. */
  predicate Served(chat: int, st: State, polls: seq<Response>, log: seq<Update>) {
    polls == [] ||
    (var shorter := polls[..|polls| - 1];
     && Served(chat, st, shorter, log)
     && (polls[|polls| - 1].Updates? ==>
           polls[|polls| - 1].updates <= FromOffset(log, Replay(chat, st, shorter).state.offset)))
  }

  lemma {:induction false} FromOffsetSuffix(log: seq<Update>, offset: int)
    requires Ascending(log)
    ensures Ascending(FromOffset(log, offset))
    ensures forall i :: 0 <= i < |FromOffset(log, offset)| ==> FromOffset(log, offset)[i].id >= offset
  {
    if log != [] && log[0].id < offset {
      FromOffsetSuffix(log[1..], offset);
    }
  }

  lemma {:induction false} FromLaterOffset(log: seq<Update>, offset: int, later: int)
    requires Ascending(log) && offset <= later
    ensures FromOffset(FromOffset(log, offset), later) == FromOffset(log, later)
  {
    if log != [] && log[0].id < offset {
      FromLaterOffset(log[1..], offset, later);
    }
  }

  /** Dropping what lies below an offset, from a log cut at that offset. */
  lemma {:induction false} FromOffsetAt(log: seq<Update>, n: nat, offset: int)
    requires Ascending(log) && n <= |log|
    requires forall i :: 0 <= i < n ==> log[i].id < offset
    requires n < |log| ==> log[n].id >= offset
    ensures FromOffset(log, offset) == log[n..]
  {
    if n > 0 {
      FromOffsetAt(log[1..], n - 1, offset);
      assert log[1..][n - 1..] == log[n..];
    }
  }

  lemma {:induction false} OffsetOfBatch(chat: int, st: State, us: seq<Update>)
    requires Ascending(us) && (us != [] ==> us[0].id >= st.offset)
    ensures Process(chat, st, us).offset == if us == [] then st.offset else us[|us| - 1].id + 1
  {
    if us != [] {
      OffsetOfBatch(chat, st, us[..|us| - 1]);
    }
  }

  /** If the server answers from a log with ascending ids, then over all polls the updates processed
      are the log from the first offset on, each once, in order and none skipped; the offset is one
      more than the last id, and what is left of the log is what the next poll asks for. */
  lemma {:induction false} EveryUpdateOnce(chat: int, st: State, polls: seq<Response>, log: seq<Update>)
    requires Ascending(log) && Served(chat, st, polls, log)
    ensures var t := Replay(chat, st, polls);
            && t.processed + FromOffset(log, t.state.offset) == FromOffset(log, st.offset)
            && Ascending(t.processed)
            && t.state.offset == (if t.processed == [] then st.offset else t.processed[|t.processed| - 1].id + 1)
            && t.state.offset >= st.offset
  {
    var t := Replay(chat, st, polls);
    FromOffsetSuffix(log, st.offset);
    if polls == [] {
      assert [] + FromOffset(log, st.offset) == FromOffset(log, st.offset);
    } else {
      var shorter := polls[..|polls| - 1];
      EveryUpdateOnce(chat, st, shorter, log);
      if polls[|polls| - 1].Updates? {
        BatchOnce(chat, Replay(chat, st, shorter), polls[|polls| - 1].updates, log, st.offset);
      }
    }
  }

  lemma BatchOnce(chat: int, before: Trace, us: seq<Update>, log: seq<Update>, start: int)
    requires Ascending(log) && us <= FromOffset(log, before.state.offset)
    requires before.processed + FromOffset(log, before.state.offset) == FromOffset(log, start)
    requires Ascending(FromOffset(log, start)) && before.state.offset >= start
    requires before.processed != [] ==> before.state.offset == before.processed[|before.processed| - 1].id + 1
    requires before.processed == [] ==> before.state.offset == start
    ensures var st := Process(chat, before.state, us);
            var processed := before.processed + us;
            && processed + FromOffset(log, st.offset) == FromOffset(log, start)
            && Ascending(processed)
            && st.offset == (if processed == [] then start else processed[|processed| - 1].id + 1)
            && st.offset >= start
  {
    hide Process, FromOffset, Ascending;
    BatchOffset(chat, before.state, us, log);
    MoveBatch(before.processed, us, FromOffset(log, before.state.offset));
    PrefixAscends(FromOffset(log, start), before.processed + us);
  }

  lemma MoveBatch(done: seq<Update>, us: seq<Update>, pending: seq<Update>)
    requires us <= pending
    ensures (done + us) + pending[|us|..] == done + pending
    ensures done + us <= done + pending
    ensures us != [] ==> (done + us)[|done + us| - 1] == us[|us| - 1]
    ensures us == [] ==> done + us == done
  {
    assert us == pending[..|us|];
  }

  /** After a batch the offset cuts the log right behind it. */
  lemma BatchOffset(chat: int, st: State, us: seq<Update>, log: seq<Update>)
    requires Ascending(log) && us <= FromOffset(log, st.offset)
    ensures var st' := Process(chat, st, us);
            && FromOffset(log, st'.offset) == FromOffset(log, st.offset)[|us|..]
            && st'.offset == (if us == [] then st.offset else us[|us| - 1].id + 1)
            && st'.offset >= st.offset
  {
    hide Process, FromOffset;
    var pending := FromOffset(log, st.offset);
    FromOffsetSuffix(log, st.offset);
    PrefixAscends(pending, us);
    assert us != [] ==> us[0] == pending[0] && us[|us| - 1] == pending[|us| - 1];
    OffsetOfBatch(chat, st, us);
    var st' := Process(chat, st, us);
    FromLaterOffset(log, st.offset, st'.offset);
    FromOffsetAt(pending, |us|, st'.offset);
  }

  lemma PrefixAscends(us: seq<Update>, prefix: seq<Update>)
    requires Ascending(us) && prefix <= us
    ensures Ascending(prefix)
  {
    assert forall i :: 0 <= i < |prefix| ==> prefix[i] == us[i];
  }
}
