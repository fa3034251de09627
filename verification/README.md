# Verified models of Interconnect

Interconnect connects clients to rooms: a daemon that shares a room's messages among readers, example
authorities (chat, webchat, forum, game), connectors to other platforms, and the hooks that its tooling
runs. This project models the parts with logic of their own and proves what they are for, over every
input and every run. `dafny verify dfyconfig.toml` checks all of it.

| module | what it models |
|---|---|
| `JsonText` | JSON texts in every layout, printed in front of whatever follows |
| `AgentId`, `AgentIdLimits` | subagent detection: three `sed` substitutions, a `tr` and a depth walk |
| `CommandScanner`, `CommandDecoder` | the awk key scanner, and nine global substitutions that undo string escapes |
| `Daemon` | many readers, one log and one cursor per room, and a notify that stores no permit |
| `Calendar`, `Timestamps` | days since 1970 in closed form and by counting; two timestamp parsers |
| `Webchat` | sessions, a shared counter and a lossy broadcast channel |
| `Handshake`, `ChatServer`, `ChatFeed` | the client's `connect`, the chat server it talks to, under any interleaving, and what it sends whom |
| `Base64`, `Matrix`, `Irc` | base64, percent-encoding and transaction ids, the IRC line protocol and its receive loop |
| `Telegram` | the long-poll loop with its offset and its window |
| `Game`, `Forum`, `ForumRuns`, `Pagination` | items between ground and inventories; threads, replies and users as the requests made them; pages |
| `BoundedWindow`, `MapSums`, `TextSplit`, `Wrappers` | what several of these share |

Each component has the same layers. Pure code is functions. Code that updates state is a class or a
method with loops, whose contract equates it with a function on values. Concurrent code is a transition
function over atomic steps (a lock section, a send, the creation of a future), and a run is a sequence of
actions; what is proved of `Run` holds for every interleaving. The main results are lemmas about those
functions and runs.

## Where the code does not keep its word

The code is modelled as it is. Where one of its comments or a natural expectation fails, a lemma gives a
concrete case and another says exactly when it holds.

- `agent-id.sh:9` and `:15`: dropping `\"` does not leave balanced delimiters when a string ends in a
  backslash (its closing quote goes too): `DelimitersLeft`, `TrailingBackslashIsExact`. Keys are compared
  as printed, not as denoted, and a key on another line than its colon is not seen: `MisreadQuotedKey`,
  `MisreadCodedKey`, `MisreadSplitKey`; `KeyReadRightIff` says exactly when a key is
  judged rightly, `AnswerRightIff` when a document is.
- `extract-command.awk:3`: a key that ends in `\"command` is taken for "command", and one that denotes it
  through an escape is not: `MisreadCommandKey`; `KeyRightIff` says exactly when a key is judged
  rightly.
- `daemon.rs:233-234` says that no notify is missed between drain and wait. `notify_waiters` wakes only
  futures that exist, and `notified()` is created at line 241. A reader falls asleep over a message if and
  only if some push to the room has no drain behind it when the reader registers: `RegisterFallsAsleep`,
  and `SleepingReader` for as long as it sleeps. `AsleepFromEveryQuietState` leads there from every state
  with nothing pending, `PendingWhileAsleep` is such a run, and `NextPushDelivers` is how it ends.
- A webchat client can miss a broadcast between its first snapshot and its subscription:
  `MissedBroadcast`; `CaughtUpClient` says exactly when it is up to date.
- The chat server counts `seq` per connection, so the seqs on the shared channel increase exactly while
  only one connection has spoken: `ChannelSeqsIncreaseIff`, `FirstMessageHasSeqOne`.
- A chat connection that returns early after it authenticated is never taken out of the room:
  `AbortedUserStays`; `RoomShowsSessions` says exactly which users the room shows.
- Decoding a command loses newlines at its end; a command is refused when JSON prints one of its
  characters as `\uXXXX`, and when it spells `\uXXXX` itself: `CommandComesBack` is an equivalence over
  every string that says so.
- An IRC text comes back exactly when it has no newline and does not end in a carriage return:
  `MessageComesBack`.

## Model

| member | source | states |
|---|---|---|
| `AgentId.IsSubagent` | tooling/claude-hooks/lib/agent-id.sh:21-38 | the loop over the skeleton, with its early return, answers what the depth walk on the reduced text defines |
| `AgentId.ColonFollowsIff` | tooling/claude-hooks/lib/agent-id.sh:25 | between a key and its colon only the five space characters that can stand in a line are passed over |
| `AgentId.SkeletonString` | tooling/claude-hooks/lib/agent-id.sh:24-27 | the four passes together reduce a string token, whatever is in it, to one mark when it reads as an `agent_id` key and to nothing otherwise |
| `AgentId.SkeletonOfValue` | tooling/claude-hooks/lib/agent-id.sh:9-14 | the passes reduce the text of any JSON value, followed by more JSON, to exactly its braces and key marks |
| `AgentId.SkeletonOfMembers` | tooling/claude-hooks/lib/agent-id.sh:9-14 | the same for the members of an object, each key judged by its own text and gap |
| `AgentId.WalkMembers` | tooling/claude-hooks/lib/agent-id.sh:28-37 | the depth walk sees the marks of members at depth 1 and no deeper ones, and leaves depth as it found it |
| `AgentId.AnswerIsAboutRootMembers` | tooling/claude-hooks/lib/agent-id.sh:21-38 | on every JSON object in every layout, with no string ending in a backslash, the answer is yes exactly when a member of the root itself reads as `agent_id` |
| `AgentId.SubagentIffRootKey` | tooling/claude-hooks/block-mainsession-exploration.sh:102-119 | where no root key is spelled `agent_id` otherwise than plainly and on one line with its colon (other root keys may have any escapes), yes exactly when the root object has the key `agent_id` |
| `AgentId.RootKeysAreJudged` | tooling/claude-hooks/lib/agent-id.sh:10-12 | under that condition comparing root keys as printed is comparing what they denote |
| `AgentIdLimits.DelimitersLeft` | tooling/claude-hooks/lib/agent-id.sh:9 | after the first pass a string has its two delimiters and no other quote, but only one if it ends in a backslash |
| `AgentIdLimits.TrailingBackslashIsExact` | tooling/claude-hooks/lib/agent-id.sh:9-15 | around every string there is a document with a root `agent_id` that is answered right if and only if the string does not end in a backslash |
| `AgentIdLimits.TrailingBackslashMisreads` | tooling/claude-hooks/lib/agent-id.sh:9-15 | a whole family of documents with a root `agent_id` is answered no |
| `AgentIdLimits.KeyReadRightIff` | tooling/claude-hooks/lib/agent-id.sh:10-12 | a key with its gap is judged rightly if and only if it is not printed as `agent_id` in front of its colon, nor denotes it, in any way but plainly and on one line; for every key and gap |
| `AgentIdLimits.KeyConditionIsExact` | tooling/claude-hooks/lib/agent-id.sh:21-38 | around every key and gap there is a document that is answered rightly if and only if that condition holds |
| `AgentIdLimits.AnswerRightIff` | tooling/claude-hooks/lib/agent-id.sh:21-38 | for whole documents whose strings do not end in a backslash, the answer is right if and only if every root key reads right, or one is taken for `agent_id` and one denotes it |
| `AgentIdLimits.MisreadQuotedKey` | tooling/claude-hooks/lib/agent-id.sh:24-25 | a key that prints like `agent_id` once its escaped quote is dropped, and denotes something else |
| `AgentIdLimits.MisreadCodedKey` | tooling/claude-hooks/lib/agent-id.sh:25 | a key that denotes `agent_id` through a Unicode escape and is not seen |
| `AgentIdLimits.MisreadSplitKey` | tooling/claude-hooks/lib/agent-id.sh:25 | the key `agent_id` with a newline in front of its colon is not seen |
| `CommandScanner.ExtractCommand` | tooling/claude-hooks/lib/extract-command.awk:24-77 | the character loop with its integer state, nine-character window and escape flag is the state machine `Scan` |
| `CommandScanner.ScannerFindsFirstCommand` | tooling/claude-hooks/lib/extract-command.awk:24-76 | in every JSON value followed by more JSON, what is printed is the raw text of the first string, in text order, under a key it takes for "command"; with none, the scan goes on as if fresh |
| `CommandScanner.CopyUnits` | tooling/claude-hooks/lib/extract-command.awk:61-75 | copying stops at the string's own closing quote, whatever escapes it has, and keeps every escape |
| `CommandScanner.PlainHitIff` | tooling/claude-hooks/lib/extract-command.awk:29-39 | a string without escapes is a hit exactly when it is `command`, not when it only ends so |
| `CommandScanner.KeyRightIff` | tooling/claude-hooks/lib/extract-command.awk:29-39 | any key is taken for "command" rightly if and only if it is not taken for it, nor denotes it, with an escape in it |
| `CommandScanner.MisreadCommandKey` | tooling/claude-hooks/lib/extract-command.awk:29-39 | a key that ends in an escaped quote and `command` is taken for "command" and denotes something else |
| `CommandScanner.FoundIsDenoted` | tooling/claude-hooks/lib/extract-command.awk:3 | where every key satisfies that condition, the string found is the first one, at any depth, under a key that denotes "command" |
| `CommandScanner.KeyConditionIsExact` | tooling/claude-hooks/lib/extract-command.awk:24-76 | in an object with one key and a string under it, the right string is found, or rightly none, if and only if the key reads right |
| `CommandDecoder.RunSubstitutions` | tooling/claude-hooks/block-mainsession-exploration.sh:203-217 | rewriting the record nine times turns every raw string without \uXXXX into exactly the characters that the JSON string denotes |
| `CommandDecoder.FirstSubstitution` | tooling/claude-hooks/block-mainsession-exploration.sh:203-206 | the first substitution takes pairs of backslashes exactly where escapes begin |
| `CommandDecoder.GsubResolves` | tooling/claude-hooks/block-mainsession-exploration.sh:207-214 | each later substitution resolves its own escapes and touches nothing that is resolved already |
| `CommandDecoder.SubstitutionsAreOnePass` | tooling/claude-hooks/block-mainsession-exploration.sh:187-217 | on every well-formed raw string without \uXXXX the nine substitutions equal the one-pass, left-to-right unescape, and give the characters denoted |
| `CommandDecoder.GuardSeesUnicode` | tooling/claude-hooks/block-mainsession-exploration.sh:198-201 | what the guard lets through has no \uXXXX escape |
| `JsonText.HexDigits` | tooling/claude-hooks/block-mainsession-exploration.sh:198-201 | the digits that the guard looks for are the 22 hexadecimal ones, of either case, and their values are their places |
| `JsonText.SpellsCode` | tooling/claude-hooks/block-mainsession-exploration.sh:198-201 | a \uXXXX denotes the code point whose digits to the base of 16 it spells |
| `CommandDecoder.PrintedUnits` | tooling/claude-hooks/block-mainsession-exploration.sh:187-198 | the reference printer gives JSON strings that denote what was printed, with \u00hh for exactly the control characters that have no shorter escape |
| `CommandDecoder.GuardOnPrinted` | tooling/claude-hooks/block-mainsession-exploration.sh:198-201 | for every printed command the guard fires exactly when the command itself spells \uXXXX or has a character that is printed as one |
| `CommandDecoder.DecodedCommand` | tooling/claude-hooks/block-mainsession-exploration.sh:180-217 | whenever a raw string that is let through denotes `w + t`, with `t` all newlines and `w` empty or not ending in one, it decodes to `w` |
| `CommandDecoder.StripsFinalNewlines` | tooling/claude-hooks/block-mainsession-exploration.sh:203-217 | of `w + t`, with `t` all newlines and `w` empty or not ending in one, exactly `w` is kept |
| `CommandDecoder.DecodableText` | tooling/claude-hooks/block-mainsession-exploration.sh:198-217 | every raw string that is let through denotes such a text `w + t` |
| `CommandDecoder.ExtractedCommand` | tooling/claude-hooks/block-mainsession-exploration.sh:180-217 | however its string is printed and wherever it stands in the tool input, the command found is denied if it is empty or has \uXXXX, and is otherwise `w` when the string denotes such a `w + t` |
| `CommandDecoder.NoCommandIsDenied` | tooling/claude-hooks/block-mainsession-exploration.sh:180-217 | a tool input in which no key is taken for "command" is denied |
| `CommandDecoder.CommandComesBack` | tooling/claude-hooks/block-mainsession-exploration.sh:180-217 | for every string, printed as the command found in any tool input: it comes back unchanged if and only if it is not empty, has no character that JSON prints as \uXXXX, does not spell \uXXXX itself and does not end in a newline |
| `Daemon.RoomState.Push` | crates/interconnect-daemon/src/daemon.rs:38-41 | appends to the log, moves no cursor, notifies once |
| `Daemon.RoomState.DrainPending` | crates/interconnect-daemon/src/daemon.rs:44-48 | returns exactly what lies from the cursor on, which extends what was drained before, and leaves nothing pending |
| `Daemon.RoomState.Snapshot` | crates/interconnect-daemon/src/daemon.rs:51-59 | count, cursor and last message, changing nothing |
| `Daemon.NextInv` | crates/interconnect-daemon/src/daemon.rs:184-256 | every atomic step of every reader and every push keeps the invariant of log, cursor, deliveries and sleeping readers |
| `Daemon.RunInv` | crates/interconnect-daemon/src/daemon.rs:184-256 | so every reachable state has it |
| `Daemon.LogIsPushes` | crates/interconnect-daemon/src/daemon.rs:38-41 | in every run a room's log is what was pushed to it, in push order |
| `Daemon.DeliveryInOrderExactlyOnce` | crates/interconnect-daemon/src/daemon.rs:44-48 | in every interleaving the batches that readers were answered with for a room, in order, followed by what is pending, are the pushes: each message once, none skipped, none out of order; the cursor counts them, and the room table keeps its keys |
| `Daemon.StepAnswers` | crates/interconnect-daemon/src/daemon.rs:214-254 | which steps end a request in a reachable state, and how: a message batch is exactly what was pending in the room just before; a room that is not there is an error; no other reader is answered |
| `Daemon.RecvAtOnce` | crates/interconnect-daemon/src/daemon.rs:216-229 | a request that finds something, or is not to block, is answered by its first lock section with what was pending, and leaves nothing pending |
| `Daemon.StateAnswers` | crates/interconnect-daemon/src/daemon.rs:192-198 | a State request is answered with the number of pushes, the number of messages answered with and the last push, and changes nothing |
| `Daemon.BlockingNeverEmpty` | crates/interconnect-daemon/src/daemon.rs:216-254 | no blocking request returns an empty batch, and the index at line 237 never fails |
| `Daemon.PendingIsSinceDrain` | crates/interconnect-daemon/src/daemon.rs:38-48 | in every reachable state what is pending in a room is exactly what was pushed to it since any reader last drained it |
| `Daemon.SinceDrainIff` | crates/interconnect-daemon/src/daemon.rs:44-48 | something was pushed since the last drain if and only if some push of the run has no drain of its room behind it |
| `Daemon.RegisterFallsAsleep` | crates/interconnect-daemon/src/daemon.rs:232-241 | a reader that registers falls asleep whatever is pending, and over a message if and only if some push to the room has no drain behind it, its own or another reader's |
| `Daemon.SleepingReader` | crates/interconnect-daemon/src/daemon.rs:232-241 | a sleeping, unwoken reader has seen no push since it registered; what is pending was pushed since the room's last drain and between its own drain and its registration; something is pending if and only if some push has no drain behind it |
| `Daemon.NextPushDelivers` | crates/interconnect-daemon/src/daemon.rs:240-248 | the next push wakes it, and if it runs first it returns all that was pending and the new message |
| `Daemon.OtherRoomsUntouched` | crates/interconnect-daemon/src/daemon.rs:184-256 | no action of one room changes another room, its deliveries, or a reader waiting there |
| `Daemon.AsleepFromEveryQuietState` | crates/interconnect-daemon/src/daemon.rs:232-241 | from every reachable state with nothing pending in a room and an idle reader, five steps lead to that reader asleep, not woken, with a message pending |
| `Daemon.PendingWhileAsleep` | crates/interconnect-daemon/src/daemon.rs:232-241 | a run from the start that ends so, against the comment at 233-234 |
| `Calendar.DaysFromEpoch` | crates/connectors/interconnect-connector-maillist/src/transport.rs:261-280 | the two counting loops compute the counted days, and None outside months 1..12 and days 1..31 |
| `Calendar.AddYears` | crates/connectors/interconnect-connector-maillist/src/transport.rs:268-271 | the first loop counts the days of the years from 1970, none for an earlier year |
| `Calendar.ClosedFormIsCount` | crates/connectors/interconnect-connector-github/src/transport.rs:108-116 | the closed form, every u64 and i64 operation checked, equals the counted days for every year from 1970, month and day 1..31, 30 February included |
| `Calendar.ClosedIsDayNumber` | crates/connectors/interconnect-connector-github/src/transport.rs:110-116 | from year 1 on the closed form is the calendar's own day number |
| `Calendar.UnderflowIff` | crates/connectors/interconnect-connector-github/src/transport.rs:110-116 | for unchecked months and days too, it underflows exactly in the months up to February of year 0 and on day 0 of March |
| `Calendar.NextDateIsNextDay` | crates/connectors/interconnect-connector-github/src/transport.rs:110-116 | 1970-01-01 is day 0 and the next Gregorian date is the next day |
| `Calendar.DaysOrderDates` | crates/connectors/interconnect-connector-github/src/transport.rs:110-116 | day numbers order valid dates as the calendar does and tell them apart |
| `Calendar.EveryDayHasItsDate` | crates/connectors/interconnect-connector-maillist/src/transport.rs:268-279 | no day number from 0 on is skipped |
| `Calendar.DateAfterDays` | crates/connectors/interconnect-connector-maillist/src/transport.rs:268-279 | walking that many days from the epoch leads back to the date |
| `Timestamps.Iso8601Parses` | crates/connectors/interconnect-connector-github/src/transport.rs:92-122 | splitting and filtering recover every field of every printed UTC timestamp from 1970 to 9999 |
| `Timestamps.Rfc3339Parses` | crates/connectors/interconnect-connector-maillist/src/transport.rs:196-258 | any fraction is ignored, any offset is subtracted, and the result is None (then 0) exactly when UTC is before the epoch |
| `Timestamps.ParsersAgree` | crates/connectors/interconnect-connector-github/src/transport.rs:92-122 | both parsers give the same seconds on every printed UTC timestamp |
| `Timestamps.SignedNumbers` | crates/connectors/interconnect-connector-github/src/transport.rs:100-101 | digits, with a plus or for signed numbers a minus in front, are read as the number when it fits in 64 bits |
| `Timestamps.NoNumber` | crates/connectors/interconnect-connector-github/src/transport.rs:100-101 | any other text is no number |
| `Timestamps.Rfc3339FailsIff` | crates/connectors/interconnect-connector-maillist/src/transport.rs:209-258 | for every text: None, then 0, exactly for a short text, a column that is no number, a month or day that does not exist, an offset that does not parse or a time before the epoch |
| `Timestamps.NoSuchDate` | crates/connectors/interconnect-connector-maillist/src/transport.rs:252-264 | a printed month outside 1..12 or day outside 1..31 is made 0 |
| `Timestamps.OffsetIgnored` | crates/connectors/interconnect-connector-maillist/src/transport.rs:233-246 | an offset of fewer than six characters, or without a sign, counts as none |
| `Timestamps.Iso8601FailsToZero` | crates/connectors/interconnect-connector-github/src/transport.rs:95-104 | a text without a `T`, or with other than three numbers in its date and in its time, is made 0 |
| `Timestamps.BeforeEpochIsZero` | crates/connectors/interconnect-connector-github/src/transport.rs:110-120 | so is every printed date before 1970, from year 1 on |
| `Timestamps.StampOrder` | crates/connectors/interconnect-connector-maillist/src/transport.rs:203-208 | printed timestamps compare lexicographically as their fields do |
| `Timestamps.TimestampsCompareAsText` | crates/connectors/interconnect-connector-maillist/src/transport.rs:196-258 | for valid times, parsed seconds, date-time order and text order are one order |
| `Webchat.AppState.AddMessage` | examples/webchat/src/main.rs:62-71 | pushes to the window of 100, which stays the last 100 of any history it was the last 100 of |
| `Webchat.AppState.BroadcastSnapshot` | examples/webchat/src/main.rs:106-116 | sends the room under the next seq and counts on |
| `Webchat.NextInv` | examples/webchat/src/main.rs:137-240 | every step of every session keeps the invariant of room, history, channel and sessions |
| `Webchat.RunInv` | examples/webchat/src/main.rs:137-240 | so every reachable state has it |
| `Webchat.BroadcastsAreNumbered` | examples/webchat/src/main.rs:106-116 | in every run the k-th broadcast carries seq k and the last 100 messages of the history at that moment |
| `Webchat.QuietRoomIsBroadcast` | examples/webchat/src/main.rs:208-214 | whenever no session is between adding and broadcasting, the last broadcast is the room as it is |
| `Webchat.HistoryIsSaid` | examples/webchat/src/main.rs:62-71 | from the actions alone: the history is what was said, in order, under the names given at authentication, and the room its last 100 |
| `Webchat.GreetedWithTheRoom` | examples/webchat/src/main.rs:170-184 | the first snapshot shows the last 100 messages said so far, and the subscription starts at the end of the channel |
| `Webchat.SubscribersSeeIncreasingSeqs` | examples/webchat/src/main.rs:183-235 | every subscriber, a lagged one too, gets strictly increasing seqs, each with the snapshot broadcast under it |
| `Webchat.ReceiveGivesNext` | examples/webchat/src/main.rs:226-234 | a receive gives the next broadcast when at most 256 are unread, and otherwise skips exactly the unread ones in front of the last 256 |
| `Webchat.SubscriberGetsAll` | examples/webchat/src/main.rs:183-235 | in every run a subscriber that was never more than 256 behind when it received has received exactly the channel from its subscription to where it has read |
| `Webchat.CatchesUp` | examples/webchat/src/main.rs:226-234 | from every reachable state a subscriber left to itself receives all that is unread, or after one skip the last 256, and then has nothing to receive |
| `Webchat.ClosesIff` | examples/webchat/src/main.rs:186-240 | a session can end exactly when it is not between adding a message and broadcasting it |
| `Webchat.CaughtUpClient` | examples/webchat/src/main.rs:170-184 | in a quiet room a client that has read everything covers the whole history exactly when it received a broadcast or missed none before it subscribed; then it shows the room |
| `Webchat.MissedBroadcast` | examples/webchat/src/main.rs:170-184 | a run that leaves a subscribed client with nothing to read and without the room's only message |
| `Handshake.Connect` | crates/interconnect-client/src/connection.rs:37-86 | the two loops over the transport return and consume what the stream function says, after sending one Auth; a failing send consumes nothing |
| `Handshake.Receive` | crates/interconnect-client/src/connection.rs:96-102 | the next frame, as a message or as the error of the transport or of its decoding, and only that one; Closed at the end of the stream |
| `Handshake.ConnectsIffGreets` | crates/interconnect-client/src/connection.rs:46-85 | success exactly on streams System\*, Manifest, System\*, Snapshot, with that manifest and snapshot and the rest left |
| `Handshake.FirstMisfitDecides` | crates/interconnect-client/src/connection.rs:46-83 | on other streams the first frame that does not fit, or the end, decides the error, and nothing after it is consumed |
| `Handshake.LaterFramesAreLeft` | crates/interconnect-client/src/connection.rs:96-102 | frames that arrive later change nothing and are left to `recv` in order |
| `ChatServer.ChatRoom.HandleIntent` | examples/chat/src/server.rs:92-105 | appends a message under the session's name, in a window of 100 |
| `ChatServer.ChatRoom.OnConnect` | examples/chat/src/server.rs:66-84 | enters a session's name, for a plain connection and for a transfer |
| `ChatServer.ChatRoom.OnDisconnect` | examples/chat/src/server.rs:86-90 | takes exactly that session out |
| `ChatServer.ChatRoom.Snapshot` | examples/chat/src/server.rs:107-112 | the last 50 messages and the users |
| `ChatServer.NextInv` | examples/chat/src/server.rs:170-346 | every step of every connection keeps the invariant of room, history, channel and outboxes; what is broadcast and sent on is stated in `ChatFeed` |
| `ChatServer.RunInv` | examples/chat/src/server.rs:170-346 | so every reachable state has it |
| `ChatServer.EveryClientConnects` | examples/chat/src/server.rs:182-255 | whatever others broadcast and wherever a connection breaks off, `connect` succeeds on what it was sent exactly when the snapshot was sent, which it is past the greeting: with the server's manifest and the seq-0 snapshot of the last 50 messages, the client among the users; otherwise the client finds the stream closed early |
| `ChatServer.MessagesCarryNames` | examples/chat/src/server.rs:92-105 | a live connection's message carries its user's name, never "unknown" |
| `ChatServer.RoomShowsSessions` | examples/chat/src/server.rs:66-90 | in every reachable state the room's users are exactly the sessions of the connections in it and of those that broke off after they authenticated, each of one connection |
| `ChatServer.BreaksOffIff` | examples/chat/src/server.rs:205-328 | a connection can break off at every stage until it leaves; the room is not told and its user stays |
| `ChatServer.AbortedUserStays` | examples/chat/src/server.rs:231-336 | a connection that broke off after it authenticated stays among the users for ever, whatever happens later |
| `ChatServer.ChannelSeqsIncreaseIff` | examples/chat/src/server.rs:256-292 | each connection numbers its snapshots 1, 2, 3, ...; the channel's seqs increase if and only if one connection sent them all |
| `ChatServer.FirstMessageHasSeqOne` | examples/chat/src/server.rs:256-292 | from every reachable state a new connection can send a snapshot with seq 1 |
| `ChatFeed.NamesAreGiven` | examples/chat/src/server.rs:199-221 | from the actions alone: each connection goes by the name it authenticated with, and in the room by that of its passport if it brought one |
| `ChatFeed.SessionsCountUp` | examples/chat/src/server.rs:198-200 | sessions are numbered from 1 in the order of authentication |
| `ChatFeed.IntentBroadcasts` | examples/chat/src/server.rs:280-292 | in every reachable state an intent adds one message under the sender's name and broadcasts the last 50 messages, this one included, with the users of that moment; nothing else changes |
| `ChatFeed.HistoryIsSaid` | examples/chat/src/server.rs:92-105 | from the actions alone: the history is what was said, in order, under the senders' names in the room, which keeps the last 100 |
| `ChatFeed.BroadcastsShowHistory` | examples/chat/src/server.rs:280-292 | in every run the k-th snapshot on the channel shows the last 50 of the first k messages said, and there is one for each of them |
| `ChatFeed.JoinsAndLeaves` | examples/chat/src/server.rs:238-346 | in every run a connection has announced its join once it is past it and its leave once it is gone, under its name, and nothing else |
| `ChatFeed.OutboxIsAnswersAndChannel` | examples/chat/src/server.rs:256-328 | in every run what a connection was sent behind its greeting is its direct answers interleaved with the channel from its subscription up to where it has read, less exactly what lags dropped |
| `ChatFeed.SubscribesAtTheEnd` | examples/chat/src/server.rs:255 | a subscription starts at the end of the channel |
| `ChatFeed.LagDrops` | examples/chat/src/server.rs:152 | a lag can take what is unread up to a position with at least 100 items behind it, and nothing else |
| `ChatFeed.NothingLost` | examples/chat/src/server.rs:324-328 | a connection that no lag touched was sent the whole channel from its subscription up to where it has read |
| `ChatFeed.CatchesUp` | examples/chat/src/server.rs:324-328 | from every reachable state a live connection left to itself is sent all that is unread, in order, and then has nothing to receive |
| `ChatFeed.AnswersIff` | examples/chat/src/server.rs:295-318 | a live connection, and only one, can be answered directly at any time with a transfer, an error or a pong, and nobody else notices |
| `ChatFeed.LeavesAndTells` | examples/chat/src/server.rs:332-342 | a live connection can leave at any time: its user and nobody else is taken out, and the channel then tells its name |
| `Base64.Base64Encode` | crates/connectors/interconnect-connector-maillist/src/connector.rs:85-111 | the loop over chunks of three computes the encoding |
| `Base64.PushChunk` | crates/connectors/interconnect-connector-maillist/src/connector.rs:91-107 | four characters that decode to the chunk, with `=` exactly for the bytes it lacks |
| `Base64.QuadDecodes` | crates/connectors/interconnect-connector-maillist/src/connector.rs:91-107 | the four characters of a chunk of one, two or three bytes determine it, by the bit arithmetic of the standard's decoder |
| `Base64.RoundTrip` | crates/connectors/interconnect-connector-maillist/src/connector.rs:85-111 | the decoder of section 4 of RFC 4648 undoes the encoder on every byte string |
| `Base64.Injective` | crates/connectors/interconnect-connector-maillist/src/connector.rs:85-111 | different bytes, different texts |
| `Base64.Shape` | crates/connectors/interconnect-connector-maillist/src/connector.rs:88-108 | 4 characters per 3 bytes begun; `=` exactly on the last 0, 1 or 2 places that the length leaves over; all else from the alphabet |
| `Telegram.TelegramTransport.ProcessBatch` | crates/connectors/interconnect-connector-telegram/src/transport.rs:116-162 | the loop with its three skips processes a batch as the fold does and emits the last snapshot only |
| `Telegram.TelegramTransport.PushMessage` | crates/connectors/interconnect-connector-telegram/src/transport.rs:36-41 | appends, and drops the oldest of more than 50 |
| `Telegram.TelegramTransport.Recv` | crates/connectors/interconnect-connector-telegram/src/transport.rs:81-169 | polls until a snapshot is emitted or a poll fails, takes the state through exactly the polls used, and fails exactly when the last of them did; those before neither failed nor emitted |
| `Telegram.EveryUpdateOnce` | crates/connectors/interconnect-connector-telegram/src/transport.rs:82-123 | against a server that answers from a log with ascending ids, over all polls every update is processed once, in order, none skipped; the offset is one more than the last id |
| `Telegram.WindowOfRun` | crates/connectors/interconnect-connector-telegram/src/transport.rs:36-41 | the buffer is the last 50 of the initial buffer and all accepted texts, and the counter has counted them |
| `Telegram.TextsOfTheChat` | crates/connectors/interconnect-connector-telegram/src/transport.rs:125-152 | exactly the updates with a text of the target chat contribute, each its id, sender, text and date |
| `Telegram.EmittedSeqsIncrease` | crates/connectors/interconnect-connector-telegram/src/transport.rs:154-166 | snapshots are emitted under strictly increasing seqs |
| `Telegram.EmittedIsWindow` | crates/connectors/interconnect-connector-telegram/src/transport.rs:154-166 | a poll emits exactly when it accepts a text, and then the buffer on return |
| `Game.Zone.HandleIntent` | examples/game/src/server.rs:217-309 | the five intents, with every guard, change the zone and answer as the specification says; a transfer changes nothing |
| `Game.Zone.AddPlayer` | examples/game/src/world.rs:139-141 | enters a player, replacing one of the same identity |
| `Game.Zone.RemovePlayer` | examples/game/src/world.rs:143-145 | takes the player out and returns it, or returns None and changes nothing |
| `Game.Zone.ApplyImportPolicy` | examples/game/src/world.rs:117-137 | the pass splits the inventory: accepted and rejected together are the incoming items |
| `Game.IntentConserves` | examples/game/src/server.rs:227-285 | no intent creates or destroys an item of any kind, but for the one potion a successful UseItem drinks |
| `Game.IntentIsOwn` | examples/game/src/server.rs:227-285 | an intent touches no other player, keeps its own player's identity, heals only by a potion and never past the maximum, and moves only within the zone |
| `Game.MoveArrives` | examples/game/src/server.rs:228-233 | a move ends at the position moved to, held within -100..100 on each axis, and changes nothing else |
| `Game.PickUpEffect` | examples/game/src/server.rs:235-255 | the first item with that id, if it is near, leaves the ground and stands in a new last slot; otherwise nothing changes |
| `Game.UseItemEffect` | examples/game/src/server.rs:257-267 | a potion gives 25 points up to the maximum and its slot is gone; anything else changes nothing |
| `Game.DropEffect` | examples/game/src/server.rs:269-285 | the slot's item stands last on the ground, at the player's place and under the tick, and the slot is gone |
| `Game.TicksCount` | examples/game/src/world.rs:147-150 | over any run only ticks move the tick, by one each, and they move nothing else; a zone keeps its name and its rule on weapons |
| `Game.TransferAnswer` | examples/game/src/server.rs:287-308 | the peer and only the peer is answered with the player's own passport; an unknown destination with an error; no other intent is answered |
| `Game.DropThenPickUp` | examples/game/src/server.rs:235-285 | dropping and picking up under the tick restores the ground and gives the item back as one piece, unless an item on the ground had that id: then that one is taken and the dropped one stays |
| `Game.ActionConserves` | examples/game/src/world.rs:139-145 | a join brings its inventory less that of a player it replaces, a leave takes its own, nothing else changes |
| `Game.RunConserves` | examples/game/src/server.rs:227-285 | over any run the items of a kind balance with what was brought, taken and drunk |
| `Game.ClosedZoneConserves` | examples/game/src/server.rs:227-285 | while nobody joins or leaves only potions go, one for each successful drink |
| `Game.TransferKeeps` | examples/game/src/world.rs:33-54 | a transfer keeps the player and every slot but swords that the zone refuses, clamps health to 1..100 and starts at the origin |
| `Game.TransferConserves` | examples/game/src/server.rs:287-307 | a player who transfers, joins with the passport handed out and leaves keeps the items of both zones together, but for refused weapons and those of a player it replaces |
| `Game.PolicyPartitions` | examples/game/src/world.rs:121-127 | no item is lost or doubled by the import policy |
| `Game.RefusesSwords` | examples/game/src/world.rs:117-137 | exactly the swords are refused, by exactly the zones without weapons |
| `Forum.ServerState.CreateThread` | examples/forum/src/server.rs:195-233 | the new state and the thread returned |
| `Forum.ServerState.PostBy` | examples/forum/src/server.rs:63-72 | counts one post more for a user, who is entered with none before |
| `Forum.ServerState.ReplyToThread` | examples/forum/src/server.rs:243-288 | the new state and the reply, or NOT_FOUND and no change; what the state then holds is `ForumRuns.ThreadsAreRequests` |
| `Forum.CreatedInv` | examples/forum/src/server.rs:195-233 | creating a thread keeps the invariant of ids and counters |
| `Forum.RepliedInv` | examples/forum/src/server.rs:243-288 | replying keeps it |
| `Forum.PostCountsAreAuthored` | examples/forum/src/server.rs:63-72 | in every reachable state each user's post count is the threads and replies it authored, and the counts sum to all posts |
| `Forum.IdsAndReplyCounts` | examples/forum/src/server.rs:213-281 | thread ids are 1..n in order, so the lookup finds index id - 1; reply counts are list lengths; reply ids are unique over the forum |
| `ForumRuns.ThreadsAreRequests` | examples/forum/src/server.rs:195-288 | from the requests alone, over every run: the i-th thread is the i-th one created, with its title, body, author and time; its replies are one for each answer to it after that, in order, with its body, author, parent and time; ids count both kinds up from 1 |
| `ForumRuns.UsersAreAuthors` | examples/forum/src/server.rs:63-72 | over every run a user is kept exactly for each author of a thread or accepted answer, with the number of them, since the time of the first |
| `Pagination.PagesCoverList` | examples/forum/src/server.rs:131-143 | pages 1, 2, ... up to the last non-empty one concatenate to the list, and their u32 arithmetic does not overflow |
| `Pagination.PagesArePrefix` | examples/forum/src/server.rs:131-143 | the first n pages are the elements before page n + 1 |
| `Pagination.ElementOnOnePage` | examples/forum/src/server.rs:165-175 | each position is on page i / per_page + 1, at place i % per_page, and on no other page |
| `Pagination.ThreadsNewestFirst` | examples/forum/src/server.rs:131-143 | the thread pages count from the newest thread |
| `Pagination.RepliesInOrder` | examples/forum/src/server.rs:165-175 | the reply pages count in the order of the thread |
| `Pagination.DefaultPages` | examples/forum/src/server.rs:131-143 | without a query the first fifty replies and the twenty newest threads are shown |
| `Pagination.PageFailsIff` | examples/forum/src/server.rs:131-136 | a page fails exactly for page 0 and for a start beyond u32, with `per_page` held to 100 |
| `Matrix.UrlEncode` | crates/connectors/interconnect-connector-matrix/src/transport.rs:189-204 | the byte loop computes the encoding |
| `Matrix.TxnCounter.NextTxnId` | crates/connectors/interconnect-connector-matrix/src/transport.rs:47-51 | the id of the current counter, which then counts on |
| `Matrix.RoundTrip` | crates/connectors/interconnect-connector-matrix/src/transport.rs:189-204 | decoding by sections 2.1 and 2.3 of RFC 3986 undoes it on every byte string |
| `Matrix.Injective` | crates/connectors/interconnect-connector-matrix/src/transport.rs:189-204 | different bytes, different texts |
| `Matrix.OutputIsPathSafe` | crates/connectors/interconnect-connector-matrix/src/transport.rs:191-202 | only unreserved characters and `%` with two hexadecimal digits behind it are emitted |
| `Matrix.UnreservedIs` | crates/connectors/interconnect-connector-matrix/src/transport.rs:191-196 | what is left as it is are exactly the 66 unreserved characters of section 2.3 of RFC 3986 |
| `Matrix.TxnCounter.Sends` | crates/connectors/interconnect-connector-matrix/src/transport.rs:47-51 | the ids of any run of sends are pairwise distinct, and of the fixed shape while the counter stays within u64 |
| `Matrix.TxnIdsDiffer` | crates/connectors/interconnect-connector-matrix/src/transport.rs:47-51 | different counters give different ids |
| `Matrix.TxnIdNumber` | crates/connectors/interconnect-connector-matrix/src/transport.rs:50 | an id read as hexadecimal is its counter |
| `Matrix.TxnIdShape` | crates/connectors/interconnect-connector-matrix/src/transport.rs:50 | the id of a u64 counter has 16 lower-case hexadecimal digits |
| `Irc.ParseMessage` | crates/connectors/interconnect-connector-irc/src/transport.rs:84-118 | a relayed message is read with its sender's nick and its text up to final carriage returns, spaces and colons included, if it is for this channel, and is skipped otherwise |
| `Irc.ComparesLetters` | crates/connectors/interconnect-connector-irc/src/transport.rs:114 | a target is this channel exactly when it has the same letters, the case of ASCII letters aside |
| `Irc.ParseBareMessage` | crates/connectors/interconnect-connector-irc/src/transport.rs:92-118 | a message without a prefix is read with an empty nick |
| `Irc.PaddedTarget` | crates/connectors/interconnect-connector-irc/src/transport.rs:108-117 | white space around the target does not matter, and a message without text is read with an empty one |
| `Irc.NoParameters` | crates/connectors/interconnect-connector-irc/src/transport.rs:103-117 | a message without parameters counts only for a channel without a name |
| `Irc.WhiteSpaceIs` | crates/connectors/interconnect-connector-irc/src/transport.rs:110 | white space is exactly the 25 characters of Unicode White_Space |
| `Irc.ParseOther` | crates/connectors/interconnect-connector-irc/src/transport.rs:106-136 | a line with any other command is skipped |
| `Irc.MessageComesBack` | crates/connectors/interconnect-connector-irc/src/transport.rs:66-118 | sent, relayed as in section 2.3.1 of RFC 1459 and read from the stream, nick and text come back if and only if the text has no newline and does not end in a carriage return |
| `Irc.CutMessage` | crates/connectors/interconnect-connector-irc/src/transport.rs:68-70 | a text with a newline is cut and never read as it was sent |
| `Irc.IrcTransport.PushMessage` | crates/connectors/interconnect-connector-irc/src/transport.rs:35-40 | appends, and drops the oldest of more than 50 |
| `Irc.IrcTransport.SendRaw` | crates/connectors/interconnect-connector-irc/src/transport.rs:42-47 | writes the line with its end, or fails and writes nothing |
| `Irc.IrcTransport.Send` | crates/connectors/interconnect-connector-irc/src/transport.rs:66-73 | writes the text as one PRIVMSG to the channel, or fails and writes nothing |
| `Irc.IrcTransport.Recv` | crates/connectors/interconnect-connector-irc/src/transport.rs:75-139 | the loop answers pings and skips lines up to the next message, the end of the stream, or a read or write that fails, as the specification does |
| `Irc.ServedIsPrefix` | crates/connectors/interconnect-connector-irc/src/transport.rs:87-90 | the events served are all of them, or those in front of the first ping for which no write is left |
| `Irc.Conversation` | crates/connectors/interconnect-connector-irc/src/transport.rs:35-139 | reading a whole conversation, up to its end or the first failing write, gives one snapshot for each message of this channel, in order, numbered without gaps, each of the last 50; other channels and commands give nothing; every ping is answered in order and nothing else is written; then the end or the failure is reported |
| `BoundedWindow.PushKeepsLast` | examples/webchat/src/main.rs:68-70 | push, then drop the oldest over the limit: a window of the last n stays one |

## Left out

- `Daemon.RoomState.Push`: the class has the room's own methods; `dispatch` is modelled as atomic steps on values rather than as an asynchronous method, and wake-ups as a flag on each waiting reader.
- `Daemon.DeliveryInOrderExactlyOnce`: what a reader is handed; a reply lost when its connection breaks after the drain is not modelled.
- The daemon's `List` and `Send` requests, its configuration and its connector tasks.
- `AgentId.IsSubagent`: characters for bytes; the removal of newlines by `$(...)` needs no model here since none survives `tr`.
- `CommandScanner.ExtractCommand`: one awk record, that is, a text without blank lines (`RS = ""`); the split of the input at `"tool_input":` before it.
- `CommandDecoder.RunSubstitutions`: one awk record, which a raw JSON string always is, since it has no newline in it.
- The other hooks: plan mode, the tokenizer, the git verbs, the deny policy and `extract-field.awk`.
- `Calendar.ClosedFormIsCount`: years up to 500 000 000 000, below which no u64 or i64 operation of either parser overflows; above, the closed form's overflow depends on the build.
- `Calendar.UnderflowIff`: the same years, and months and days up to 10 000 000 000 000 000, below which only underflow can occur.
- `Calendar.DaysFromEpoch`: its first loop is a method of its own, `AddYears`.
- `Timestamps.ParsersAgree`: inputs are ASCII, so that byte and character positions agree; days before 1970 are left out on both sides.
- `Webchat.BroadcastsAreNumbered`: the counter does not wrap around at 2^64; JSON encoding, pings and the HTTP side are left out.
- `ChatServer.ChatRoom.Snapshot`: users by session instead of a list of names in hash order.
- `ChatServer.NextInv`: a receiver may lag whenever at least 100 items stay unread, which the channel's capacity of 100 promises; how much more its library keeps is not part of this model. The passport's rejection notice, which the chat never sends, and the content of transfers are left out.
- `Handshake.Connect`: messages are already decoded or marked as not decodable; serialisation is left out.
- `Base64.RoundTrip`: the decoder accepts nonzero bits under the padding, which section 3.5 of RFC 4648 lets it refuse; the encoder never emits them.
- `Telegram.TelegramTransport.Recv`: a poll's answer is decoded; defaults for missing fields, i64 overflow and the HTTP call are left out.
- `Telegram.EveryUpdateOnce`: the server may answer with any number of the next updates, or fail, at every poll; it does not withdraw updates.
- `Game.Zone.HandleIntent`: positions are reals, and whether an item is near enough to pick up is part of the intent, so that no claim depends on how the distance is rounded; unsigned overflow, sending the answer and item spawning are left out.
- `Game.RunConserves`: counts slots, not stack counts, which Drop and UseItem do not keep; ground-item ids are not unique in the code and are not claimed to be.
- `Forum.ServerState.CreateThread`: the clock is a parameter, identities are their printed names, counters do not overflow; reputation, import and profiles are left out.
- `Pagination.PagesCoverList`: `per_page` from 1 to 100 and lists within u32; page 0 and products beyond u32 give None.
- `Matrix.TxnCounter.Sends`: the counter does not wrap around at 2^64; sync and sending are left out.
- `Irc.IrcTransport.Recv`: the text of the stream, whether it breaks off, and how many writes succeed are known; bytes that are not UTF-8, registration and the JSON envelope are left out.
- Change detection in the GitHub, Zulip, mailing-list and SQLite connectors, manifests, presets, the command line and the remaining connectors: plumbing around network libraries, or rules of code that is not in the repository.
