# node_chat in Dafny

A model of the core of node_chat, a long-poll chat server for Node.js. It has
three parts.

- **The Redis client of `redis.js`.** The request encoders and `_send` queue
  one pending handle per request and write the request in the old Redis
  request format (`CMD key <len>` CRLF `value` for the commands that carry a
  value). The "receive" handler is a resumable parser over a growing string
  buffer. It completes the pending handles in send order.
  - `RedisWire` describes the handler's state (`buffer`, `count`, `n`,
    `result`, the handle queue and the log of completions) as a value. `Step`
    is one turn of its `while (true)` loop. `Drain` and `Feed` are what a whole
    delivery does.
  - `RedisClient.Client` is the object itself. Its fields are the handler's
    captured variables. `Receive` runs the loop and is proved equal to `Feed`.
  - `RedisReplies` writes the server's replies out in the wire format. It
    proves the decoding theorem: any run of well-formed replies, split into
    deliveries at any point, completes the oldest handles one per reply with
    the value each reply carries.
- **The chat engine of `server.js`.** `Chat.Channel` holds a member table, a
  member count and the channel's Redis list as an in-memory `log`.
  `Chat.Session` holds at most one parked long-poll callback and a queue of
  system messages. `Chat.Server` owns the `channels` and `sessions` tables. It
  creates sessions, moves them between channels, destroys them, and sweeps
  out idle ones. Its invariant says that every session is a member of exactly
  its own channel and that nicks are unique. `ChatCommands` models the `/who`
  command.
- **The browser helpers of `client.js`.** `ChatClient` holds the HTML
  escaping, zero padding, clock string and blank test of `util`, the command
  history behind the up and down keys, and the newest message time.

Clocks (`new Date()`) and the random session id are parameters. A long-poll
callback is a poll number. Each invocation of a callback is recorded in the
session's `answers` log. A Redis promise is a handle number, and its
completion is recorded in the client's `completed` log. Integers are
unbounded: the source does arithmetic only on lengths, counts and
timestamps, so no wrap-around is modelled. JavaScript numbers are doubles:
above 2^53 they lose precision, and from 10^21 up `toString` writes an
exponent. The model covers the integers below those bounds; see
`JsText.ParseIntToString` under "Left out".

The model keeps these behaviours of the code, which a reader might not
expect:
- A new parked callback silently replaces an earlier one (`server.js:156`). It
  is not answered first.
- `destroy` leaves a parked callback of the session unanswered
  (`server.js:133-136`).
- Channels keep no pending-wait registry. A poll that finds nothing parks on
  the session, and appends reach it through the channel's member table.
- `Channel.query(since)` answers `log[since..]`, which includes the message
  at position `since`, and only when `since < length - 1`.
- There is only one level of array state in the reply parser. `*0` completes
  nothing. An unknown tag byte drops its line without failing any handle.

## Model

| member | source | states |
|---|---|---|
| `RedisClient.Client.constructor` | redis.js:11-24 | A new client has an empty buffer, owes no bulk data or array elements, has no pending handles and no completions, and has written nothing. |
| `RedisClient.Client.Send` | redis.js:108-113 | `_send` appends exactly one new handle to the tail of the queue and writes the command followed by CRLF. The parser state and the completions do not change, and issued handles stay completed-then-pending in issue order. |
| `RedisClient.Client.Ping` | redis.js:121-123 | Queues one handle and writes `PING` CRLF. |
| `RedisClient.Client.Set` | redis.js:127-129 | Queues one handle and writes `SET key <value.length>` CRLF `value` CRLF. |
| `RedisClient.Client.Get` | redis.js:131-133 | Queues one handle and writes `GET key` CRLF. |
| `RedisClient.Client.GetSet` | redis.js:135-137 | Queues one handle and writes `GETSET key <value.length>` CRLF `value` CRLF. |
| `RedisClient.Client.Incr` | redis.js:141-146 | Queues one handle and writes `INCRBY key step` when the step is non-zero (truthy), `INCR key` otherwise. |
| `RedisClient.Client.Decr` | redis.js:148-153 | Queues one handle and writes `DECRBY key step` when the step is non-zero, `DECR key` otherwise. |
| `RedisClient.Client.DbSize` | redis.js:159-161 | Queues one handle and writes `DBSIZE` CRLF. |
| `RedisClient.Client.RPush` | redis.js:167-169 | Queues one handle and writes `RPUSH key <value.length>` CRLF `value` CRLF. |
| `RedisClient.Client.LPush` | redis.js:171-173 | Queues one handle and writes `LPUSH key <value.length>` CRLF `value` CRLF. |
| `RedisClient.Client.LLen` | redis.js:175-177 | Queues one handle and writes `LLEN key` CRLF. |
| `RedisClient.Client.LRange` | redis.js:179-181 | Queues one handle and writes `LRANGE key from to` CRLF, with both bounds in base 10. |
| `RedisClient.Client.Select` | redis.js:188-190 | Queues one handle and writes `SELECT index` CRLF. |
| `RedisClient.Client.Move` | redis.js:192-194 | Queues one handle and writes `MOVE key index` CRLF. |
| `RedisClient.Client.FlushDb` | redis.js:196-198 | Queues one handle and writes `FLUSHDB` CRLF. |
| `RedisClient.Client.FlushAll` | redis.js:200-202 | Queues one handle and writes `FLUSHALL` CRLF. |
| `RedisClient.BulkRequestReadBack` | redis.js:127-129 | A value-carrying request plus the CRLF of `_send` reads back as the command, the key and the whole value: the line's last word is the value's length, and the value is followed by exactly CRLF, whatever characters it holds. |
| `RedisClient.InlineRequestsReadBack` | redis.js:141-153 | The inline requests split at spaces into the command and its arguments, with numbers in base 10. `INCRBY`/`DECRBY` appear exactly when the step is non-zero. |
| `RedisClient.Client.CompleteOldest` | redis.js:36-36 | `callbacks.shift().emitSuccess/emitError`: completes the oldest pending handle and no other. With no handle pending it throws and changes nothing. |
| `RedisClient.Client.ReplyWith` | redis.js:27-38 | The inner `reply(obj)` does what `RedisWire.Reply` specifies: inside an array it stores the element and counts it down, and it completes the oldest handle when no element is owed. |
| `RedisClient.Client.HandleLine` | redis.js:64-102 | The tag switch on one reply line does what `RedisWire.LineAction` specifies and leaves the buffer alone. |
| `RedisClient.Client.Turn` | redis.js:43-103 | One loop turn does what `RedisWire.Step` specifies: it waits with nothing changed, goes round again, or throws. |
| `RedisClient.Client.Receive` | redis.js:26-105 | The "receive" handler appends the data and runs the loop. Its final state and whether it threw equal `RedisWire.Feed` of the old state. It keeps the issued handles complete-then-pending in issue order and writes nothing. |
| `RedisClient.DrainKeepsIssued` | redis.js:34-37 | A delivery moves handles from the front of the queue to the completion log and loses or reorders none. |
| `RedisWire.IndexOfCrlf` | redis.js:56-56 | `buffer.indexOf(CRLF)` is the first CRLF position, or -1 when there is none. |
| `RedisWire.Substring` | redis.js:49-50 | JavaScript `substring` equals the slice for in-range bounds and is never longer than the string. |
| `RedisWire.Resolve` | redis.js:36-36 | Completing the oldest handle throws exactly when none is pending. Otherwise it removes the head of the queue and logs its outcome. |
| `RedisWire.Reply` | redis.js:27-38 | `reply` never touches the buffer or the bulk count. It completes at most the oldest pending handle. |
| `RedisWire.LineAction` | redis.js:64-102 | Every case of the tag switch completes at most the oldest handle and leaves the buffer alone. |
| `RedisWire.Step` | redis.js:42-104 | A turn either waits with the state unchanged, or consumes part of the buffer and completes at most the oldest pending handle. |
| `RedisWire.DrainIsFifo` | redis.js:34-37 | Handles complete strictly in send order. The log only grows, and the new entries are the handles that left the front of the queue, oldest first. |
| `RedisWire.StepWaits` | redis.js:43-60 | A turn waits exactly when, in bulk mode, fewer than `count` characters are buffered, or, in line mode, no CRLF is buffered. |
| `RedisWire.FeedPartial` | redis.js:41-59 | A delivery that completes no line, or not all the owed bulk data, only extends the buffer and completes nothing. |
| `RedisWire.FeedSplit` | redis.js:26-105 | Splitting the input at any point gives the same final state and completions as feeding it whole, whenever the whole input does not throw. |
| `RedisWire.LineStep` | redis.js:56-63 | A reply line hands exactly its tag and its text (without the CRLF) to the tag switch, and the rest of the buffer is kept. |
| `RedisWire.StatusReply` | redis.js:65-68 | `+text` CRLF replies with the text between the tag and the CRLF. |
| `RedisWire.IntegerReply` | redis.js:69-72 | `:k` CRLF replies with the integer `k`, read in base 10. |
| `RedisWire.ErrorReply` | redis.js:96-98 | `-text` CRLF fails the oldest handle with the text, even in the middle of an array, and leaves the array state alone. |
| `RedisWire.BulkHeader` | redis.js:73-82 | `$k` CRLF with k >= 0 switches to bulk mode owing k + 2 characters and completes nothing. |
| `RedisWire.BulkBody` | redis.js:43-53 | In bulk mode, a turn waits until k + 2 characters are buffered. It then replies with the first k and consumes all k + 2. |
| `RedisWire.NullBulkReply` | redis.js:76-78 | `$-1` CRLF replies with null. |
| `RedisWire.MultiHeader` | redis.js:84-94 | `*k` CRLF with k != -1 starts a fresh array owing k elements and completes nothing. A partial enclosing array is dropped, because there is one level only. |
| `RedisWire.EmptyMultiCompletesNothing` | redis.js:84-93 | `*0` sets `n` to 0 and completes nothing. The handle waits for the next reply. |
| `RedisWire.NullMultiReply` | redis.js:85-89 | `*-1` CRLF sets `n` to 0 and completes the oldest handle with null. |
| `RedisWire.UnknownTag` | redis.js:100-101 | A line with an unrecognised tag is consumed, and nothing else changes. |
| `RedisWire.ArrayElement` | redis.js:28-37 | Inside an array, a reply is stored. The last element completes the oldest handle with the whole array in arrival order. |
| `RedisReplies.ElementDecodes` | redis.js:43-83 | A status, integer, bulk or null-bulk reply is read whole and handed to `reply` with its value. |
| `RedisReplies.ElementsDecode` | redis.js:27-38 | The elements of a multi-bulk reply are stored in order. The last one completes the oldest handle with the array of all of them. |
| `RedisReplies.ReplyDecodes` | redis.js:42-104 | One well-formed reply completes the oldest pending handle with the reply's outcome and consumes exactly its own text. |
| `RedisReplies.DecodeAll` | redis.js:26-105 | A buffer of well-formed replies, with enough handles pending, completes the oldest handles one per reply, in order, each with its reply's outcome. It does not throw and ends idle with an empty buffer. |
| `RedisReplies.DecodeAnySplit` | redis.js:41-59 | The same replies split across two deliveries at any point complete the same handles with the same outcomes. |
| `RedisReplies.Examples` | redis.js:61-83 | `+OK`, `:5` and `$3 abc` complete three pending handles in order with "OK", 5 and "abc". |
| `JsText.ParseIntToString` | redis.js:71-71 | `parseInt(k.toString(), 10) == k` for every integer, so numbers printed in requests and replies read back unchanged. |
| `JsText.IntToString` | redis.js:128-128 | `value.length` is printed without a sign or white space in front, with a leading `-` exactly for negative numbers. |
| `Chat.RangeToEnd` | server.js:80-80 | `LRANGE key start -1` gives the list from `start` to the end, counting a negative start from the end and clamping it at 0. |
| `Chat.Channel.constructor` | server.js:22-27 | A new channel has its name, no members, a count of 0 and an empty log. |
| `Chat.Channel.GetNumberOfMembers` | server.js:47-49 | The member count equals the size of the member table. |
| `Chat.Channel.GetMembers` | server.js:51-58 | Lists each member's nick exactly once, so the list's length equals `getNumberOfMembers()`. |
| `Chat.Channel.Broadcast` | server.js:70-73 | Every member's parked callback, if any, is answered once with the messages. No callback is parked. |
| `Chat.Channel.AppendMessage` | server.js:60-75 | The message gets index equal to the log's old length and goes at the end of the log. Every current member is delivered `[m]`. Every log entry keeps its position as index. |
| `Chat.Channel.Join` | server.js:29-36 | A non-member is added and counted, and a "join" message is logged and delivered to all members, itself included. A member already in changes nothing. The count stays equal to the table size. |
| `Chat.Channel.Leave` | server.js:38-45 | A member is removed and uncounted, and a "part" message is logged and delivered to the remaining members only. A non-member changes nothing. |
| `Chat.Channel.Query` | server.js:77-94 | Gives `log[since..]` when `since` is below the last position, and nothing otherwise (also for a NaN `since`). It reads the log and never changes it. |
| `Chat.Session.constructor` | server.js:114-128 | A new session has its id, its nick, its channel and the current time, with no parked callback and no queued messages. |
| `Chat.Session.Poke` | server.js:129-131 | Sets the session's timestamp to now. |
| `Chat.Session.Deliver` | server.js:162-167 | A parked callback is answered exactly once with the messages and cleared. With nothing parked, nothing happens. |
| `Chat.Session.SendSystemMessage` | server.js:169-182 | A "system" message goes to a parked callback when there is one, or else is queued. Never both. |
| `Chat.Session.QueryAsWritten` | server.js:146-160 | As written: queued system messages are handed over and the call then throws, leaving the queue full. Otherwise a non-empty channel answer goes to the callback, and an empty one parks the callback, replacing any earlier one. |
| `Chat.Session.Query` | server.js:146-160 | Queued system messages are handed over and the queue emptied, without reading the channel. Otherwise it answers from the channel or parks, as above. |
| `Chat.SystemMessageTwice` | server.js:147-150 | A queued system message, with `query` as written, reaches two successive polls. |
| `Chat.SystemMessageOnce` | server.js:147-150 | With the queue emptied, the second poll does not receive the system message again. |
| `Chat.MemberOfOneChannel` | server.js:138-144 | Under the server invariant, a session is a member of its own channel and of no other. |
| `Chat.Server.constructor` | server.js:101-103 | The server starts with the default channel, empty, and no sessions. |
| `Chat.Server.SessionSeated` | server.js:194-195 | Every stored session is filed under its id and is a member of its channel, which is stored under its name. |
| `Chat.Server.ChannelMembers` | server.js:29-45 | Every member of a stored channel is a live session filed under the same id. |
| `Chat.Server.CreateChannel` | server.js:22-98 | A fresh, empty channel is stored under its name. Nothing else changes. |
| `Chat.Server.FindNick` | server.js:109-112 | The loop over `sessions` finds the nick exactly when some stored session has it. |
| `Chat.Server.CreateSession` | server.js:105-197 | Returns none exactly when the nick is longer than 50, holds a character outside letters, digits and `_ - ^ !`, or is in use, and then changes nothing. Otherwise the new session is stored under its id and joins the default channel, which logs and delivers "<nick> joined". |
| `Chat.Server.AddSession` | server.js:194-196 | The accepted session is stored and becomes a member of the default channel, with its join announced. |
| `Chat.Move` | server.js:139-143 | The session leaves its channel, which logs "left <old>" and delivers it to the members that remain. It then points at the existing target, which gains it and logs "enters <new>", delivered to all its members, the session included. Both channels stay consistent. |
| `Chat.MoveToNew` | server.js:139-143 | As `Chat.Move`, but the target is created after the leave: a fresh channel whose only member is the session and whose log is the one "enters <new>" message, delivered to the session. |
| `Chat.Server.SwitchTo` | server.js:138-144 | Switching to the current channel's name changes nothing. Otherwise the old channel loses the session and announces "left <old>" to the members that remain. The target gains it and announces "enters <new>" to all its members; when no channel has the name, a fresh one is filed under it and the session receives "enters <new>". The invariant holds after, so the session is a member of exactly the target. By the `modifies` clause, no other channel and no session outside the two channels changes. A name is looked up as an own key of the table. |
| `Chat.Server.SwitchToExisting` | server.js:138-144 | `switchTo` to a channel already filed: the table of channels is unchanged, and the leave and join are announced as in `Chat.Move`. |
| `Chat.Server.SwitchToNew` | server.js:138-144 | `switchTo` to a name not filed: the new channel is filed under the name, with the outcome of `Chat.MoveToNew`. |
| `Chat.Server.SwitchToAsWritten` | server.js:139-142 | As written, with `channels` a plain object: the call throws exactly when the name differs from the current channel's, is not filed, and is a property of `Object.prototype`. Then the session has left its channel with "left <old>" and is a member of no channel. Then `channels` and `sessions` are as before, and the session's own callback and answers are untouched. Otherwise it has every outcome `SwitchTo` states: nothing changes for the same name; for an existing channel the session is added and "enters <name>" announced; for a new name a fresh channel is filed holding only the session, whose log is that one join message, delivered to it. |
| `Chat.Server.Strand` | server.js:140-140 | The leave that runs before the throw: the old channel loses the session and announces "left <old>", and no channel holds the session. The session's own callback and answers are untouched. |
| `Chat.Server.Homed` | server.js:138-144 | Under the server invariant, no channel other than the session's own has it as a member. |
| `Chat.Server.Existing` | server.js:141-141 | The channel found under another name is consistent, agrees with the tables, does not hold the session, and shares no member session with the session's channel. |
| `Chat.Server.SessionsApart` | server.js:29-45 | Two channels filed under different names have no member session in common. |
| `Chat.Server.File` | server.js:97-97 | `channels[name] = channel` files the channel under its name with an empty row in the tables, and the invariant is kept. |
| `Chat.Server.Destroy` | server.js:133-136 | The session leaves its channel, "<nick> parted" is announced to the rest, and it is removed from `sessions`. Its own parked callback is not answered. |
| `Chat.Server.Validate` | server.js:184-191 | A session idle longer than `SESSION_TIMEOUT` is destroyed: it leaves its channel, "<nick> parted" is announced to the rest, and it is removed from `sessions`. Otherwise a callback parked longer than `CALLBACK_TIMEOUT` is answered with `[]`. When neither is due, nothing changes. When the session is not idle too long, no other session's callback or answers change. No session anywhere gets a new parked callback, and each is answered at most once, with its old parked poll. |
| `Chat.Server.Sweep` | server.js:200-206 | Visiting every session once leaves exactly the sessions not idle too long. No surviving session keeps a stale callback, and the invariant holds. No session gets a new parked callback: each is either untouched or answered exactly once, with the poll it had parked, and keeps its timestamp. A session whose callback was not stale, in a channel where no session was idle too long, is untouched. Each channel's log keeps its entries and gains only "<nick> parted" messages stamped with the sweep's time, and a channel where no session was idle too long keeps its log unchanged. |
| `ChatCommands.WithoutCounts` | server.js:290-295 | Dropping one's own nick keeps every other nick as often as it occurs and removes every copy of one's own. |
| `ChatCommands.OtherNicks` | server.js:290-295 | The loop copies every nick but the session's own, in order. |
| `ChatCommands.AloneExactly` | server.js:297-298 | The "all alone" text is given exactly when no one else is listed. |
| `ChatCommands.Who` | server.js:286-300 | The session is told, as a system message, the other members' nicks in listing order. |
| `ChatClient.ToStaticHtmlEscapes` | client.js:13-17 | The three global replacements, `&` first, escape each character exactly once: `&`, `<` and `>` become `&amp;`, `&lt;` and `&gt;`, and every other character is kept. |
| `ChatClient.StaticHtmlHasNoTags` | client.js:13-17 | The escaped text holds no `<` or `>`. Text with no `&`, `<` or `>` comes back unchanged. |
| `ChatClient.ZeroPad` | client.js:19-24 | Left-pads with `'0'` to at least `digits` characters. It is unchanged when already long enough and always ends with the original string. |
| `ChatClient.TwoDigits` | client.js:19-24 | A number in 0..99, printed and padded to two, is two digits that read back as the number. |
| `ChatClient.TimeStringShape` | client.js:26-30 | For hours and minutes in 0..99 the clock string is exactly 5 characters, `hh:mm`, and each half reads back as its number. |
| `ChatClient.BlankExactly` | client.js:32-35 | Blank exactly when the text is empty or all white space. |
| `ChatClient.DropsFirstNewline` | client.js:131-131 | `replace("\n", "")` removes the first line feed only and keeps everything around it. |
| `ChatClient.Client.constructor` | client.js:88-90 | The history starts as `[""]` with the cursor at 0. |
| `ChatClient.Client.HandleKeyPress` | client.js:92-144 | Tab leaves the history alone. It leaves an entry of several words as it is unless a completion is under way; otherwise it starts one and shows `": "`, since no nick ever matches. Any other key ends the completion. Up and down move the cursor, clamped at `length-1` and 0, so 0 <= index < length is kept. Any other key stores the entry, first line feed removed, as `history[0]` and resets the cursor. Return also sends non-blank text and prepends `""`. |
| `ChatClient.Client.TrackLatest` | client.js:149-153 | `last_message_time` becomes `Latest` of itself and the batch's timestamps. |
| `ChatClient.LatestIsMaximum` | client.js:152-153 | The newest time never decreases. It is at least every timestamp received, and is one of them or the old value. |

## Left out

- The TCP connection, its encoding and timeout, the connect listener, and `close`/`QUIT` (redis.js:11-22, 115-119) are socket I/O. `_send` records the written text in `sent` instead.
- Connection loss failing all pending handles is not in the source and is not modelled.
- A reply that arrives with no handle pending makes `callbacks.shift()` undefined, and the handler throws. The model records the throw and keeps the state at that point. `RedisWire.FeedSplit` therefore requires that the whole input does not throw.
- The two round trips to Redis are not modelled: `llen` then `rpush` in `appendMessage`, and `llen` then `lrange` in `query` (server.js:78-80). Each append and each query is atomic over the in-memory log. Two appends racing between their `llen` and `rpush` could otherwise share an index, and a query could see a list that changed between its `llen` and its `lrange`.
- `JSON.stringify`/`JSON.parse` of messages are left out. The log stores `Message` values directly.
- `Math.random` ids and `new Date()` are parameters. `Chat.Server.CreateSession` requires the id to be unused, so id collisions are not modelled.
- The HTTP routes, `fu` static handlers and `simpleJSON` responses (server.js:208-270, 314-340) are network plumbing, as is the `setInterval` timer itself. The sweep is a method taking `now`.
- `Chat.Server.SwitchToAsWritten`: after the throw, the program stores the value found (a function, or `Object.prototype` itself) in `session.channel`. The model cannot store a non-channel there and leaves `s.channel` at the old channel. What happens to the `/send` request and to the process after the uncaught TypeError is left out. The command table's own inherited names (`commands[match[1]]` finding, for example, `constructor`) are left out with the rest of the command table.
- The `/send` regex tokenising and the command table entries other than `who` (`join`, `leave`, `whoami`, `where`, `channels`, `flush`, `help`) are left out. They call `SwitchTo`, `SendSystemMessage` and `FlushDb`, which are modelled.
- `sys.puts` and `dbg` logging are left out.
- The DOM, jQuery and ajax parts of client.js are left out. So are the `urlRE` link rewriting and nick highlighting, which depend on the regex engine.
- `matchingNicks` always returns `[]` (client.js:79-81), so the completion list is modelled only as whether one is under way.
- `Chat.Channel.GetMembers`: the `for-in` order of the member table is not modelled. The nicks come in some order given by the ghost `order` result.
- `Chat.Server.Sweep`: the sessions are visited in an unspecified order, as a `for-in` would.
- `ChatClient.Client.HandleKeyPress`: `entry` stands for the `#entry` box, and the text shown and sent are returned as an `Effect`.
- `ChatClient.TimeStringShape` takes the hours and minutes as integers rather than a `Date`.
- `nick.length` and `value.length` count UTF-16 code units in JavaScript and characters here. The two differ only for characters outside the Basic Multilingual Plane. The nick check rejects those anyway. A value holding one would get a different length line in the bulk requests of `RedisClient.Client.Set`, `GetSet`, `RPush` and `LPush` (redis.js:128, 136, 168, 172): the model writes its length in characters.
- `JsText.ParseIntToString` holds for every integer of the model. In JavaScript it holds only up to 2^53, where numbers stop being exact, and below 10^21, where `toString` switches to exponent notation.
- `Chat.Server.Sweep`: answering a poll also pokes the session. The `/recv` callback calls `session.poke()` before it responds (server.js:265-268), so every delivery, broadcast and stale `[]` answer sets the answered session's timestamp to the time of the answer. The model answers without poking: `Chat.Session.Deliver` leaves `timestamp` alone, and `Sweep` judges every session by the timestamp it had when the sweep began. A session whose poll is answered with `[]` at t=31 and that never polls again is kept by the program until after t=91; the model destroys it at t=61. Deliveries during a sweep likewise refresh, in the program, sessions visited later in the same sweep.

## Findings

| source | as written | input that shows it | evidently intended | confidence | as-written member | corrected member |
|---|---|---|---|---|---|---|
| server.js:147-150 | `this.systemMessages.clear()` calls a method JavaScript arrays do not have, so it throws after the callback ran and the queue is never emptied | a session with one queued system message polls: the poll is answered, then the call throws and the queue stays full; if the process survives the uncaught exception, a second poll receives the message again | hand the queued messages over once and empty the queue | medium, not executed (fu.js, which could extend `Array.prototype`, is not part of this model) | `Chat.SystemMessageTwice` | `Chat.SystemMessageOnce` |
| server.js:139-142 | `channels[channelName] \|\| createChannel(channelName)` looks the name up in a plain object, which also finds the properties of `Object.prototype`; the value found is truthy, so no channel is created, and calling its `join` throws a TypeError after the session has left its channel | `/join toString` from a session in `default`: "left default" is announced, the session is removed from `default`'s members, and the call throws; the session is then a member of no channel while `sessions` still holds it | look up own keys only, as the `channels` command does with `hasOwnProperty` (server.js:280), so that such a name gets a channel of its own | high, not executed | `Chat.Server.SwitchToAsWritten` | `Chat.Server.SwitchTo` |
