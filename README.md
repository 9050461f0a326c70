# mpv JSON IPC client: reply/event demultiplexer

simulcast-mpv talks to the mpv media player over mpv's JSON IPC socket
(`src/mpvipc.rs`). One socket carries two kinds of lines: replies to the
client's requests and asynchronous event objects (objects with an `"event"`
key). The `Mpv` client sorts them apart:

- `send` writes a request and then reads lines until the first value that is
  not an event. Events it meets on the way are parked at the back of an
  optional FIFO (`event_queue`), or dropped when queueing is off.
- `listen_for_event` hands out the front of that FIFO first. Only when the
  FIFO is empty does it read the socket, discarding replies until an event.
- `events(enabled)` turns queueing on (keeping any queue) or off (discarding it).

This project models that client in Dafny and proves what it promises. Replies
are never taken for events, and events are never taken for replies. Through
`send`, `listen_for_event` and `events`, no event is lost or reordered while
queueing is on. The public `read_line` and `read_value` bypass the queue; the
model states exactly when a direct read keeps that promise and when it breaks
it. The project also models the small helpers that shape the data: the trim
in `read_line`, the success test in `get_property`, the argument list of
`show_text`, and the Windows pipe-name rule of `connect`.

Files and modules:

- `values.dfy` (`Values`): JSON values, errors, results, the 32-bit integer
  types, and what makes a value an event.
- `text.dfy` (`Text`): Rust's `trim_end` over Unicode white space, and the
  decimal `to_string` of integers, each with its read-back.
- `pipes.dfy` (`Pipes`): the pipe name `connect` computes as written, and the
  corrected rule (see Findings).
- `wire.dfy` (`Wire`): the specification of reading. A line stream is scanned
  for the next reply or the next event (`ScanFor`), and the events on a stretch
  of the stream are collected (`EventsIn`).
- `mpv.dfy` (`MpvIpc`): the class `Mpv`. Its fields are the raw lines mpv
  writes (`input`), the read position (`pos`), the log of requests written
  (`written`) and the optional event queue (`eventQueue`). Its methods follow
  the source loop for loop. The module also holds the "no event lost" account
  (`Accounts`) and one lemma per operation showing whether the operation keeps it.

How the socket is modelled. The incoming side is a fixed sequence of raw lines
and a read position. `serde_json::from_str` is a parameter of the connection
(`decode`). It must reject the empty string, as serde does. So the `""` that
`read_line` returns at end of stream reads as an error, exactly as in the
source. A read at the end of the stream consumes nothing.

The rest of the repository does not yet build on this client: `src/server.rs`
is an empty function, and `src/client.rs` drives mpv through the external
`mpvipc` crate and a websocket loop with an empty body. So the model covers the
client of `src/mpvipc.rs` alone. The event queue exists so that events
arriving between a request and its reply are not silently dropped. The code
keeps this promise only while queueing is on: `MpvIpc.SendAccounts` proves that
`send` keeps the account if and only if queueing is on or no event arrived.

The doc comment of `read_line` says it trims a trailing newline. The code
trims all trailing white space, and the model follows the code
(`Text.TrimEndIgnoresTrailingWhitespace`).

## Model

| member | source | states |
|---|---|---|
| `Text.TrimEnd` | src/mpvipc.rs:52 | the trimmed line is a prefix of the raw line, it does not end in white space, and everything cut off is white space |
| `Text.TrimEndUnique` | src/mpvipc.rs:52 | those three properties determine the trimmed line: any prefix that has them is the trim |
| `Text.TrimEndIgnoresTrailingWhitespace` | src/mpvipc.rs:48-54 | any run of trailing white space is removed, not only one newline: appending white space does not change the result |
| `Text.TrimEndIdempotent` | src/mpvipc.rs:52 | trimming a trimmed line changes nothing |
| `Text.NatToDecimal` | src/mpvipc.rs:147-151 | the `to_string` of a `u32` level is a non-empty string of digits, with a leading zero only for 0 |
| `Text.IntToDecimal` | src/mpvipc.rs:141-145 | the `to_string` of an `i32` duration is a minus sign exactly when the number is negative, then at least one digit, with a leading zero only for 0 |
| `Text.NatToDecimalRoundTrip` | src/mpvipc.rs:151 | reading the decimal text of a level back gives the level |
| `Text.IntToDecimalRoundTrip` | src/mpvipc.rs:145 | reading the signed decimal text of a duration back gives the duration |
| `Pipes.PipeNameAsWritten` | src/mpvipc.rs:23-27 | the name `connect` builds: the argument itself off Windows or when it already starts with `\\.\pipe\`; otherwise exactly the prefix `\\.pipe\` followed by the argument |
| `Pipes.PipeNameAsWrittenMissesNamespace` | src/mpvipc.rs:23-24 | as written, the Windows name for "mpvsocket" is `\\.pipe\mpvsocket`: it is outside the pipe namespace, and applying the rule to it prefixes it again |
| `Pipes.PipeName` | src/mpvipc.rs:23-27 | the corrected rule: on Windows a bare name becomes exactly `\\.\pipe\` followed by the argument; a name already in that namespace, or any name elsewhere, is used unchanged |
| `Pipes.PipeNameIdempotent` | src/mpvipc.rs:23-27 | applying the corrected rule to its own result changes nothing |
| `Pipes.PipeNameAsWrittenDiffers` | src/mpvipc.rs:23-24 | the corrected and the as-written rule give the same name exactly when no prefix is added: off Windows, or for a name already in the namespace |
| `Values.Get` | src/mpvipc.rs:75 | `get(key)` finds a field exactly when the value is an object holding the key, and then yields that field |
| `Values.IsEventIsGetSome` | src/mpvipc.rs:75 | a value counts as an event exactly when `get("event")` finds something; an object whose "event" is `null` counts, although indexing it gives `null` |
| `Values.Index` | src/mpvipc.rs:121-122 | `v[key]` is the field of an object holding the key, and `null` for a missing key or a value that is not an object |
| `Wire.ReadAt` | src/mpvipc.rs:57-60 | a read succeeds only before the end of the stream, because the empty line at the end does not decode |
| `Wire.ScanFor` | src/mpvipc.rs:72-82 | a scan stops at a read at or before the end of the stream (the failing read at the end included), returns what that read gave, and a value it returns has the event-ness asked for; it passes over one value per line before the stop |
| `Wire.ScanForPassed` | src/mpvipc.rs:72-82 | the values a scan passes over are the decoded lines before its stop, in order, and none of them has the event-ness asked for |
| `Wire.ScanForUnique` | src/mpvipc.rs:107-112 | conversely, a run of unwanted values followed by an error or a wanted value is exactly what the scan finds; `listen_for_event` closes its loop with it, and `send` does the same at its loop exit (src/mpvipc.rs:72-82) |
| `Wire.ScanEvents` | src/mpvipc.rs:72-82 | the events on the lines a reply scan consumes are exactly the values it passes over; an event scan consumes no event but the one it returns |
| `MpvIpc.TrimmedAt` | src/mpvipc.rs:49-54 | the line `read_line` returns at position i is raw line i trimmed |
| `MpvIpc.ToggledIdempotent` | src/mpvipc.rs:40-46 | `events(b)` twice is `events(b)` once; enabling keeps the queued events, disabling leaves none |
| `MpvIpc.PropertyValue` | src/mpvipc.rs:120-125 | the reply is accepted if and only if it is an object whose "error" is the string "success"; the value is its "data" (Null if absent); otherwise the error carries the reply |
| `MpvIpc.ShowTextArgs` | src/mpvipc.rs:137-152 | the command is "show-text" and the text, then the duration in decimal if given, then the level in decimal if given, and nothing else |
| `MpvIpc.ShowTextArgsReadBack` | src/mpvipc.rs:141-152 | the duration and the level in the command read back as the numbers the caller passed |
| `MpvIpc.ParkedAppend` | src/mpvipc.rs:76-78 | parking the events one `push_back` at a time, as the loop does, is parking the whole batch at once, in order |
| `MpvIpc.SendEvents` | src/mpvipc.rs:72-82 | the events among the lines `send` consumes are exactly the events it passes over, in order |
| `MpvIpc.SendAccounts` | src/mpvipc.rs:75-78 | after `send`, every event mpv has sent is still delivered or queued, in order, if and only if queueing is on or no event arrived before the reply |
| `MpvIpc.ListenEvents` | src/mpvipc.rs:107-112 | the only event among the lines `listen_for_event` consumes is the one it returns |
| `MpvIpc.ListenAccounts` | src/mpvipc.rs:107-112 | with an empty queue, `listen_for_event` returns the next event mpv sent, so the account of delivered and queued events is kept |
| `MpvIpc.PopAccounts` | src/mpvipc.rs:101-104 | handing out the front of the queue keeps the account of delivered and queued events |
| `MpvIpc.ReadEvents` | src/mpvipc.rs:57-60 | one read consumes exactly the event on its line, if the line decodes to one |
| `MpvIpc.ReadValueAccounts` | src/mpvipc.rs:57-60 | a direct `read_value` keeps the account exactly when the value it hands out is no event or commutes with the queue: always with an empty queue, never when the queue's front is another event |
| `MpvIpc.ReadLineAccounts` | src/mpvipc.rs:49-55 | a direct `read_line` keeps the account exactly when its line holds no event, since the caller gets text rather than a value |
| `MpvIpc.ToggleAccounts` | src/mpvipc.rs:40-46 | `events(b)` keeps the account if and only if it enables queueing or the queue was empty |
| `MpvIpc.Mpv.Connect` | src/mpvipc.rs:22-38 | a new connection uses the corrected pipe name, which is the name the code builds except for a bare Windows name; it has read and written nothing, and queues events in an empty queue, so no event is unaccounted |
| `MpvIpc.Mpv.Events` | src/mpvipc.rs:40-46 | the queue becomes the toggled queue: enabling keeps an existing queue or creates an empty one, and disabling removes it; nothing else changes |
| `MpvIpc.Mpv.ReadLine` | src/mpvipc.rs:49-55 | returns the next line trimmed, or "" at the end of the stream, and advances past it |
| `MpvIpc.Mpv.ReadValue` | src/mpvipc.rs:57-60 | returns the next line decoded, or a malformed-line error (also at the end of the stream) |
| `MpvIpc.Mpv.Send` | src/mpvipc.rs:64-83 | appends exactly the request to the written log; returns the first value at or after the read position that is not an event (or the first read error); leaves the position just past it; queues the events passed on the way behind the old contents, in order, or drops them when queueing is off |
| `MpvIpc.Mpv.Park` | src/mpvipc.rs:76-78 | an event met by `send` goes to the back of the queue when queueing is on and is dropped when it is off |
| `MpvIpc.Mpv.RawCommand` | src/mpvipc.rs:85-90 | sends `{"command": command}` with the effect of `send` and returns its reply |
| `MpvIpc.Mpv.ObserveProperty` | src/mpvipc.rs:92-98 | sends `["observe_property", id, name]` and reports only whether `send` succeeded |
| `MpvIpc.Mpv.ListenForEvent` | src/mpvipc.rs:100-113 | with a non-empty queue, returns its front and removes only that, reading nothing; otherwise returns the first event at or after the read position (or the first read error), consuming the replies before it without queueing them |
| `MpvIpc.Mpv.GetProperty` | src/mpvipc.rs:115-126 | sends `["get_property", name]` and returns the reply's "data" exactly when its "error" is "success", otherwise a failure |
| `MpvIpc.Mpv.SetProperty` | src/mpvipc.rs:128-135 | sends `["set_property", name, value]` and reports only whether `send` succeeded |
| `MpvIpc.Mpv.ShowText` | src/mpvipc.rs:137-156 | builds the `show-text` arguments one push at a time, sends them, and reports only whether `send` succeeded |

## Left out

- MpvIpc.Mpv.Connect: connects to the corrected pipe name (`Pipes.PipeName`), not to the `\\.pipe\`-prefixed name the code builds for a bare Windows name; the as-written name is `Pipes.PipeNameAsWritten`, and the contract states that the two differ exactly in that case.
- Socket I/O (`Stream::connect`, `BufReader`, the write half) is replaced by a fixed sequence of incoming lines and a log of written requests. The lines mpv sends do not depend on the requests, and connection failures are not modelled.
- JSON parsing and printing (`serde_json::from_str`, `serde_json::to_writer`) are not modelled. Decoding is a parameter that must reject the empty string, and the log holds JSON values rather than text.
- Write errors in `send` (`to_writer`, `write_all`) are not modelled: every write succeeds.
- Read errors other than the end of the stream (an I/O error, invalid UTF-8) are not modelled. Splitting the byte stream into lines is taken as given.
- JSON numbers are integers only: floating-point values are not modelled.
- The text of `anyhow` error messages is not modelled: a failed `get_property` carries the reply itself.
- src/client.rs, src/server.rs, src/message.rs, src/main.rs and src/install.rs are not part of this model. They are a client loop that uses the external `mpvipc` crate rather than this module, an empty server, a data-only message enum, command-line dispatch and installation file writes, with no logic of the client to verify.
- With no duration, `show_text` puts the level in the third place of the command, where mpv expects a duration. This is modelled as written (`MpvIpc.ShowTextArgs`). It is not claimed as a bug, because mpv's command syntax is not part of this model.

## Findings

| source | as written | input that shows it | evidently intended | confidence | as-written member | corrected member |
|---|---|---|---|---|---|---|
| src/mpvipc.rs:23-24 | tests for the prefix `\\.\pipe\` but prepends `\\.pipe\` (one backslash short) | `connect("mpvsocket")` on Windows yields `\\.pipe\mpvsocket`, which is outside the named-pipe namespace; feeding that name back prefixes it again | prepend `\\.\pipe\`, so a bare name lands in the pipe namespace and the rule is idempotent | likely; not executed | `Pipes.PipeNameAsWrittenMissesNamespace` | `Pipes.PipeName` |
