/** The mpv JSON IPC client: one socket carrying both replies to the client's
    requests and asynchronous event objects, demultiplexed by an optional event
    queue. `send` parks the events it meets on the way to its reply;
    `listen_for_event` hands out parked events before reading the socket. */
module MpvIpc {
  import opened Values
  import opened Text
  import opened Pipes
  import opened Wire

  /** The events a queue holds; a disabled queue holds none. */
  function Queued(queue: Option<seq<Json>>): seq<Json> {
    if queue.Some? then queue.value else []
  }

  /** The queue after events pass it in arrival order: appended if queueing is on, dropped if it is off. */
  function Parked(queue: Option<seq<Json>>, events: seq<Json>): Option<seq<Json>>
  {
    if queue.Some? then Some(queue.value + events) else None
  }

  /** Parking two batches of events is parking them together. */
  lemma ParkedAppend(queue: Option<seq<Json>>, a: seq<Json>, b: seq<Json>)
    ensures Parked(Parked(queue, a), b) == Parked(queue, a + b)
  {
    if queue.Some? {
      assert queue.value + a + b == queue.value + (a + b);
    }
  }

  /** The queue after `events(enabled)`: enabling keeps an existing queue or
      creates an empty one; disabling discards the queue. */
  function Toggled(queue: Option<seq<Json>>, enabled: bool): Option<seq<Json>> {
    if !enabled then None else if queue.Some? then queue else Some([])
  }

  /** Toggling to the same setting twice is toggling once; enabling never loses queued events. */
  lemma ToggledIdempotent(queue: Option<seq<Json>>, enabled: bool)
    ensures Toggled(Toggled(queue, enabled), enabled) == Toggled(queue, enabled)
    ensures enabled ==> Queued(Toggled(queue, enabled)) == Queued(queue)
    ensures !enabled ==> Queued(Toggled(queue, enabled)) == []
  {
  }

  /** `get_property`'s verdict on a reply: its "data" if its "error" is the string "success", else a failure. */
  function PropertyValue(reply: Json): (r: Result<Json>)
    ensures r.Ok? <==> reply.Obj? && "error" in reply.fields && reply.fields["error"] == Str("success")
    ensures r.Ok? ==> r.value == (if "data" in reply.fields then reply.fields["data"] else Null)
    ensures r.Err? ==> r.error == PropertyFailed(reply)
  {
    if Index(reply, "error") == Str("success") then Ok(Index(reply, "data")) else Err(PropertyFailed(reply))
  }

  /** The arguments of a `show-text` command: the command name and the text,
      then the duration in decimal if given, then the level in decimal if given.
      With no duration the level takes the third place. */
  function ShowTextArgs(text: string, duration: Option<i32>, level: Option<u32>): (args: seq<Json>)
    ensures |args| == 2 + (if duration.Some? then 1 else 0) + (if level.Some? then 1 else 0)
    ensures args[0] == Str("show-text") && args[1] == Str(text)
    ensures duration.Some? ==> args[2] == Str(IntToDecimal(duration.value as int))
    ensures level.Some? ==> args[|args| - 1] == Str(NatToDecimal(level.value as int))
    ensures forall k :: 2 <= k < |args| ==> args[k].Str? && |args[k].s| >= 1
  {
    [Str("show-text"), Str(text)]
    + (if duration.Some? then [Str(IntToDecimal(duration.value as int))] else [])
    + (if level.Some? then [Str(NatToDecimal(level.value as int))] else [])
  }

  /** The duration and level mpv receives read back as the numbers the caller gave. */
  lemma ShowTextArgsReadBack(text: string, duration: Option<i32>, level: Option<u32>)
    ensures var args := ShowTextArgs(text, duration, level);
            && (duration.Some? ==> SignedValue(args[2].s) == duration.value as int)
            && (level.Some? ==> DecimalValue(args[|args| - 1].s) == level.value as int)
  {
    if duration.Some? {
      IntToDecimalRoundTrip(duration.value as int);
    }
    if level.Some? {
      NatToDecimalRoundTrip(level.value as int);
    }
  }

  /** A command's outcome with its reply discarded. */
  function Discarded(reply: Result<Json>): Result<()> {
    match reply
    case Ok(_) => Ok(())
    case Err(e) => Err(e)
  }

  /** Each raw line with its trailing whitespace removed, as `read_line` returns it. */
  function Trimmed(input: seq<string>): (lines: seq<string>)
    ensures |lines| == |input|
  {
    if input == [] then [] else [TrimEnd(input[0])] + Trimmed(input[1..])
  }

  /** Line `i` as `read_line` returns it is raw line `i` trimmed. */
  lemma {:induction false} TrimmedAt(input: seq<string>, i: nat)
    requires i < |input|
    ensures Trimmed(input)[i] == TrimEnd(input[i])
  {
    if i > 0 {
      TrimmedAt(input[1..], i - 1);
    }
  }

  /** The events mpv has sent on the lines before `pos` are exactly those the
      caller has been handed (`delivered`) followed by those still queued, in
      the order mpv sent them: no event was lost, duplicated or reordered. */
  ghost predicate Accounts(decode: Decoder, lines: seq<string>, pos: nat,
                           delivered: seq<Json>, queue: Option<seq<Json>>)
    requires pos <= |lines|
  {
    delivered + Queued(queue) == EventsIn(decode, lines, 0, pos)
  }

  /** The events on the lines a reply scan consumes are the ones it passes over. */
  lemma SendEvents(decode: Decoder, lines: seq<string>, pos: nat)
    requires pos <= |lines| && decode("") == None
    ensures var o := ScanFor(decode, lines, pos, false);
            EventsIn(decode, lines, 0, After(lines, o.at)) == EventsIn(decode, lines, 0, pos) + o.passed
  {
    var o := ScanFor(decode, lines, pos, false);
    ScanEvents(decode, lines, pos, false);
    EventsInSplit(decode, lines, 0, pos, After(lines, o.at));
  }

  /** `send` keeps the account exactly when queueing is on or it meets no
      event: the events it passes over on the way to its reply are queued
      behind the earlier ones, in order; with queueing off they are lost. */
  lemma SendAccounts(decode: Decoder, lines: seq<string>, pos: nat,
                     delivered: seq<Json>, queue: Option<seq<Json>>)
    requires pos <= |lines| && decode("") == None
    requires Accounts(decode, lines, pos, delivered, queue)
    ensures var o := ScanFor(decode, lines, pos, false);
            Accounts(decode, lines, After(lines, o.at), delivered, Parked(queue, o.passed))
            <==> queue.Some? || o.passed == []
  {
    var o := ScanFor(decode, lines, pos, false);
    SendEvents(decode, lines, pos);
    if queue.Some? {
      assert delivered + (queue.value + o.passed) == (delivered + queue.value) + o.passed;
    } else if o.passed == [] {
      assert delivered + [] == delivered;
      assert EventsIn(decode, lines, 0, pos) + [] == EventsIn(decode, lines, 0, pos);
    } else {
      assert delivered + [] == delivered;
      assert |EventsIn(decode, lines, 0, pos) + o.passed| > |delivered|;
    }
  }

  /** The events on the lines an event scan consumes: only the event it returns. */
  lemma ListenEvents(decode: Decoder, lines: seq<string>, pos: nat)
    requires pos <= |lines| && decode("") == None
    ensures var o := ScanFor(decode, lines, pos, true);
            EventsIn(decode, lines, 0, After(lines, o.at))
            == EventsIn(decode, lines, 0, pos) + (if o.result.Ok? then [o.result.value] else [])
  {
    var o := ScanFor(decode, lines, pos, true);
    ScanEvents(decode, lines, pos, true);
    EventsInSplit(decode, lines, 0, pos, After(lines, o.at));
  }

  /** `listen_for_event` on an empty queue keeps the account: the event it
      returns is the next one mpv sent, and the replies it discards carry none. */
  lemma ListenAccounts(decode: Decoder, lines: seq<string>, pos: nat,
                       delivered: seq<Json>, queue: Option<seq<Json>>)
    requires pos <= |lines| && decode("") == None && Queued(queue) == []
    requires Accounts(decode, lines, pos, delivered, queue)
    ensures var o := ScanFor(decode, lines, pos, true);
            Accounts(decode, lines, After(lines, o.at),
                     delivered + (if o.result.Ok? then [o.result.value] else []), queue)
  {
    var o := ScanFor(decode, lines, pos, true);
    ListenEvents(decode, lines, pos);
    var got := if o.result.Ok? then [o.result.value] else [];
    assert delivered + [] == delivered;
    assert delivered + got + [] == delivered + got;
  }

  /** Handing out the front of the queue keeps the account. */
  lemma PopAccounts(decode: Decoder, lines: seq<string>, pos: nat,
                    delivered: seq<Json>, queue: Option<seq<Json>>)
    requires pos <= |lines| && Queued(queue) != []
    requires Accounts(decode, lines, pos, delivered, queue)
    ensures Accounts(decode, lines, pos, delivered + [queue.value[0]], Some(queue.value[1..]))
  {
    assert delivered + queue.value == (delivered + [queue.value[0]]) + queue.value[1..];
  }

  /** The event a read hands out: the value read, when it is one. */
  function EventsOf(r: Result<Json>): seq<Json> {
    if r.Ok? && IsEvent(r.value) then [r.value] else []
  }

  /** One read consumes the event on its line, if there is one. */
  lemma ReadEvents(decode: Decoder, lines: seq<string>, pos: nat)
    requires pos <= |lines| && decode("") == None
    ensures EventsIn(decode, lines, 0, After(lines, pos))
            == EventsIn(decode, lines, 0, pos) + EventsOf(ReadAt(decode, lines, pos))
  {
    var got := EventsOf(ReadAt(decode, lines, pos));
    EventsInSplit(decode, lines, 0, pos, After(lines, pos));
    if pos < |lines| {
      assert EventsIn(decode, lines, pos + 1, pos + 1) == [];
      assert EventsIn(decode, lines, pos, pos + 1) == got + [];
    } else {
      assert got == [];
    }
  }

  /** Equal sequences with a common prefix have equal rests. */
  lemma PrefixCancel(a: seq<Json>, b: seq<Json>, c: seq<Json>)
    ensures a + b == a + c <==> b == c
  {
    if a + b == a + c {
      assert b == (a + b)[|a|..];
      assert c == (a + c)[|a|..];
    }
  }

  /** A direct `read_value` hands the caller the value it reads. When that value
      is an event, it overtakes the queued events: the account is kept exactly
      when the value is no event or commutes with the queue, so always when the
      queue is empty, and never when the queue's front is another event. */
  lemma ReadValueAccounts(decode: Decoder, lines: seq<string>, pos: nat,
                          delivered: seq<Json>, queue: Option<seq<Json>>)
    requires pos <= |lines| && decode("") == None
    requires Accounts(decode, lines, pos, delivered, queue)
    ensures var got := EventsOf(ReadAt(decode, lines, pos));
            Accounts(decode, lines, After(lines, pos), delivered + got, queue)
            <==> got + Queued(queue) == Queued(queue) + got
    ensures var got := EventsOf(ReadAt(decode, lines, pos));
            got == [] || Queued(queue) == [] ==> Accounts(decode, lines, After(lines, pos), delivered + got, queue)
    ensures var got := EventsOf(ReadAt(decode, lines, pos));
            got != [] && Queued(queue) != [] && Queued(queue)[0] != got[0]
            ==> !Accounts(decode, lines, After(lines, pos), delivered + got, queue)
  {
    var got, q := EventsOf(ReadAt(decode, lines, pos)), Queued(queue);
    ReadEvents(decode, lines, pos);
    assert (delivered + got) + q == delivered + (got + q);
    assert (delivered + q) + got == delivered + (q + got);
    PrefixCancel(delivered, got + q, q + got);
    if got == [] {
      assert got + q == q + got;
    } else if q == [] {
      assert got + q == q + got;
    } else {
      assert (got + q)[0] == got[0] && (q + got)[0] == q[0];
    }
  }

  /** A direct `read_line` hands the caller text, not a value: an event on that
      line is lost to the account, which is kept exactly when the line holds none. */
  lemma ReadLineAccounts(decode: Decoder, lines: seq<string>, pos: nat,
                         delivered: seq<Json>, queue: Option<seq<Json>>)
    requires pos <= |lines| && decode("") == None
    requires Accounts(decode, lines, pos, delivered, queue)
    ensures Accounts(decode, lines, After(lines, pos), delivered, queue)
            <==> EventsOf(ReadAt(decode, lines, pos)) == []
  {
    var got := EventsOf(ReadAt(decode, lines, pos));
    ReadEvents(decode, lines, pos);
    if got == [] {
      assert EventsIn(decode, lines, 0, pos) + [] == EventsIn(decode, lines, 0, pos);
    } else {
      assert |EventsIn(decode, lines, 0, pos) + got| > |delivered + Queued(queue)|;
    }
  }

  /** `events(enabled)` keeps the account unless it discards queued events. */
  lemma ToggleAccounts(decode: Decoder, lines: seq<string>, pos: nat,
                       delivered: seq<Json>, queue: Option<seq<Json>>, enabled: bool)
    requires pos <= |lines|
    requires Accounts(decode, lines, pos, delivered, queue)
    ensures Accounts(decode, lines, pos, delivered, Toggled(queue, enabled))
            <==> enabled || Queued(queue) == []
  {
    if !enabled && Queued(queue) != [] {
      assert |delivered + Queued(queue)| > |delivered + []|;
    }
  }

  /** A connection to mpv's IPC socket. The socket's incoming side is the
      sequence of raw lines mpv writes, read from position `pos` on; its
      outgoing side is the log of requests written so far. */
  class Mpv {
    const socketName: string
    const decode: Decoder
    const input: seq<string>
    var pos: nat
    var written: seq<Json>
    var eventQueue: Option<seq<Json>>

    /** The lines as `read_line` returns them. */
    function Lines(): (lines: seq<string>)
      ensures |lines| == |input|
    {
      Trimmed(input)
    }

    ghost predicate Valid()
      reads this
    {
      && decode("") == None
      && pos <= |input|
      && (forall v <- Queued(eventQueue) :: IsEvent(v))
    }

    /** The effect of `send(request)` returning `result`: the request is logged,
        the stream is read up to and including the first non-event, and the
        events passed on the way are parked (or dropped when queueing is off). */
    twostate predicate Sent(request: Json, new result: Result<Json>)
      reads this
      requires old(pos) <= |input| && decode("") == None
    {
      var o := ScanFor(decode, Lines(), old(pos), false);
      && result == o.result
      && pos == After(Lines(), o.at)
      && eventQueue == Parked(old(eventQueue), o.passed)
      && written == old(written) + [request]
    }

    /** `connect`: a fresh connection queues events and has an empty queue. */
    constructor Connect(pipe: string, windows: bool, decode: Decoder, input: seq<string>)
      requires decode("") == None
      ensures Valid() && Accounts(decode, Lines(), pos, [], eventQueue)
      ensures socketName == PipeName(pipe, windows)
      ensures socketName == PipeNameAsWritten(pipe, windows) <==> !windows || StartsWith(pipe, PipeNamespace)
      ensures this.decode == decode && this.input == input
      ensures pos == 0 && written == [] && eventQueue == Some([])
    {
      socketName := PipeName(pipe, windows);
      this.decode := decode;
      this.input := input;
      pos := 0;
      written := [];
      eventQueue := Some([]);
      assert PipeName(pipe, windows) == PipeNameAsWritten(pipe, windows) <==> !windows || StartsWith(pipe, PipeNamespace) by {
        PipeNameAsWrittenDiffers(pipe, windows);
      }
    }

    /** `events(enabled)`. */
    method Events(enabled: bool)
      requires Valid()
      modifies this
      ensures Valid()
      ensures eventQueue == Toggled(old(eventQueue), enabled)
      ensures pos == old(pos) && written == old(written)
    {
      if enabled {
        if eventQueue.None? {
          eventQueue := Some([]);
        }
      } else {
        eventQueue := None;
      }
    }

    /** `read_line`: the next raw line with its trailing whitespace removed, or "" at the end of the stream. */
    method ReadLine() returns (line: string)
      requires Valid()
      modifies this`pos
      ensures Valid()
      ensures line == LineAt(Lines(), old(pos)) && pos == After(Lines(), old(pos))
    {
      if pos < |input| {
        TrimmedAt(input, pos);
        line := TrimEnd(input[pos]);
        pos := pos + 1;
      } else {
        line := "";
      }
    }

    /** `read_value`: the next line decoded; a line that is not JSON, the empty line at the end included, is an error. */
    method ReadValue() returns (r: Result<Json>)
      requires Valid()
      modifies this`pos
      ensures Valid()
      ensures r == ReadAt(decode, Lines(), old(pos)) && pos == After(Lines(), old(pos))
    {
      var line := ReadLine();
      match decode(line)
      case None => r := Err(Malformed(line));
      case Some(v) => r := Ok(v);
    }

    /** `send`: write the request, then read until the first value that is not an event. */
    method Send(request: Json) returns (r: Result<Json>)
      requires Valid()
      modifies this
      ensures Valid() && Sent(request, r)
      ensures r.Ok? ==> !IsEvent(r.value)
    {
      written := written + [request];
      ghost var start := pos;
      ghost var passed: seq<Json> := [];
      assert eventQueue.Some? ==> eventQueue.value + [] == eventQueue.value;
      while true
        invariant Valid()
        invariant pos == start + |passed| <= |input|
        invariant ReadInOrder(decode, Lines(), start, false, passed)
        invariant eventQueue == Parked(old(eventQueue), passed)
        invariant written == old(written) + [request]
        decreases |input| - pos
      {
        ghost var at := pos;
        var v := ReadValue();
        if v.Err? || !IsEvent(v.value) {
          ScanForUnique(decode, Lines(), start, false, passed, at);
          r := v;
          return;
        }
        var x := v.value;
        ReadInOrderExtend(decode, Lines(), start, false, passed, x);
        ParkedAppend(old(eventQueue), passed, [x]);
        Park(x);
        passed := passed + [x];
      }
    }

    /** Queue an event met while waiting for a reply; with queueing off it is dropped. */
    method Park(x: Json)
      requires Valid() && IsEvent(x)
      modifies this`eventQueue
      ensures Valid()
      ensures eventQueue == Parked(old(eventQueue), [x])
    {
      if eventQueue.Some? {
        var q := eventQueue.value;
        eventQueue := Some(q + [x]);
      }
    }

    /** `raw_command`: send `{"command": command}` and return the reply. */
    method RawCommand(command: Json) returns (r: Result<Json>)
      requires Valid()
      modifies this
      ensures Valid() && Sent(CommandRequest(command), r)
    {
      r := Send(CommandRequest(command));
    }

    /** `observe_property`: ask mpv to report changes of a property under `id`; the reply is discarded. */
    method ObserveProperty(id: i32, property: string) returns (r: Result<()>)
      requires Valid()
      modifies this
      ensures Valid()
      ensures var reply := ScanFor(decode, Lines(), old(pos), false).result;
              Sent(CommandRequest(Arr([Str("observe_property"), Num(id as int), Str(property)])), reply)
              && r == Discarded(reply)
    {
      var reply := Send(CommandRequest(Arr([Str("observe_property"), Num(id as int), Str(property)])));
      r := Discarded(reply);
    }

    /** `listen_for_event`: the oldest queued event if there is one; otherwise
        the next event on the stream, replies before it being discarded. */
    method ListenForEvent() returns (r: Result<Json>)
      requires Valid()
      modifies this
      ensures Valid()
      ensures Queued(old(eventQueue)) != [] ==>
                && r == Ok(Queued(old(eventQueue))[0])
                && eventQueue == Some(Queued(old(eventQueue))[1..])
                && pos == old(pos)
      ensures Queued(old(eventQueue)) == [] ==>
                var o := ScanFor(decode, Lines(), old(pos), true);
                && r == o.result
                && pos == After(Lines(), o.at)
                && eventQueue == old(eventQueue)
      ensures r.Ok? ==> IsEvent(r.value)
      ensures written == old(written)
    {
      if eventQueue.Some? && eventQueue.value != [] {
        var front := eventQueue.value[0];
        assert front in Queued(eventQueue);
        eventQueue := Some(eventQueue.value[1..]);
        r := Ok(front);
        return;
      }
      ghost var start := pos;
      ghost var skipped: seq<Json> := [];
      while true
        invariant Valid()
        invariant pos == start + |skipped| <= |input|
        invariant ReadInOrder(decode, Lines(), start, true, skipped)
        invariant eventQueue == old(eventQueue) && Queued(eventQueue) == []
        invariant written == old(written)
        decreases |input| - pos
      {
        ghost var at := pos;
        var v := ReadValue();
        if v.Err? || IsEvent(v.value) {
          ScanForUnique(decode, Lines(), start, true, skipped, at);
          r := v;
          return;
        }
        ReadInOrderExtend(decode, Lines(), start, true, skipped, v.value);
        skipped := skipped + [v.value];
      }
    }

    /** `get_property`: send the query, then accept the reply only if it reports success. */
    method GetProperty(property: string) returns (r: Result<Json>)
      requires Valid()
      modifies this
      ensures Valid()
      ensures var reply := ScanFor(decode, Lines(), old(pos), false).result;
              Sent(CommandRequest(Arr([Str("get_property"), Str(property)])), reply)
              && r == (match reply case Err(e) => Err(e) case Ok(v) => PropertyValue(v))
    {
      var reply := Send(CommandRequest(Arr([Str("get_property"), Str(property)])));
      match reply
      case Err(e) => r := Err(e);
      case Ok(v) => r := PropertyValue(v);
    }

    /** `set_property`: send the assignment; the reply is discarded. */
    method SetProperty(property: string, value: Json) returns (r: Result<()>)
      requires Valid()
      modifies this
      ensures Valid()
      ensures var reply := ScanFor(decode, Lines(), old(pos), false).result;
              Sent(CommandRequest(Arr([Str("set_property"), Str(property), value])), reply)
              && r == Discarded(reply)
    {
      var reply := Send(CommandRequest(Arr([Str("set_property"), Str(property), value])));
      r := Discarded(reply);
    }

    /** `show_text`: build the command argument by argument, send it, discard the reply. */
    method ShowText(text: string, duration: Option<i32>, level: Option<u32>) returns (r: Result<()>)
      requires Valid()
      modifies this
      ensures Valid()
      ensures var reply := ScanFor(decode, Lines(), old(pos), false).result;
              Sent(CommandRequest(Arr(ShowTextArgs(text, duration, level))), reply)
              && r == Discarded(reply)
    {
      var args := [Str("show-text"), Str(text)];
      if duration.Some? {
        args := args + [Str(IntToDecimal(duration.value as int))];
      }
      if level.Some? {
        args := args + [Str(NatToDecimal(level.value as int))];
      }
      assert args == ShowTextArgs(text, duration, level);
      var reply := Send(CommandRequest(Arr(args)));
      r := Discarded(reply);
    }
  }
}
