/** The lines mpv writes to the client, as `read_line` returns them one at a time, and the
    two ways the client scans it: for the next reply (skipping events) and for
    the next event (skipping replies). These functions are the specification
    the methods of `MpvIpc.Mpv` are proved against. */
module Wire {
  import opened Values

  /** Stands for `serde_json::from_str`: None when the text is not JSON. */
  type Decoder = string -> Option<Json>

  /** The line `read_line` yields at position `i` of the stream's lines (already
      stripped of trailing whitespace), or "" at the end of the stream. */
  function LineAt(lines: seq<string>, i: nat): string
    requires i <= |lines|
  {
    if i < |lines| then lines[i] else ""
  }

  /** What `read_value` yields at position `i`. */
  function ReadAt(decode: Decoder, lines: seq<string>, i: nat): (r: Result<Json>)
    requires i <= |lines|
    ensures r.Ok? && decode("") == None ==> i < |lines|
  {
    var line := LineAt(lines, i);
    match decode(line)
    case None => Err(Malformed(line))
    case Some(v) => Ok(v)
  }

  /** The read position after one read at `i`: a read at the end of the stream consumes nothing. */
  function After(lines: seq<string>, i: nat): nat
    requires i <= |lines|
  {
    if i < |lines| then i + 1 else i
  }

  /** How a scan ended: the values it passed over, the value or error it stopped
      with, and the position of the read that stopped it. */
  datatype Scan = Scan(passed: seq<Json>, result: Result<Json>, at: nat)

  /** Read from position `i` until a value whose event-ness is `wantEvent`, or an error.
      The scan stops at the read at `at` and passes over the values before it. */
  function ScanFor(decode: Decoder, lines: seq<string>, i: nat, wantEvent: bool): (o: Scan)
    requires i <= |lines|
    requires decode("") == None
    ensures i <= o.at <= |lines|
    ensures o.result == ReadAt(decode, lines, o.at)
    ensures o.result.Ok? ==> IsEvent(o.result.value) == wantEvent
    ensures |o.passed| == o.at - i
    decreases |lines| - i
  {
    match ReadAt(decode, lines, i)
    case Err(e) => Scan([], Err(e), i)
    case Ok(v) =>
      if IsEvent(v) == wantEvent then Scan([], Ok(v), i)
      else
        var o := ScanFor(decode, lines, i + 1, wantEvent);
        Scan([v] + o.passed, o.result, o.at)
  }

  /** Every value in `passed` was read, in order, from the lines starting at `i`, and is unwanted. */
  predicate ReadInOrder(decode: Decoder, lines: seq<string>, i: nat, wantEvent: bool, passed: seq<Json>)
    requires i + |passed| <= |lines|
    decreases |passed|
  {
    passed == []
    || (&& ReadAt(decode, lines, i) == Ok(passed[0])
        && IsEvent(passed[0]) != wantEvent
        && ReadInOrder(decode, lines, i + 1, wantEvent, passed[1..]))
  }

  /** The scan stops at the first line that is malformed or wanted (the end of
      the stream reads as malformed), and passes over exactly the values before
      it, in order: each of them decoded and unwanted. */
  lemma {:induction false} ScanForPassed(decode: Decoder, lines: seq<string>, i: nat, wantEvent: bool)
    requires i <= |lines|
    requires decode("") == None
    ensures ReadInOrder(decode, lines, i, wantEvent, ScanFor(decode, lines, i, wantEvent).passed)
    decreases |lines| - i
  {
    match ReadAt(decode, lines, i)
    case Err(_) =>
    case Ok(v) =>
      if IsEvent(v) != wantEvent {
        ScanForPassed(decode, lines, i + 1, wantEvent);
        var o := ScanFor(decode, lines, i, wantEvent);
        assert o.passed[1..] == ScanFor(decode, lines, i + 1, wantEvent).passed;
      }
  }

  /** Conversely, a stretch of unwanted values followed by an error or a wanted
      value is exactly what the scan finds. */
  lemma {:induction false} ScanForUnique(decode: Decoder, lines: seq<string>, i: nat, wantEvent: bool,
                                         passed: seq<Json>, at: nat)
    requires i <= at <= |lines|
    requires decode("") == None
    requires |passed| == at - i
    requires ReadInOrder(decode, lines, i, wantEvent, passed)
    requires ReadAt(decode, lines, at).Err? || IsEvent(ReadAt(decode, lines, at).value) == wantEvent
    ensures ScanFor(decode, lines, i, wantEvent) == Scan(passed, ReadAt(decode, lines, at), at)
    decreases at - i
  {
    if i < at {
      var v, rest := passed[0], passed[1..];
      assert ReadAt(decode, lines, i) == Ok(v) && IsEvent(v) != wantEvent;
      ScanForUnique(decode, lines, i + 1, wantEvent, rest, at);
      assert ScanFor(decode, lines, i, wantEvent).passed == [v] + rest;
      assert [v] + rest == passed;
    } else {
      assert passed == [];
    }
  }

  /** A value read right after an in-order stretch extends it. */
  lemma {:induction false} ReadInOrderExtend(decode: Decoder, lines: seq<string>, i: nat, wantEvent: bool,
                                             passed: seq<Json>, x: Json)
    requires i + |passed| < |lines|
    requires ReadInOrder(decode, lines, i, wantEvent, passed)
    requires ReadAt(decode, lines, i + |passed|) == Ok(x) && IsEvent(x) != wantEvent
    ensures ReadInOrder(decode, lines, i, wantEvent, passed + [x])
    decreases |passed|
  {
    if passed != [] {
      ReadInOrderExtend(decode, lines, i + 1, wantEvent, passed[1..], x);
      assert (passed + [x])[1..] == passed[1..] + [x];
    } else {
      assert ReadInOrder(decode, lines, i + 1, wantEvent, []);
      assert ([] + [x])[1..] == [];
    }
  }

  /** The event carried by line `k`, if it decodes to one. */
  function EventAt(decode: Decoder, lines: seq<string>, k: nat): seq<Json>
    requires k < |lines|
  {
    match ReadAt(decode, lines, k)
    case Ok(v) => if IsEvent(v) then [v] else []
    case Err(_) => []
  }

  /** Every event on lines `lo` up to `hi`, in the order mpv sent them. */
  function EventsIn(decode: Decoder, lines: seq<string>, lo: nat, hi: nat): seq<Json>
    requires lo <= hi <= |lines|
    decreases hi - lo
  {
    if lo == hi then [] else EventAt(decode, lines, lo) + EventsIn(decode, lines, lo + 1, hi)
  }

  /** The events of adjacent stretches of the stream concatenate. */
  lemma {:induction false} EventsInSplit(decode: Decoder, lines: seq<string>, lo: nat, mid: nat, hi: nat)
    requires lo <= mid <= hi <= |lines|
    ensures EventsIn(decode, lines, lo, hi) == EventsIn(decode, lines, lo, mid) + EventsIn(decode, lines, mid, hi)
    decreases mid - lo
  {
    var tail := EventsIn(decode, lines, mid, hi);
    if lo < mid {
      EventsInSplit(decode, lines, lo + 1, mid, hi);
      var e, middle := EventAt(decode, lines, lo), EventsIn(decode, lines, lo + 1, mid);
      assert EventsIn(decode, lines, lo, hi) == e + (middle + tail);
      assert e + (middle + tail) == (e + middle) + tail;
    } else {
      assert EventsIn(decode, lines, lo, mid) == [];
      assert [] + tail == tail;
    }
  }

  /** The events a scan consumes: a reply scan consumes exactly the events it
      passes over (the reply itself is not one); an event scan consumes only the
      event it returns, the replies before it being no events. */
  lemma {:induction false} ScanEvents(decode: Decoder, lines: seq<string>, i: nat, wantEvent: bool)
    requires i <= |lines|
    requires decode("") == None
    ensures var o := ScanFor(decode, lines, i, wantEvent);
            EventsIn(decode, lines, i, After(lines, o.at))
            == if wantEvent then (if o.result.Ok? then [o.result.value] else []) else o.passed
    decreases |lines| - i
  {
    if i < |lines| {
      var o := ScanFor(decode, lines, i, wantEvent);
      match ReadAt(decode, lines, i)
      case Err(_) =>
        assert EventsIn(decode, lines, i + 1, i + 1) == [];
      case Ok(v) =>
        if IsEvent(v) == wantEvent {
          assert EventsIn(decode, lines, i + 1, i + 1) == [];
        } else {
          ScanEvents(decode, lines, i + 1, wantEvent);
          var rest := ScanFor(decode, lines, i + 1, wantEvent);
          assert o.passed == [v] + rest.passed && o.at == rest.at && o.result == rest.result;
          assert EventAt(decode, lines, i) == (if wantEvent then [] else [v]);
        }
    }
  }
}
