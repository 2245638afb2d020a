/**
 * The text an SSE response carries (backend/src/server.js:40, 132) and how an event-stream client
 * reads it back, following "Interpreting an event stream" in section 9.2.6 of the WHATWG HTML
 * Living Standard (Server-sent events). JSON encoding is a parameter `encode` of the wire text.
 */
module EventStream {
  import opened Items
  import opened Events

  const LF: char := '\n'
  const CR: char := '\r'

  predicate IsLineEnd(c: char) { c == LF || c == CR }

  /** A string that fits on one line of the stream. */
  predicate OneLine(s: string) { forall j :: 0 <= j < |s| ==> !IsLineEnd(s[j]) }

  /**
   * `event: ${event}\ndata: ${data}\n\n`: when the name and the data fit on one line each, the frame
   * is exactly three lines, the event line, the data line and a blank line, each ended by LF.
   */
  function FrameText(event: string, data: string): (r: string)
    ensures |r| == |event| + |data| + 16
    ensures r[|event| + 7] == LF && r[|r| - 2] == LF && r[|r| - 1] == LF
    ensures OneLine(event) && OneLine(data) ==>
      forall j :: 0 <= j < |r| ==> (IsLineEnd(r[j]) <==> j == |event| + 7 || j >= |r| - 2)
  {
    var r := "event: " + event + "\n" + "data: " + data + "\n" + "\n";
    assert forall j :: 0 <= j < |event| ==> r[7 + j] == event[j];
    assert forall j :: 0 <= j < |data| ==> r[|event| + 14 + j] == data[j];
    r
  }

  /**
   * The text written to one SSE response: its frames, in order; WebSocket frames add nothing, and
   * the response starts with the text of its first SSE frame.
   */
  function Wire(frames: seq<Frame>, encode: Payload -> string): (r: string)
    ensures (forall j :: 0 <= j < |frames| ==> frames[j].WsFrame?) ==> r == ""
    ensures frames != [] && frames[0].SseFrame? ==>
      var first := FrameText(frames[0].event, encode(frames[0].data));
      |first| <= |r| && r[..|first|] == first
  {
    if frames == [] then ""
    else
      (if frames[0].SseFrame? then FrameText(frames[0].event, encode(frames[0].data)) else "")
      + Wire(frames[1..], encode)
  }

  /** Each write appends to what the response carried before: the text of `a + b` is that of `a`, then of `b`. */
  lemma {:induction false} WireAppend(a: seq<Frame>, b: seq<Frame>, encode: Payload -> string)
    ensures Wire(a + b, encode) == Wire(a, encode) + Wire(b, encode)
  {
    if a == [] {
      assert a + b == b;
    } else {
      assert (a + b)[1..] == a[1..] + b;
      WireAppend(a[1..], b, encode);
    }
  }

  // ----- the client side: interpreting an event stream -----

  /** An event as an EventSource dispatches it: its type and its data. */
  datatype Message = Message(kind: string, data: string)

  /** The event-type and data buffers of the interpreter. */
  datatype Buffers = Buffers(eventType: string, data: string)

  const Empty := Buffers("", "")

  /** Index of the first CR or LF, or |s| when there is none. */
  function LineEnd(s: string): (k: nat)
    ensures k <= |s|
    ensures OneLine(s[..k])
    ensures k < |s| ==> IsLineEnd(s[k])
  {
    if s == [] then 0
    else if IsLineEnd(s[0]) then 0
    else
      var k := 1 + LineEnd(s[1..]);
      assert s[..k] == [s[0]] + s[1..][..k - 1];
      k
  }

  /**
   * The next complete line and what follows it; a line ends at CR LF, LF or CR. A final line
   * with no terminator is not complete: it is kept back (None).
   */
  function NextLine(s: string): (r: Option<(string, string)>)
    ensures r.Some? ==> |r.value.1| < |s|
  {
    var k := LineEnd(s);
    if k == |s| then None
    else if s[k] == CR && k + 1 < |s| && s[k + 1] == LF then Some((s[..k], s[k + 2..]))
    else Some((s[..k], s[k + 1..]))
  }

  /** Index of the first ':' of a line, or |line| when there is none. */
  function ColonAt(line: string): (k: nat)
    ensures k <= |line|
    ensures forall j :: 0 <= j < k ==> line[j] != ':'
    ensures k < |line| ==> line[k] == ':'
  {
    if line == [] then 0
    else if line[0] == ':' then 0
    else 1 + ColonAt(line[1..])
  }

  /** A line's field name and value: split at the first colon, one leading space dropped from the value. */
  function Field(line: string): (string, string)
  {
    var k := ColonAt(line);
    if k == |line| then (line, "")
    else
      var v := line[k + 1..];
      (line[..k], if v != [] && v[0] == ' ' then v[1..] else v)
  }

  /** Processing one non-empty line: comments and fields other than `event`/`data` leave the buffers. */
  function ProcessLine(b: Buffers, line: string): Buffers
  {
    if line != [] && line[0] == ':' then b
    else
      var (name, value) := Field(line);
      if name == "event" then b.(eventType := value)
      else if name == "data" then b.(data := b.data + value + "\n")
      else b
  }

  /** Dispatching on a blank line: the type defaults to "message"; the final LF of the data is dropped. */
  function Dispatch(b: Buffers): Message
    requires b.data != []
  {
    Message(if b.eventType == "" then "message" else b.eventType, b.data[..|b.data| - 1])
  }

  /** The events a client dispatches while reading `s` with buffers `b`. */
  function Parse(s: string, b: Buffers): seq<Message>
    decreases |s|
  {
    match NextLine(s)
    case None => []
    case Some((line, rest)) =>
      if line != [] then Parse(rest, ProcessLine(b, line))
      else if b.data == [] then Parse(rest, Empty)
      else [Dispatch(b)] + Parse(rest, Empty)
  }

  // ----- round trip -----

  lemma {:induction false} LineEndAt(line: string, rest: string)
    requires OneLine(line)
    ensures LineEnd(line + "\n" + rest) == |line|
  {
    var s := line + "\n" + rest;
    if line != [] {
      assert s[1..] == line[1..] + "\n" + rest;
      LineEndAt(line[1..], rest);
    }
  }

  lemma NextLineOf(line: string, rest: string)
    requires OneLine(line)
    ensures NextLine(line + "\n" + rest) == Some((line, rest))
  {
    var s := line + "\n" + rest;
    LineEndAt(line, rest);
    assert s[..|line|] == line;
    assert s[|line| + 1..] == rest;
  }

  lemma FieldOf(name: string, value: string)
    requires name == "event" || name == "data"
    ensures Field(name + ": " + value) == (name, value)
  {
    var line := name + ": " + value;
    assert line[..|name|] == name;
    assert ColonAt(line) == |name| by {
      assert forall j :: 0 <= j < |name| ==> line[j] != ':';
      assert line[|name|] == ':';
      if ColonAt(line) < |name| {
        assert false;
      }
    }
    assert line[|name| + 1..] == " " + value;
    assert (" " + value)[1..] == value;
  }

  /** Reading a complete non-blank line processes it. */
  lemma ParseLine(line: string, rest: string, b: Buffers)
    requires line != [] && OneLine(line)
    ensures Parse(line + "\n" + rest, b) == Parse(rest, ProcessLine(b, line))
  {
    NextLineOf(line, rest);
  }

  /** Reading a blank line with data buffered dispatches one event and empties the buffers. */
  lemma ParseBlank(rest: string, b: Buffers)
    requires b.data != []
    ensures Parse("\n" + rest, b) == [Dispatch(b)] + Parse(rest, Empty)
  {
    assert "\n" + rest == "" + "\n" + rest;
    NextLineOf("", rest);
  }

  lemma OneLineConcat(a: string, b: string)
    requires OneLine(a) && OneLine(b)
    ensures OneLine(a + b)
  {
    assert forall j :: |a| <= j < |a + b| ==> (a + b)[j] == b[j - |a|];
  }

  lemma ProcessEventLine(b: Buffers, event: string)
    ensures ProcessLine(b, "event: " + event) == b.(eventType := event)
  {
    var line := "event: " + event;
    FieldOf("event", event);
    assert "event" + ": " + event == line;
    assert line[0] == 'e';
    assert line != [] && line[0] != ':';
    assert Field(line).0 == "event" && Field(line).1 == event;
  }

  lemma ProcessDataLine(b: Buffers, data: string)
    ensures ProcessLine(b, "data: " + data) == b.(data := b.data + data + "\n")
  {
    var line := "data: " + data;
    FieldOf("data", data);
    assert "data" + ": " + data == line;
    assert line[0] == 'd';
    assert line != [] && line[0] != ':';
    assert Field(line).0 == "data" && Field(line).1 == data;
    assert "data" != "event";
  }

  /** A frame followed by more text is three complete lines followed by that text. */
  lemma FrameLines(event: string, data: string, rest: string)
    ensures FrameText(event, data) + rest == ("event: " + event) + "\n" + (("data: " + data) + "\n" + ("\n" + rest))
  {
  }


  lemma ReadEventLine(event: string, r2: string)
    requires OneLine(event)
    ensures Parse(("event: " + event) + "\n" + r2, Empty) == Parse(r2, Buffers(event, ""))
  {
    OneLineConcat("event: ", event);
    ParseLine("event: " + event, r2, Empty);
    ProcessEventLine(Empty, event);
  }

  lemma ReadDataLine(event: string, data: string, r3: string)
    requires OneLine(data)
    ensures Parse(("data: " + data) + "\n" + r3, Buffers(event, "")) == Parse(r3, Buffers(event, data + "\n"))
  {
    OneLineConcat("data: ", data);
    ParseLine("data: " + data, r3, Buffers(event, ""));
    ProcessDataLine(Buffers(event, ""), data);
    assert "" + data + "\n" == data + "\n";
  }

  lemma ReadBlankLine(event: string, data: string, rest: string)
    requires event != ""
    ensures Parse("\n" + rest, Buffers(event, data + "\n")) == [Message(event, data)] + Parse(rest, Empty)
  {
    ParseBlank(rest, Buffers(event, data + "\n"));
    assert (data + "\n")[..|data|] == data;
  }

  /**
   * A client reading one frame from fresh buffers dispatches exactly the event `event` with data
   * `data`, and ends with fresh buffers: frames are independent of what follows them.
   */
  lemma {:induction false} FrameRoundTrip(event: string, data: string, rest: string)
    requires event != "" && OneLine(event) && OneLine(data)
    ensures Parse(FrameText(event, data) + rest, Empty) == [Message(event, data)] + Parse(rest, Empty)
  {
    var r3 := "\n" + rest;
    var r2 := ("data: " + data) + "\n" + r3;
    FrameLines(event, data, rest);
    ReadEventLine(event, r2);
    ReadDataLine(event, data, r3);
    ReadBlankLine(event, data, rest);
  }

  /**
   * What an SSE client reads from its response: one event per SSE frame written to it, in order,
   * with the frame's event name and the JSON text of its data (JSON text never holds a raw line break).
   */
  lemma {:induction false} WireRoundTrip(frames: seq<Frame>, encode: Payload -> string)
    requires forall p :: OneLine(encode(p))
    requires forall j :: 0 <= j < |frames| && frames[j].SseFrame? ==> frames[j].event != "" && OneLine(frames[j].event)
    ensures Parse(Wire(frames, encode), Empty) == Received(frames, encode)
  {
    if frames != [] {
      WireRoundTrip(frames[1..], encode);
      if frames[0].SseFrame? {
        FrameRoundTrip(frames[0].event, encode(frames[0].data), Wire(frames[1..], encode));
      } else {
        assert Wire(frames, encode) == Wire(frames[1..], encode);
      }
    }
  }

  /** The messages the SSE frames of `frames` stand for. */
  function Received(frames: seq<Frame>, encode: Payload -> string): seq<Message>
  {
    if frames == [] then []
    else
      (if frames[0].SseFrame? then [Message(frames[0].event, encode(frames[0].data))] else [])
      + Received(frames[1..], encode)
  }
}
