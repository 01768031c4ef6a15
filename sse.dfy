/**
 * The frames slide.js writes on a server-sent-events stream and how a
 * client reads them back. A state frame is `data: <JSON of the state>`
 * followed by a blank line; the keep-alive is the comment `: heartbeat`
 * followed by a blank line. The reading side follows the event-stream
 * interpretation of the WHATWG HTML Living Standard, section 9.2.6
 * "Interpreting an event stream", restricted to the `data` field.
 */
module Sse {
  import opened Js
  import opened SlideStore

  datatype Frame = Data(state: SlideState) | Heartbeat

  predicate IsLineBreak(c: char)
  {
    c == '\n' || c == '\r'
  }

  predicate NoLineBreak(s: string)
  {
    forall i :: 0 <= i < |s| ==> !IsLineBreak(s[i])
  }

  // ---------------------------------------------------------------------
  // JSON.stringify of the state

  function HexDigit(d: nat): char
    requires d < 16
  {
    "0123456789abcdef"[d]
  }

  /** One character of a JSON string literal, escaped as `JSON.stringify` does. */
  function EscapeChar(c: char): string
  {
    if c == '"' then "\\\""
    else if c == '\\' then "\\\\"
    else if c == '\U{8}' then "\\b"
    else if c == '\t' then "\\t"
    else if c == '\n' then "\\n"
    else if c == '\U{C}' then "\\f"
    else if c == '\r' then "\\r"
    else if c < ' ' then "\\u00" + [HexDigit(c as int / 16), HexDigit(c as int % 16)]
    else [c]
  }

  /** The body of a JSON string literal; plain text is copied as it is. */
  function Escape(s: string): (r: string)
    ensures |r| >= |s|
    ensures (forall i :: 0 <= i < |s| ==> ' ' <= s[i] && s[i] != '"' && s[i] != '\\') ==> r == s
  {
    if s == [] then "" else EscapeChar(s[0]) + Escape(s[1..])
  }

  function JsonString(s: string): string
  {
    "\"" + Escape(s) + "\""
  }

  /** `JSON.stringify({ lessonId, slideIndex })`. */
  function StateJson(s: SlideState): string
  {
    "{\"lessonId\":" + JsonString(s.lessonId) + ",\"slideIndex\":" + IntText(s.slideIndex) + "}"
  }

  /** The single line that carries a frame, without its terminating blank line. */
  function FrameLine(f: Frame): string
  {
    match f
    case Data(s) => "data: " + StateJson(s)
    case Heartbeat => ": heartbeat"
  }

  /** The text enqueued for a frame: its line, then the blank line that ends the event. */
  function Encode(f: Frame): string
  {
    FrameLine(f) + "\n\n"
  }

  lemma EscapeCharNoLineBreak(c: char)
    ensures NoLineBreak(EscapeChar(c))
  {
  }

  /** Escaping removes every line break from a string, so JSON text fits on one line. */
  lemma {:induction false} EscapeNoLineBreak(s: string)
    ensures NoLineBreak(Escape(s))
  {
    if s != [] {
      EscapeCharNoLineBreak(s[0]);
      EscapeNoLineBreak(s[1..]);
    }
  }

  lemma IntTextNoLineBreak(i: int)
    ensures NoLineBreak(IntText(i))
  {
    NatTextRoundTrip(if i < 0 then -i else i);
  }

  lemma NoLineBreakAppend(a: string, b: string)
    requires NoLineBreak(a) && NoLineBreak(b)
    ensures NoLineBreak(a + b)
  {
    forall i | 0 <= i < |a + b|
      ensures !IsLineBreak((a + b)[i])
    {
      if i < |a| {
        assert (a + b)[i] == a[i];
      } else {
        assert (a + b)[i] == b[i - |a|];
      }
    }
  }

  /** Every frame is one line followed by a blank line. */
  lemma FrameLineNoLineBreak(f: Frame)
    ensures NoLineBreak(FrameLine(f))
  {
    if f.Data? {
      var s := f.state;
      EscapeNoLineBreak(s.lessonId);
      IntTextNoLineBreak(s.slideIndex);
      NoLineBreakAppend("\"", Escape(s.lessonId));
      NoLineBreakAppend("\"" + Escape(s.lessonId), "\"");
      NoLineBreakAppend("{\"lessonId\":", JsonString(s.lessonId));
      NoLineBreakAppend("{\"lessonId\":" + JsonString(s.lessonId), ",\"slideIndex\":");
      NoLineBreakAppend("{\"lessonId\":" + JsonString(s.lessonId) + ",\"slideIndex\":", IntText(s.slideIndex));
      NoLineBreakAppend("{\"lessonId\":" + JsonString(s.lessonId) + ",\"slideIndex\":" + IntText(s.slideIndex), "}");
      NoLineBreakAppend("data: ", StateJson(s));
    }
  }

  // ---------------------------------------------------------------------
  // Reading the stream back (section 9.2.6 of the HTML standard)

  /**
   * The complete lines of a stream: lines end at LF, CR, or CR LF; a final
   * line without a terminator is still incomplete and is not returned.
   */
  function Lines(s: string, current: string): seq<string>
    decreases |s|
  {
    if s == [] then []
    else if s[0] == '\n' then [current] + Lines(s[1..], "")
    else if s[0] == '\r' then
      [current] + Lines(if |s| > 1 && s[1] == '\n' then s[2..] else s[1..], "")
    else Lines(s[1..], current + [s[0]])
  }

  datatype LineKind = BlankLine | Comment | Field(name: string, value: string)

  function IndexOfColon(line: string): (i: nat)
    ensures i <= |line|
    ensures i < |line| ==> line[i] == ':'
    ensures forall j :: 0 <= j < i ==> line[j] != ':'
  {
    if line == [] then 0
    else if line[0] == ':' then 0
    else 1 + IndexOfColon(line[1..])
  }

  /** How one line is read: blank, comment (starts with a colon) or a field. */
  function Interpret(line: string): LineKind
  {
    if line == [] then BlankLine
    else if line[0] == ':' then Comment
    else
      var i := IndexOfColon(line);
      if i == |line| then Field(line, "")
      else
        var value := line[i + 1..];
        Field(line[..i], if value != [] && value[0] == ' ' then value[1..] else value)
  }

  /**
   * The data of the events dispatched by a sequence of lines, starting with
   * the data buffer `buffer`. A blank line dispatches the buffer without its
   * final LF, unless the buffer is empty.
   */
  function Dispatch(lines: seq<string>, buffer: string): seq<string>
  {
    if lines == [] then []
    else
      match Interpret(lines[0])
      case BlankLine =>
        (if buffer == [] then [] else [buffer[..|buffer| - 1]]) + Dispatch(lines[1..], "")
      case Comment => Dispatch(lines[1..], buffer)
      case Field(name, value) =>
        if name == "data" then Dispatch(lines[1..], buffer + value + "\n")
        else Dispatch(lines[1..], buffer)
  }

  /** The data of every event a client reads from the stream text `s`. */
  function Events(s: string): seq<string>
  {
    Dispatch(Lines(s, ""), "")
  }

  /** The text of a connection that was sent `frames`, in order. */
  function Stream(frames: seq<Frame>): string
  {
    if frames == [] then "" else Encode(frames[0]) + Stream(frames[1..])
  }

  /** The payloads of the data frames among `frames`, in order. */
  function Payloads(frames: seq<Frame>): seq<string>
  {
    if frames == [] then []
    else (if frames[0].Data? then [StateJson(frames[0].state)] else []) + Payloads(frames[1..])
  }

  lemma {:induction false} LinesOfLine(line: string, rest: string, current: string)
    requires NoLineBreak(line)
    ensures Lines(line + rest, current) == Lines(rest, current + line)
    decreases |line|
  {
    if line != [] {
      var s := line + rest;
      assert s[0] == line[0] && !IsLineBreak(line[0]);
      assert s[1..] == line[1..] + rest;
      assert Lines(s, current) == Lines(line[1..] + rest, current + [line[0]]);
      LinesOfLine(line[1..], rest, current + [line[0]]);
      assert current + [line[0]] + line[1..] == current + line;
    } else {
      assert line + rest == rest && current + line == current;
    }
  }

  /** A line without a break, then a blank line, then more text. */
  lemma LinesOfEvent(line: string, rest: string)
    requires NoLineBreak(line)
    ensures Lines(line + "\n\n" + rest, "") == [line, ""] + Lines(rest, "")
  {
    assert line + "\n\n" + rest == line + ("\n\n" + rest);
    LinesOfLine(line, "\n\n" + rest, "");
    assert "" + line == line;
    var t := "\n\n" + rest;
    assert t[0] == '\n' && t[1..] == "\n" + rest;
    assert ("\n" + rest)[0] == '\n' && ("\n" + rest)[1..] == rest;
  }

  /** A frame followed by more text splits into the frame's line, a blank line, and the rest. */
  lemma LinesOfFrame(f: Frame, rest: string)
    ensures Lines(Encode(f) + rest, "") == [FrameLine(f), ""] + Lines(rest, "")
  {
    FrameLineNoLineBreak(f);
    LinesOfEvent(FrameLine(f), rest);
  }

  /** A data frame's line is read as the `data` field with the state's JSON as value. */
  lemma DataLineField(state: SlideState)
    ensures Interpret(FrameLine(Data(state))) == Field("data", StateJson(state))
  {
    var line := FrameLine(Data(state));
    assert line[..4] == "data" && line[4] == ':';
    assert IndexOfColon(line) == 4 by {
      assert forall j :: 0 <= j < 4 ==> line[j] != ':';
    }
    assert line[5..][1..] == StateJson(state);
  }

  lemma FrameDispatch(f: Frame, more: seq<string>)
    ensures Dispatch([FrameLine(f), ""] + more, "") ==
            (if f.Data? then [StateJson(f.state)] else []) + Dispatch(more, "")
  {
    var lines := [FrameLine(f), ""] + more;
    assert lines[1..] == [""] + more;
    assert ([""] + more)[1..] == more;
    if f.Data? {
      DataLineField(f.state);
      var buf := "" + StateJson(f.state) + "\n";
      assert buf[..|buf| - 1] == StateJson(f.state);
    }
  }

  /**
   * A client reading a connection's stream sees one event per data frame,
   * carrying exactly that frame's JSON, in the order the frames were sent;
   * heartbeats produce no event.
   */
  lemma {:induction false} StreamEvents(frames: seq<Frame>)
    ensures Events(Stream(frames)) == Payloads(frames)
  {
    if frames != [] {
      LinesOfFrame(frames[0], Stream(frames[1..]));
      FrameDispatch(frames[0], Lines(Stream(frames[1..]), ""));
      StreamEvents(frames[1..]);
    }
  }
}
