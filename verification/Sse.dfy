/** The wire framing of the live stream: the server's frame printer and the browser's chunk-fed
    reader. It is a subset of the event stream format of sections 9.2.5 and 9.2.6 of the WHATWG HTML
    Standard (server-sent events). */
module Sse {
  import opened Wrappers
  import opened Strings
  import opened Json

  datatype Kind = Log | Status | Done | Timeout

  datatype StreamEvent = StreamEvent(kind: Kind, data: Value)

  /** The JSON encoder of the server and the parser of the browser, uninterpreted. */
  datatype Codec = Codec(dumps: Value -> string, parse: string -> Option<Value>)

  function Name(kind: Kind): string {
    match kind case Log => "log" case Status => "status" case Done => "done" case Timeout => "timeout"
  }

  function KindOf(name: string): Option<Kind> {
    if name == "log" then Some(Log)
    else if name == "status" then Some(Status)
    else if name == "done" then Some(Done)
    else if name == "timeout" then Some(Timeout)
    else None
  }

  predicate OneLine(s: string) {
    forall i :: 0 <= i < |s| ==> s[i] != '\n'
  }

  /** The encoded value starts with a brace, has no line break (the encoder escapes them), and parses
      back to what was encoded. */
  ghost predicate EncodesWell(codec: Codec, v: Value) {
    var text := codec.dumps(v);
    text != [] && text[0] == '{' && OneLine(text) && codec.parse(text) == Some(v)
  }

  // ---------------------------------------------------------------- printing

  /** A frame without its closing blank line. */
  function Body(codec: Codec, e: StreamEvent): string {
    "event: " + Name(e.kind) + "\n" + "data: " + codec.dumps(e.data)
  }

  /** `_sse`. */
  function Frame(codec: Codec, e: StreamEvent): string {
    Body(codec, e) + "\n\n"
  }

  function Stream(codec: Codec, events: seq<StreamEvent>): string {
    if events == [] then [] else Frame(codec, events[0]) + Stream(codec, events[1..])
  }

  // ---------------------------------------------------------------- parsing one frame

  predicate IsSpace(c: char) {
    c in {' ', '\t', '\n', '\r', '\U{b}', '\U{c}', '\U{a0}', '\U{1680}', '\U{2028}', '\U{2029}', '\U{202f}',
        '\U{205f}', '\U{3000}', '\U{feff}'}
    || '\U{2000}' <= c <= '\U{200a}'
  }

  function TrimStart(s: string): string {
    if s != [] && IsSpace(s[0]) then TrimStart(s[1..]) else s
  }

  function TrimEnd(s: string): string {
    if s != [] && IsSpace(s[|s| - 1]) then TrimEnd(s[..|s| - 1]) else s
  }

  /** `split("\n")`. */
  function Lines(s: string): (lines: seq<string>)
    ensures lines != []
  {
    if s == [] then [[]]
    else
      var rest := Lines(s[1..]);
      if s[0] == '\n' then [[]] + rest else [[s[0]] + rest[0]] + rest[1..]
  }

  /** `join("\n")`. */
  function JoinLines(lines: seq<string>): string {
    if lines == [] then []
    else if |lines| == 1 then lines[0]
    else lines[0] + "\n" + JoinLines(lines[1..])
  }

  /** What the lines of a frame say: its last event name, and its data lines. */
  datatype Fields = Fields(event: string, data: seq<string>)

  function AddLine(f: Fields, line: string): Fields {
    if StartsWith(line, "event:") then f.(event := TrimEnd(TrimStart(line[6..])))
    else if StartsWith(line, "data:") then f.(data := f.data + [TrimStart(line[5..])])
    else f
  }

  function FieldsOf(lines: seq<string>): Fields {
    if lines == [] then Fields("message", []) else AddLine(FieldsOf(lines[..|lines| - 1]), lines[|lines| - 1])
  }

  function Interpret(codec: Codec, f: Fields): Option<StreamEvent> {
    if f.data == [] then None
    else
      match codec.parse(JoinLines(f.data))
      case None => None
      case Some(data) => match KindOf(f.event) case None => None case Some(k) => Some(StreamEvent(k, data))
  }

  function Parsed(codec: Codec, frame: string): Option<StreamEvent> {
    Interpret(codec, FieldsOf(Lines(frame)))
  }

  /** `parseFrame`. */
  method ParseFrame(codec: Codec, frame: string) returns (r: Option<StreamEvent>)
    ensures r == Parsed(codec, frame)
  {
    var event, dataLines := "message", [];
    var lines := Lines(frame);
    for i := 0 to |lines|
      invariant FieldsOf(lines[..i]) == Fields(event, dataLines)
    {
      var line := lines[i];
      assert lines[..i + 1][..i] == lines[..i];
      if StartsWith(line, "event:") {
        event := TrimEnd(TrimStart(line[6..]));
      } else if StartsWith(line, "data:") {
        dataLines := dataLines + [TrimStart(line[5..])];
      }
    }
    assert lines[..|lines|] == lines;
    if dataLines == [] {
      return None;
    }
    var data := codec.parse(JoinLines(dataLines));
    if data.None? || KindOf(event).None? {
      return None;
    }
    return Some(StreamEvent(KindOf(event).value, data.value));
  }

  // ---------------------------------------------------------------- cutting the buffer

  /** `indexOf("\n\n")`. */
  function FindBreak(s: string): (r: Option<nat>)
    ensures r.Some? ==> r.value + 2 <= |s| && s[r.value] == '\n' && s[r.value + 1] == '\n'
  {
    if |s| < 2 then None
    else if s[0] == '\n' && s[1] == '\n' then Some(0)
    else match FindBreak(s[1..]) case None => None case Some(i) => Some(i + 1)
  }

  /** Everything the inner loop takes off the buffer: the complete frames, and what is left. */
  function Drain(buffer: string): (seq<string>, string)
    decreases |buffer|
  {
    match FindBreak(buffer)
    case None => ([], buffer)
    case Some(sep) =>
      var (frames, rest) := Drain(buffer[sep + 2..]);
      ([buffer[..sep]] + frames, rest)
  }

  function Received(codec: Codec, frames: seq<string>): seq<StreamEvent> {
    if frames == [] then []
    else (match Parsed(codec, frames[0]) case Some(e) => [e] case None => []) + Received(codec, frames[1..])
  }

  lemma {:induction false} ReceivedConcat(codec: Codec, a: seq<string>, b: seq<string>)
    ensures Received(codec, a + b) == Received(codec, a) + Received(codec, b)
  {
    if a == [] {
      assert a + b == b;
    } else {
      assert (a + b)[1..] == a[1..] + b;
      ReceivedConcat(codec, a[1..], b);
    }
  }

  /** What one frame delivers. */
  function Delivered(codec: Codec, frame: string): seq<StreamEvent> {
    match Parsed(codec, frame) case Some(e) => [e] case None => []
  }

  lemma DrainOne(codec: Codec, buffer: string, sep: nat)
    requires FindBreak(buffer) == Some(sep)
    ensures Received(codec, Drain(buffer).0) == Delivered(codec, buffer[..sep])
            + Received(codec, Drain(buffer[sep + 2..]).0)
    ensures Drain(buffer).1 == Drain(buffer[sep + 2..]).1
  {
    var frames := Drain(buffer[sep + 2..]).0;
    DrainStep(buffer, sep);
    assert ([buffer[..sep]] + frames)[1..] == frames;
  }

  lemma {:induction false} BreakStays(a: string, b: string)
    requires FindBreak(a).Some?
    ensures FindBreak(a + b) == FindBreak(a)
  {
    if !(a[0] == '\n' && a[1] == '\n') {
      assert (a + b)[1..] == a[1..] + b;
      BreakStays(a[1..], b);
    }
  }

  lemma DrainStep(buffer: string, sep: nat)
    requires FindBreak(buffer) == Some(sep)
    ensures Drain(buffer).0 == [buffer[..sep]] + Drain(buffer[sep + 2..]).0
    ensures Drain(buffer).1 == Drain(buffer[sep + 2..]).1
  {
  }

  lemma Regroup<T>(a: seq<T>, b: seq<T>, c: seq<T>)
    ensures a + (b + c) == (a + b) + c
  {
  }

  /** Draining in two instalments takes off the same frames and leaves the same rest. */
  lemma {:induction false} DrainAppend(a: string, b: string)
    ensures Drain(a + b).0 == Drain(a).0 + Drain(Drain(a).1 + b).0
    ensures Drain(a + b).1 == Drain(Drain(a).1 + b).1
    decreases |a|
  {
    if FindBreak(a).Some? {
      var sep := FindBreak(a).value;
      var tail := a[sep + 2..];
      BreakStays(a, b);
      assert (a + b)[..sep] == a[..sep] && (a + b)[sep + 2..] == tail + b;
      DrainStep(a, sep);
      DrainStep(a + b, sep);
      DrainAppend(tail, b);
      Regroup([a[..sep]], Drain(tail).0, Drain(Drain(tail).1 + b).0);
    }
  }

  // ---------------------------------------------------------------- the reader

  function Concat(chunks: seq<string>): string {
    if chunks == [] then [] else Concat(chunks[..|chunks| - 1]) + chunks[|chunks| - 1]
  }

  /** The inner loop: cut complete frames off the buffer and deliver their events. */
  method DrainBuffer(codec: Codec, filled: string) returns (events: seq<StreamEvent>, buffer: string)
    ensures events == Received(codec, Drain(filled).0) && buffer == Drain(filled).1
  {
    events, buffer := [], filled;
    var sep := FindBreak(buffer);
    while sep.Some?
      invariant sep == FindBreak(buffer)
      invariant events + Received(codec, Drain(buffer).0) == Received(codec, Drain(filled).0)
      invariant Drain(buffer).1 == Drain(filled).1
      decreases |buffer|
    {
      var frame := buffer[..sep.value];
      DrainOne(codec, buffer, sep.value);
      Regroup(events, Delivered(codec, frame), Received(codec, Drain(buffer[sep.value + 2..]).0));
      buffer := buffer[sep.value + 2..];
      var parsed := ParseFrame(codec, frame);
      events := events + if parsed.Some? then [parsed.value] else [];
      sep := FindBreak(buffer);
    }
  }

  /** The reader loop of `streamRunEvents`: the events it delivers depend only on the text that
      arrives, not on how it is cut into chunks. */
  method ReadStream(codec: Codec, chunks: seq<string>) returns (events: seq<StreamEvent>, buffer: string)
    ensures events == Received(codec, Drain(Concat(chunks)).0)
    ensures buffer == Drain(Concat(chunks)).1
  {
    events, buffer := [], [];
    for i := 0 to |chunks|
      invariant events == Received(codec, Drain(Concat(chunks[..i])).0)
      invariant buffer == Drain(Concat(chunks[..i])).1
    {
      assert chunks[..i + 1][..i] == chunks[..i];
      DrainAppend(Concat(chunks[..i]), chunks[i]);
      ReceivedConcat(codec, Drain(Concat(chunks[..i])).0, Drain(buffer + chunks[i]).0);
      var more;
      more, buffer := DrainBuffer(codec, buffer + chunks[i]);
      events := events + more;
    }
    assert chunks[..|chunks|] == chunks;
  }

  // ---------------------------------------------------------------- the round trip

  lemma {:induction false} LinesOfOne(s: string)
    requires OneLine(s)
    ensures Lines(s) == [s]
  {
    if s != [] {
      LinesOfOne(s[1..]);
      assert s == [s[0]] + s[1..];
    }
  }

  lemma {:induction false} LinesOfTwo(a: string, b: string)
    requires OneLine(a) && OneLine(b)
    ensures Lines(a + "\n" + b) == [a, b]
  {
    var s := a + "\n" + b;
    if a == [] {
      assert s[0] == '\n' && s[1..] == b;
      LinesOfOne(b);
    } else {
      assert s[0] == a[0] && s[1..] == a[1..] + "\n" + b;
      LinesOfTwo(a[1..], b);
      assert a == [a[0]] + a[1..];
    }
  }

  lemma TrimPadded(name: string)
    requires name != [] && !IsSpace(name[0]) && !IsSpace(name[|name| - 1])
    ensures TrimEnd(TrimStart(" " + name)) == name && TrimStart(" " + name) == name
  {
    assert (" " + name)[1..] == name;
    assert TrimStart(name) == name;
  }

  lemma NameIsPlain(kind: Kind)
    ensures var name := Name(kind);
            name != [] && OneLine(name) && !IsSpace(name[0]) && !IsSpace(name[|name| - 1]) && KindOf(name) == Some(kind)
  {
    var name := Name(kind);
    match kind
    case Log => assert name[0] == 'l' && name[2] == 'g';
    case Status => assert name[0] == 's' && name[5] == 's';
    case Done => assert name[0] == 'd' && name[3] == 'e';
    case Timeout => assert name[0] == 't' && name[6] == 't';
  }

  lemma NameSurvives(kind: Kind)
    ensures var line := "event: " + Name(kind);
            OneLine(line) && StartsWith(line, "event:") && TrimEnd(TrimStart(line[6..])) == Name(kind)
  {
    var line := "event: " + Name(kind);
    NameIsPlain(kind);
    TrimPadded(Name(kind));
    assert line[..6] == "event:" && line[6..] == " " + Name(kind);
  }

  lemma DataSurvives(text: string)
    requires text != [] && text[0] == '{' && OneLine(text)
    ensures var line := "data: " + text;
            OneLine(line) && !StartsWith(line, "event:") && StartsWith(line, "data:") && TrimStart(line[5..]) == text
  {
    var line := "data: " + text;
    assert line[..6][0] == 'd' && "event:"[0] == 'e';
    assert line[..5] == "data:" && line[5..] == " " + text;
    assert (" " + text)[1..] == text;
    assert TrimStart(text) == text;
  }

  /** A printed frame parses back to its event. */
  lemma FrameParses(codec: Codec, e: StreamEvent)
    requires EncodesWell(codec, e.data)
    ensures Parsed(codec, Body(codec, e)) == Some(e)
  {
    var eventLine, dataLine := "event: " + Name(e.kind), "data: " + codec.dumps(e.data);
    NameSurvives(e.kind);
    DataSurvives(codec.dumps(e.data));
    assert Body(codec, e) == eventLine + "\n" + dataLine;
    LinesOfTwo(eventLine, dataLine);
    FieldsOfTwo(eventLine, dataLine);
  }

  lemma FieldsOfTwo(a: string, b: string)
    ensures FieldsOf([a, b]) == AddLine(AddLine(Fields("message", []), a), b)
  {
    assert [a, b][..1] == [a] && [a][..0] == [];
    assert FieldsOf([a]) == AddLine(FieldsOf([]), a);
  }

  ghost predicate BreakAt(s: string, i: nat)
    requires i + 1 < |s|
  {
    s[i] == '\n' && s[i + 1] == '\n'
  }

  ghost predicate NoBreakIn(s: string) {
    s != [] && s[|s| - 1] != '\n' && forall i :: 0 <= i < |s| - 1 ==> !BreakAt(s, i)
  }

  /** Text in which no two line breaks are adjacent and that does not end in one has its first blank
      line where one is appended. */
  lemma {:induction false} BreakAfter(body: string, rest: string)
    requires NoBreakIn(body)
    ensures FindBreak(body + "\n\n" + rest) == Some(|body|)
  {
    var s := body + "\n\n" + rest;
    assert s[0] == body[0];
    if |body| == 1 {
      assert s[1..] == "\n\n" + rest;
      assert s[1..][0] == '\n' && s[1..][1] == '\n';
    } else {
      assert s[1] == body[1] && !BreakAt(body, 0);
      assert s[1..] == body[1..] + "\n\n" + rest;
      forall i | 0 <= i < |body[1..]| - 1 ensures !BreakAt(body[1..], i) {
        assert !BreakAt(body, i + 1);
      }
      BreakAfter(body[1..], rest);
    }
  }

  lemma BodyHasNoBreak(codec: Codec, e: StreamEvent)
    requires EncodesWell(codec, e.data)
    ensures NoBreakIn(Body(codec, e))
  {
    var a, b := "event: " + Name(e.kind), "data: " + codec.dumps(e.data);
    NameSurvives(e.kind);
    DataSurvives(codec.dumps(e.data));
    var body := Body(codec, e);
    assert body == a + "\n" + b;
    forall i | 0 <= i < |body| && i != |a| ensures body[i] != '\n' {
      if i < |a| {
        assert body[i] == a[i];
      } else {
        assert body[i] == b[i - |a| - 1];
      }
    }
  }

  /** The first frame of a printed stream is cut off whole. */
  lemma FirstFrame(codec: Codec, e: StreamEvent, rest: string)
    requires EncodesWell(codec, e.data)
    ensures var text, n := Frame(codec, e) + rest, |Body(codec, e)|;
            FindBreak(text) == Some(n) && text[..n] == Body(codec, e) && text[n + 2..] == rest
  {
    var body := Body(codec, e);
    BodyHasNoBreak(codec, e);
    BreakAfter(body, rest);
    assert Frame(codec, e) + rest == body + "\n\n" + rest;
  }

  /** The printed stream drains into its frames, leaving nothing. */
  lemma {:induction false} StreamDrains(codec: Codec, events: seq<StreamEvent>)
    requires forall i :: 0 <= i < |events| ==> EncodesWell(codec, events[i].data)
    ensures Drain(Stream(codec, events)).1 == []
    ensures Received(codec, Drain(Stream(codec, events)).0) == events
  {
    if events != [] {
      var e, rest := events[0], Stream(codec, events[1..]);
      FirstFrame(codec, e, rest);
      FrameParses(codec, e);
      DrainOne(codec, Frame(codec, e) + rest, |Body(codec, e)|);
      StreamDrains(codec, events[1..]);
    }
  }

  /** What has arrived of a printed stream delivers a prefix of its events. */
  lemma ArrivedIsPrefix(codec: Codec, events: seq<StreamEvent>, text: string)
    requires forall i :: 0 <= i < |events| ==> EncodesWell(codec, events[i].data)
    requires text <= Stream(codec, events)
    ensures Received(codec, Drain(text).0) <= events
  {
    var all := Stream(codec, events);
    var rest := all[|text|..];
    assert all == text + rest;
    StreamDrains(codec, events);
    DrainAppend(text, rest);
    ReceivedConcat(codec, Drain(text).0, Drain(Drain(text).1 + rest).0);
  }

  /** However the printed stream of an event list is cut into chunks, the reader delivers exactly
      that list, in order, and ends with an empty buffer. */
  method ReadPrintedStream(codec: Codec, events: seq<StreamEvent>, chunks: seq<string>)
    returns (delivered: seq<StreamEvent>)
    requires forall i :: 0 <= i < |events| ==> EncodesWell(codec, events[i].data)
    requires Concat(chunks) == Stream(codec, events)
    ensures delivered == events
  {
    StreamDrains(codec, events);
    var buffer;
    delivered, buffer := ReadStream(codec, chunks);
  }
}
