/** Reading one server-sent-event frame. */
module SseFrame {
  import opened Wrappers
  import opened Text
  import opened Framing

  /** What the line loop has collected: the last event name, every data line. */
  datatype Fields = Fields(event: Option<string>, data: seq<string>)

  predicate HasPrefix(line: string, prefix: string) {
    prefix <= line
  }

  function ReadLine(fields: Fields, rawLine: string): Fields {
    var line := TrimEndChar(rawLine, '\r');
    if HasPrefix(line, "event:") then
      fields.(event := Some(Trim(line[6..])))
    else if HasPrefix(line, "data:") then
      fields.(data := fields.data + [TrimStart(line[5..])])
    else
      fields
  }

  function ReadLines(fields: Fields, lines: seq<string>): Fields
    decreases |lines|
  {
    if lines == [] then fields else ReadLines(ReadLine(fields, lines[0]), lines[1..])
  }

  datatype Frame = Frame(event: string, data: string)

  /** A frame counts only with an event name and at least one data line. */
  function Finish(fields: Fields): Option<Frame> {
    if fields.event.Some? && fields.data != [] then
      Some(Frame(fields.event.value, Join(fields.data, "\n")))
    else
      None
  }

  function ParseSpec(text: string): Option<Frame> {
    Finish(ReadLines(Fields(None, []), Split(text, '\n')))
  }

  // ------------------------------------------------------ what a text means

  predicate IsEventLine(line: string) {
    HasPrefix(TrimEndChar(line, '\r'), "event:")
  }

  predicate IsDataLine(line: string) {
    HasPrefix(TrimEndChar(line, '\r'), "data:")
  }

  function EventValue(line: string): string
    requires IsEventLine(line)
  {
    Trim(TrimEndChar(line, '\r')[6..])
  }

  function DataValue(line: string): string
    requires IsDataLine(line)
  {
    TrimStart(TrimEndChar(line, '\r')[5..])
  }

  ghost predicate IsLastEvent(lines: seq<string>, i: nat) {
    i < |lines| && IsEventLine(lines[i]) && forall j | i < j < |lines| :: !IsEventLine(lines[j])
  }

  /** The values of all data lines, in order. */
  function DataValues(lines: seq<string>): seq<string> {
    if lines == [] then []
    else (if IsDataLine(lines[0]) then [DataValue(lines[0])] else []) + DataValues(lines[1..])
  }

  lemma {:induction false} ReadLinesMeaning(fields: Fields, lines: seq<string>)
    ensures var r := ReadLines(fields, lines);
            && r.data == fields.data + DataValues(lines)
            && (forall i: nat | IsLastEvent(lines, i) :: r.event == Some(EventValue(lines[i])))
            && ((forall i | 0 <= i < |lines| :: !IsEventLine(lines[i])) ==> r.event == fields.event)
    decreases |lines|
  {
    hide TrimEndChar, Trim, TrimStart;
    if lines != [] {
      var rest, next := lines[1..], ReadLine(fields, lines[0]);
      ReadLinesMeaning(next, rest);
      ReadLineMeaning(fields, lines[0]);
      Associative(fields.data, if IsDataLine(lines[0]) then [DataValue(lines[0])] else [], DataValues(rest));
      assert forall i | 0 <= i < |rest| :: rest[i] == lines[i + 1];
      forall i: nat | IsLastEvent(lines, i)
        ensures ReadLines(fields, lines).event == Some(EventValue(lines[i]))
      {
        if i > 0 {
          assert IsLastEvent(rest, i - 1);
        }
      }
    }
  }

  lemma ReadLineMeaning(fields: Fields, line: string)
    ensures ReadLine(fields, line) ==
              Fields(if IsEventLine(line) then Some(EventValue(line)) else fields.event,
                     fields.data + if IsDataLine(line) then [DataValue(line)] else [])
  {
    assert fields.data + [] == fields.data;
    var clean := TrimEndChar(line, '\r');
    assert HasPrefix(clean, "event:") ==> clean[0] == "event:"[0];
    assert HasPrefix(clean, "data:") ==> clean[0] == "data:"[0];
  }

  lemma {:induction false} LastEventExists(lines: seq<string>) returns (last: Option<nat>)
    ensures last.Some? ==> IsLastEvent(lines, last.value)
    ensures last.None? ==> forall i | 0 <= i < |lines| :: !IsEventLine(lines[i])
  {
    last := None;
    if lines != [] {
      var n := |lines| - 1;
      if IsEventLine(lines[n]) {
        last := Some(n);
      } else {
        last := LastEventExists(lines[..n]);
      }
    }
  }

  /** What any text comes to: the trimmed value of its last event line with the
      values of all its data lines, and nothing unless it has both. */
  ghost predicate IsMeaning(text: string, frame: Option<Frame>) {
    var lines := Split(text, '\n');
    match frame
    case None => (forall i | 0 <= i < |lines| :: !IsEventLine(lines[i])) || DataValues(lines) == []
    case Some(f) =>
      && (exists i: nat :: IsLastEvent(lines, i) && f.event == EventValue(lines[i]))
      && DataValues(lines) != [] && f.data == Join(DataValues(lines), "\n")
  }

  lemma ParseMeaning(text: string)
    ensures IsMeaning(text, ParseSpec(text))
  {
    var lines := Split(text, '\n');
    ReadLinesMeaning(Fields(None, []), lines);
    var last := LastEventExists(lines);
    assert [] + DataValues(lines) == DataValues(lines);
  }

  /** The source's loop over the lines of a decoded frame. */
  method ParseSseFrame(text: string) returns (frame: Option<Frame>)
    ensures frame == ParseSpec(text)
    ensures IsMeaning(text, frame)
  {
    ParseMeaning(text);
    var lines := Split(text, '\n');
    var event: Option<string> := None;
    var data: seq<string> := [];
    for i := 0 to |lines|
      invariant ReadLines(Fields(event, data), lines[i..]) == ReadLines(Fields(None, []), lines)
    {
      var line := TrimEndChar(lines[i], '\r');
      assert lines[i..][1..] == lines[i + 1..];
      if HasPrefix(line, "event:") {
        event := Some(Trim(line[6..]));
      } else if HasPrefix(line, "data:") {
        data := data + [TrimStart(line[5..])];
      }
    }
    if event.Some? && data != [] {
      frame := Some(Frame(event.value, Join(data, "\n")));
    } else {
      frame := None;
    }
  }

  // --------------------------------------------------------------- round trip

  /** A frame as a server writes it: the event name, the data lines, a blank line. */
  function Render(event: string, data: seq<string>): string {
    "event: " + event + "\n" + RenderData(data)
  }

  function RenderData(data: seq<string>): string {
    if data == [] then "\n" else "data: " + data[0] + "\n" + RenderData(data[1..])
  }

  /** What survives of a data line. */
  function CleanLine(line: string): string {
    TrimStart(TrimEndChar(line, '\r'))
  }

  function CleanLines(lines: seq<string>): (r: seq<string>)
    ensures |r| == |lines|
  {
    seq(|lines|, i requires 0 <= i < |lines| => CleanLine(lines[i]))
  }

  lemma {:induction false} CarriageReturnsBehind(prefix: string, line: string)
    requires prefix != "" && prefix[|prefix| - 1] != '\r'
    ensures TrimEndChar(prefix + line, '\r') == prefix + TrimEndChar(line, '\r')
    decreases |line|
  {
    var s := prefix + line;
    if line == "" {
      assert s == prefix;
    } else if line[|line| - 1] == '\r' {
      assert s[..|s| - 1] == prefix + line[..|line| - 1];
      CarriageReturnsBehind(prefix, line[..|line| - 1]);
    } else {
      assert s[|s| - 1] != '\r';
    }
  }

  lemma {:induction false} TrimStartDropsCarriageReturns(s: string)
    ensures TrimEnd(TrimStart(TrimEndChar(s, '\r'))) == TrimEnd(TrimStart(s))
    decreases |s|
  {
    if s != "" && s[|s| - 1] == '\r' {
      var t := s[..|s| - 1];
      TrimStartDropsCarriageReturns(t);
      TrimStartAppendSpace(t, '\r');
      assert s == t + ['\r'];
    }
  }

  lemma {:induction false} TrimStartAppendSpace(t: string, c: char)
    requires IsSpace(c)
    ensures TrimEnd(TrimStart(t + [c])) == TrimEnd(TrimStart(t))
  {
    if t != "" && IsSpace(t[0]) {
      assert (t + [c])[1..] == t[1..] + [c];
      TrimStartAppendSpace(t[1..], c);
    } else if t == "" {
      assert (t + [c])[1..] == "";
    } else {
      assert (t + [c])[..|t|] == t;
    }
  }

  lemma EventLine(fields: Fields, event: string)
    ensures ReadLine(fields, "event: " + event) == fields.(event := Some(Trim(event)))
  {
    var line := "event: " + event;
    CarriageReturnsBehind("event: ", event);
    var kept := TrimEndChar(event, '\r');
    assert ("event: " + kept)[6..] == " " + kept;
    assert (" " + kept)[1..] == kept;
    TrimStartDropsCarriageReturns(event);
  }

  lemma DataLine(fields: Fields, line: string)
    ensures ReadLine(fields, "data: " + line) == fields.(data := fields.data + [CleanLine(line)])
  {
    CarriageReturnsBehind("data: ", line);
    var kept := TrimEndChar(line, '\r');
    assert ("data: " + kept)[5..] == " " + kept;
    assert (" " + kept)[1..] == kept;
  }

  lemma BlankLine(fields: Fields)
    ensures ReadLines(fields, Split("\n", '\n')) == fields
  {
    SplitLine("", "", '\n');
    assert "" + ['\n'] + "" == "\n";
    var lines: seq<string> := ["", ""];
    assert Split("\n", '\n') == lines;
    assert lines[1..] == [""] && lines[1..][1..] == [];
    assert TrimEndChar("", '\r') == "";
  }

  lemma FirstDataLine(fields: Fields, d: string, rest: string)
    requires '\n' !in d
    ensures ReadLines(fields, Split("data: " + d + "\n" + rest, '\n')) ==
              ReadLines(fields.(data := fields.data + [CleanLine(d)]), Split(rest, '\n'))
  {
    var line := "data: " + d;
    SplitLine(line, rest, '\n');
    DataLine(fields, d);
    var lines := [line] + Split(rest, '\n');
    assert lines[1..] == Split(rest, '\n') && lines[0] == line;
  }

  lemma {:induction false} DataLines(fields: Fields, data: seq<string>)
    requires forall l | l in data :: '\n' !in l
    ensures ReadLines(fields, Split(RenderData(data), '\n')) == fields.(data := fields.data + CleanLines(data))
    decreases |data|
  {
    hide Split, CleanLine;
    if data == [] {
      BlankLine(fields);
      assert CleanLines(data) == [] && fields.data + [] == fields.data;
    } else {
      assert data[0] in data;
      FirstDataLine(fields, data[0], RenderData(data[1..]));
      var next := fields.(data := fields.data + [CleanLine(data[0])]);
      DataLines(next, data[1..]);
      assert fields.data + CleanLines(data) == next.data + CleanLines(data[1..]);
    }
  }

  /** A rendered frame reads back as its trimmed name and its cleaned lines;
      without a data line it is dropped. */
  lemma RenderedFrameParses(event: string, data: seq<string>)
    requires '\n' !in event && forall l | l in data :: '\n' !in l
    ensures ParseSpec(Render(event, data)) ==
              if data == [] then None else Some(Frame(Trim(event), Join(CleanLines(data), "\n")))
  {
    var line, rest := "event: " + event, RenderData(data);
    SplitLine(line, rest, '\n');
    assert Render(event, data) == line + ['\n'] + rest;
    EventLine(Fields(None, []), event);
    DataLines(Fields(Some(Trim(event)), []), data);
    assert ([line] + Split(rest, '\n'))[1..] == Split(rest, '\n');
    assert [] + CleanLines(data) == CleanLines(data);
  }

  lemma {:induction false} JoinIsInjective(a: seq<string>, b: seq<string>)
    requires |a| == |b| != 0
    requires forall l | l in a :: '\n' !in l
    requires forall l | l in b :: '\n' !in l
    requires Join(a, "\n") == Join(b, "\n")
    ensures a == b
    decreases |a|
  {
    if |a| > 1 {
      var x, y := Join(a[1..], "\n"), Join(b[1..], "\n");
      assert Join(a, "\n") == a[0] + ['\n'] + x && Join(b, "\n") == b[0] + ['\n'] + y;
      assert a[0] in a && b[0] in b;
      SplitLine(a[0], x, '\n');
      SplitLine(b[0], y, '\n');
      assert a[0] == ([a[0]] + Split(x, '\n'))[0] && b[0] == ([b[0]] + Split(y, '\n'))[0];
      assert a[0] == b[0];
      assert x == Join(a, "\n")[|a[0]| + 1..] && y == Join(b, "\n")[|b[0]| + 1..];
      JoinIsInjective(a[1..], b[1..]);
    }
    assert a == [a[0]] + a[1..] && b == [b[0]] + b[1..];
  }

  /** Writing then reading is the identity exactly for a trimmed name and data
      lines without leading white space or trailing carriage returns. */
  lemma RoundTripIff(event: string, data: seq<string>)
    requires '\n' !in event && data != [] && forall l | l in data :: '\n' !in l
    ensures ParseSpec(Render(event, data)) == Some(Frame(event, Join(data, "\n"))) <==>
              Trim(event) == event && forall l | l in data :: CleanLine(l) == l
  {
    RenderedFrameParses(event, data);
    var clean := CleanLines(data);
    forall i | 0 <= i < |clean|
      ensures '\n' !in clean[i]
    {
      assert data[i] in data;
      TrimEndCharFacts(data[i], '\r');
      TrimStartFacts(TrimEndChar(data[i], '\r'));
    }
    if Join(clean, "\n") == Join(data, "\n") {
      JoinIsInjective(clean, data);
      forall l | l in data
        ensures CleanLine(l) == l
      {
        var i :| 0 <= i < |data| && data[i] == l;
        assert clean[i] == data[i];
      }
    }
    if forall l | l in data :: CleanLine(l) == l {
      forall i | 0 <= i < |data|
        ensures clean[i] == data[i]
      {
        assert data[i] in data;
      }
      assert clean == data;
    }
  }
}
