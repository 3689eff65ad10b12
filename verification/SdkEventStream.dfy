/** The SDK's event reader: a text buffer cut at blank lines, whatever the
    chunks the text arrives in. */
module SdkEventStream {
  import opened Wrappers
  import opened Framing
  import opened Text

  const BLANK_LINE: string := "\n\n"

  // -------------------------------------------------------------- one frame

  /** A line without the carriage return before its newline. */
  function Line(text: string, end: nat): string
    requires end <= |text|
  {
    if end > 0 && end < |text| && text[end - 1] == '\r' then text[..end - 1] else text[..end]
  }

  function NewlineAt(text: string): (i: nat)
    ensures i <= |text|
    ensures i < |text| ==> text[i] == '\n'
  {
    if text == "" || text[0] == '\n' then 0 else 1 + NewlineAt(text[1..])
  }

  /** The data of a frame: its `data:` lines, trimmed in front, joined. */
  function DataLines(frame: string): seq<string>
    decreases |frame|
  {
    var i := NewlineAt(frame);
    var line := Line(frame, i);
    var own := if "data:" <= line then [JsTrimStart(line[5..])] else [];
    if i < |frame| then own + DataLines(frame[i + 1..]) else own
  }

  /** What a frame comes to: nothing, an event, or data that is no JSON. */
  datatype Outcome<V> = NoEvent | Event(value: V) | BadJson

  function ParseSseFrame<V>(json: string -> Option<V>, frame: string): Outcome<V> {
    var data := Join(DataLines(frame), "\n");
    if data == "" || data == "[DONE]" then NoEvent
    else match json(data)
      case None => BadJson
      case Some(v) => Event(v)
  }

  // ------------------------------------------------------ what a frame means

  /** What one line adds to a frame's data. */
  function Carried(line: string): seq<string> {
    if |line| >= 5 && line[..5] == "data:" then [JsTrimStart(line[5..])] else []
  }

  /** A line without one carriage return at its end. */
  function WithoutReturn(line: string): string {
    if line != "" && line[|line| - 1] == '\r' then line[..|line| - 1] else line
  }

  lemma {:induction false} NewlineIsFound(line: string, rest: string)
    requires '\n' !in line
    ensures NewlineAt(line) == |line| && NewlineAt(line + "\n" + rest) == |line|
  {
    var text := line + "\n" + rest;
    if line == "" {
      assert text[0] == '\n';
    } else {
      assert line[0] in line && text[0] == line[0];
      assert text[1..] == line[1..] + "\n" + rest;
      NewlineIsFound(line[1..], rest);
    }
  }

  /** A frame's data, line by line: each line that begins with `data:` adds what
      follows, trimmed in front, and no other line adds anything; a line loses
      one carriage return in front of its newline, the last line keeps it. */
  lemma FrameLineByLine(line: string, rest: string)
    requires '\n' !in line
    ensures DataLines(line) == Carried(line)
    ensures DataLines(line + "\n" + rest) == Carried(WithoutReturn(line)) + DataLines(rest)
  {
    var text := line + "\n" + rest;
    NewlineIsFound(line, rest);
    assert line[..|line|] == line;
    assert Line(text, |line|) == WithoutReturn(line) by {
      assert text[..|line|] == line;
      assert line != "" ==> text[|line| - 1] == line[|line| - 1];
      assert line != "" ==> text[..|line| - 1] == line[..|line| - 1];
    }
    assert text[|line| + 1..] == rest;
    PrefixByLength(line);
    PrefixByLength(WithoutReturn(line));
  }

  lemma PrefixByLength(line: string)
    ensures "data:" <= line <==> |line| >= 5 && line[..5] == "data:"
  {
  }

  /** A frame is no event without data or with the end mark; otherwise it is its
      data, read as JSON. */
  lemma FrameOutcome<V>(json: string -> Option<V>, frame: string)
    ensures var data := Join(DataLines(frame), "\n");
            var outcome := ParseSseFrame(json, frame);
            && (outcome.NoEvent? <==> data == "" || data == "[DONE]")
            && (forall v :: outcome == Event(v) <==> data != "" && data != "[DONE]" && json(data) == Some(v))
  {
  }

  // -------------------------------------------------------------- the stream

  /** The frames of a text, without their blank lines, and what is left. */
  datatype Pieces = Pieces(frames: seq<string>, rest: string)

  ghost function SplitFrames(text: string): Pieces
    decreases |text|
  {
    match Find(text, BLANK_LINE)
    case None => Pieces([], text)
    case Some(i) =>
      var tail := SplitFrames(text[i + 2..]);
      Pieces([text[..i]] + tail.frames, tail.rest)
  }

  function Rejoin(frames: seq<string>): string {
    if frames == [] then "" else frames[0] + BLANK_LINE + Rejoin(frames[1..])
  }

  /** The split is at every first blank line: the frames with theirs put back,
      and the remainder, are the text; no frame reaches past its first blank
      line, and the remainder holds none. */
  lemma {:induction false} SplitRejoins(text: string)
    ensures var p := SplitFrames(text);
            && Rejoin(p.frames) + p.rest == text
            && Find(p.rest, BLANK_LINE).None?
            && forall f | f in p.frames :: Find(f + BLANK_LINE, BLANK_LINE) == Some(|f|)
    decreases |text|
  {
    if Find(text, BLANK_LINE).Some? {
      var i := Find(text, BLANK_LINE).value;
      var head, later := text[..i] + BLANK_LINE, text[i + 2..];
      assert text == head + later;
      assert head[i..i + |BLANK_LINE|] == BLANK_LINE;
      assert OccursAt(head, BLANK_LINE, i);
      FindExtends(head, later, BLANK_LINE);
      SplitRejoins(later);
      var tail := SplitFrames(later);
      var frames := [text[..i]] + tail.frames;
      assert frames[1..] == tail.frames;
      Associative(head, Rejoin(tail.frames), tail.rest);
    }
  }

  /** What the reader yields: events in order, until a frame is no JSON. */
  datatype Yield<V> = Yield(events: seq<V>, failed: bool)

  function ReadFrames<V>(json: string -> Option<V>, y: Yield<V>, frames: seq<string>): Yield<V>
    decreases |frames|
  {
    if frames == [] || y.failed then y
    else
      var next :=
        match ParseSseFrame(json, frames[0])
        case NoEvent => y
        case Event(v) => Yield(y.events + [v], false)
        case BadJson => Yield(y.events, true);
      ReadFrames(json, next, frames[1..])
  }

  /** The values of the frames that are events, in order. */
  function Values<V>(json: string -> Option<V>, frames: seq<string>): seq<V> {
    if frames == [] then []
    else
      var n := |frames| - 1;
      Values(json, frames[..n]) +
      match ParseSseFrame(json, frames[n]) case Event(v) => [v] case _ => []
  }

  ghost predicate FirstBad<V>(json: string -> Option<V>, frames: seq<string>, bad: nat) {
    && bad <= |frames|
    && (forall i | 0 <= i < bad :: !ParseSseFrame(json, frames[i]).BadJson?)
    && (bad < |frames| ==> ParseSseFrame(json, frames[bad]).BadJson?)
  }

  /** Reading frames yields the events up to the first frame that is no JSON, in
      order, and fails exactly if there is one. */
  lemma {:induction false} ReadFramesMeaning<V>(json: string -> Option<V>, frames: seq<string>) returns (bad: nat)
    ensures FirstBad(json, frames, bad)
    ensures ReadFrames(json, Yield([], false), frames) == Yield(Values(json, frames[..bad]), bad < |frames|)
    decreases |frames|
  {
    hide ParseSseFrame;
    if frames == [] {
      bad := 0;
    } else {
      var n := |frames| - 1;
      var before, last := frames[..n], frames[n];
      bad := ReadFramesMeaning(json, before);
      assert before[..bad] == frames[..bad];
      assert frames == before + [last];
      ReadFramesAppend(json, Yield([], false), before, [last]);
      if bad == n {
        ReadsOneFrame(json, Yield(Values(json, before), false), last);
        assert before[..n] == before;
        if !ParseSseFrame(json, last).BadJson? {
          bad := n + 1;
          assert frames[..n + 1] == frames && frames[..n + 1][..n] == before;
          assert Values(json, before) + [] == Values(json, before);
        }
      }
    }
  }

  /** The reference reading of a whole text: every frame, then the remainder
      with what the decoder still held. */
  ghost function ReadText<V>(json: string -> Option<V>, text: string, flushed: string): Yield<V> {
    var p := SplitFrames(text);
    ReadFrames(json, Yield([], false), p.frames + [p.rest + flushed])
  }

  /** Text still to come does not move a blank line already seen. */
  lemma {:induction false} SplitExtends(x: string, y: string)
    ensures SplitFrames(x + y) ==
              var first := SplitFrames(x);
              var second := SplitFrames(first.rest + y);
              Pieces(first.frames + second.frames, second.rest)
    decreases |x|
  {
    hide Find;
    if Find(x, BLANK_LINE).Some? {
      var i := Find(x, BLANK_LINE).value;
      FindFits(x, BLANK_LINE);
      SplitStarts(x, y, i);
      SplitExtends(x[i + 2..], y);
      var tail := SplitFrames(x[i + 2..]);
      Associative([x[..i]], tail.frames, SplitFrames(tail.rest + y).frames);
    }
  }

  lemma SplitStarts(x: string, y: string, i: nat)
    requires Find(x, BLANK_LINE) == Some(i) && i + 2 <= |x|
    ensures var tail := SplitFrames(x[i + 2..] + y);
            SplitFrames(x + y) == Pieces([x[..i]] + tail.frames, tail.rest)
  {
    hide IsFirst;
    FindExtends(x, y, BLANK_LINE);
    assert (x + y)[..i] == x[..i];
    assert (x + y)[i + 2..] == x[i + 2..] + y;
  }

  lemma {:induction false} ReadFramesAppend<V>(json: string -> Option<V>, y: Yield<V>, a: seq<string>, b: seq<string>)
    ensures ReadFrames(json, y, a + b) == ReadFrames(json, ReadFrames(json, y, a), b)
    decreases |a|
  {
    if a == [] {
      assert a + b == b;
    } else if !y.failed {
      assert (a + b)[1..] == a[1..] + b;
      var next :=
        match ParseSseFrame(json, a[0])
        case NoEvent => y
        case Event(v) => Yield(y.events + [v], false)
        case BadJson => Yield(y.events, true);
      ReadFramesAppend(json, next, a[1..], b);
    }
  }

  /** Reading the frames in hand, then the rest of the text. */
  ghost function Continue<V>(json: string -> Option<V>, y: Yield<V>, buffer: string, text: string,
                             flushed: string): Yield<V> {
    var p := SplitFrames(buffer + text);
    ReadFrames(json, y, p.frames + [p.rest + flushed])
  }

  lemma ContinueTakes<V>(json: string -> Option<V>, y: Yield<V>, buffer: string, text: string, flushed: string)
    requires !y.failed && Find(buffer, BLANK_LINE).Some?
    ensures var i := Find(buffer, BLANK_LINE).value;
            Continue(json, y, buffer, text, flushed) ==
              Continue(json, ReadFrames(json, y, [buffer[..i]]), buffer[i + 2..], text, flushed)
  {
    var i := Find(buffer, BLANK_LINE).value;
    var frame := buffer[..i];
    FindExtends(buffer, text, BLANK_LINE);
    assert (buffer + text)[..i] == frame && (buffer + text)[i + 2..] == buffer[i + 2..] + text;
    var p := SplitFrames(buffer[i + 2..] + text);
    var rest := p.frames + [p.rest + flushed];
    assert ([frame] + p.frames) + [p.rest + flushed] == [frame] + rest;
    ReadFramesAppend(json, y, [frame], rest);
  }

  lemma NoBlankLineInNothing()
    ensures Find("", BLANK_LINE).None?
  {
  }

  lemma ReadsOneFrame<V>(json: string -> Option<V>, y: Yield<V>, frame: string)
    requires !y.failed
    ensures ReadFrames(json, y, [frame]) ==
              match ParseSseFrame(json, frame)
              case NoEvent => y
              case Event(v) => Yield(y.events + [v], false)
              case BadJson => Yield(y.events, true)
  {
    assert [frame][1..] == [];
  }

  lemma FailedReadsNoMore<V>(json: string -> Option<V>, y: Yield<V>, buffer: string, text: string, flushed: string)
    requires y.failed
    ensures Continue(json, y, buffer, text, flushed) == y
  {
  }

  /** With no text to come and no blank line left, the remainder is a frame. */
  lemma ContinueEnds<V>(json: string -> Option<V>, y: Yield<V>, buffer: string, flushed: string)
    requires !y.failed && Find(buffer, BLANK_LINE).None?
    ensures Continue(json, y, buffer, "", flushed) ==
              match ParseSseFrame(json, buffer + flushed)
              case NoEvent => y
              case Event(v) => Yield(y.events + [v], false)
              case BadJson => Yield(y.events, true)
  {
    assert buffer + "" == buffer;
    var frames := [buffer + flushed];
    assert [] + frames == frames && frames[1..] == [];
    assert Continue(json, y, buffer, "", flushed) == ReadFrames(json, y, frames);
    var next :=
      match ParseSseFrame(json, frames[0])
      case NoEvent => y
      case Event(v) => Yield(y.events + [v], false)
      case BadJson => Yield(y.events, true);
    assert ReadFrames(json, y, frames) == ReadFrames(json, next, []);
  }

  /** The source's nested loops: append a chunk, then take every frame out.
      What it yields depends on the text alone, not on its chunks. */
  method ParseEventStream<V>(json: string -> Option<V>, chunks: seq<string>, flushed: string) returns (y: Yield<V>)
    ensures y == ReadText(json, Concat(chunks), flushed)
  {
    hide SplitFrames, ReadFrames;
    y := Yield([], false);
    var buffer := "";
    var k := 0;
    assert "" + Concat(chunks) == Concat(chunks) && chunks[0..] == chunks;
    NoBlankLineInNothing();
    while k < |chunks|
      invariant 0 <= k <= |chunks| && !y.failed && Find(buffer, BLANK_LINE).None?
      invariant Continue(json, y, buffer, Concat(chunks[k..]), flushed) == ReadText(json, Concat(chunks), flushed)
    {
      var later := chunks[k + 1..];
      assert chunks[k..][0] == chunks[k] && chunks[k..][1..] == later;
      Associative(buffer, chunks[k], Concat(later));
      buffer := buffer + chunks[k];
      k := k + 1;
      var boundary := FindPosition(buffer, BLANK_LINE);
      while boundary.Some?
        invariant boundary == Find(buffer, BLANK_LINE) && !y.failed
        invariant Continue(json, y, buffer, Concat(later), flushed) == ReadText(json, Concat(chunks), flushed)
        decreases |buffer|
      {
        ContinueTakes(json, y, buffer, Concat(later), flushed);
        var frame := buffer[..boundary.value];
        buffer := buffer[boundary.value + 2..];
        var outcome := ParseSseFrame(json, frame);
        ReadsOneFrame(json, y, frame);
        ghost var next := ReadFrames(json, y, [frame]);
        match outcome {
          case NoEvent =>
          case Event(v) => y := Yield(y.events + [v], false);
          case BadJson =>
            y := Yield(y.events, true);
            FailedReadsNoMore(json, y, buffer, Concat(later), flushed);
            return;
        }
        assert y == next;
        boundary := FindPosition(buffer, BLANK_LINE);
      }
    }
    assert chunks[k..] == [];
    ContinueEnds(json, y, buffer, flushed);
    var last := ParseSseFrame(json, buffer + flushed);
    match last
    case NoEvent =>
    case Event(v) => y := Yield(y.events + [v], false);
    case BadJson => y := Yield(y.events, true);
  }
}
