/** One streaming turn: from event-stream chunks to emitted deltas and the
    turn's verdict, and the per-thread sequence numbers a bridge keeps. */
module TurnStream {
  import opened Wrappers
  import opened Text
  import opened Framing
  import opened SseFraming
  import opened SseFrame

  const MAX_SSE_FRAME_BYTES: nat := 16 * 1024 * 1024

  datatype Payload = Payload(kind: Option<string>, delta: Option<string>, status: Option<string>, error: Option<string>)

  /** The parts of an event's JSON envelope that the turn reads. */
  datatype Envelope = Envelope(seqNo: Option<nat>, turnId: Option<string>, payload: Payload)

  /** UTF-8 decoding and JSON parsing, which the model takes as given. */
  datatype Codec = Codec(utf8: Bytes -> Option<string>, json: string -> Option<Envelope>)

  /** A frame that carries an event; `envelope` is `None` for invalid JSON. */
  datatype Event = Event(name: string, envelope: Option<Envelope>)

  datatype TurnStatus = Completed | Failed | Interrupted | Canceled

  datatype Reason = FrameTooLong | BadJson | Truncated | TransportError

  datatype StreamResult =
    | Finished(seqNo: nat, status: TurnStatus, error: Option<string>)
    | Broken(reason: Reason)

  /** How the chunks end: the body is complete, or the transport failed. */
  datatype Tail = Closed | Dropped

  function TerminalStatus(payload: Payload): TurnStatus {
    var status := Lower(if payload.status.Some? then payload.status.value else "completed");
    if status == "failed" then Failed
    else if status == "interrupted" then Interrupted
    else if status == "canceled" || status == "cancelled" then Canceled
    else Completed
  }

  /** The payload carries a status, equal to `word` up to letter case. */
  predicate Says(payload: Payload, word: string) {
    payload.status.Some? && EqIgnoreCase(payload.status.value, word)
  }

  /** The status a payload stands for; anything unknown means completed. */
  predicate HasStatus(payload: Payload, status: TurnStatus) {
    match status
    case Failed => Says(payload, "failed")
    case Interrupted => Says(payload, "interrupted")
    case Canceled => Says(payload, "canceled") || Says(payload, "cancelled")
    case Completed =>
      && !Says(payload, "failed") && !Says(payload, "interrupted")
      && !Says(payload, "canceled") && !Says(payload, "cancelled")
  }

  lemma TerminalStatusMeaning(payload: Payload, status: TurnStatus)
    ensures HasStatus(payload, status) <==> status == TerminalStatus(payload)
  {
    assert Lower("failed") == "failed" && Lower("interrupted") == "interrupted";
    assert Lower("canceled") == "canceled" && Lower("cancelled") == "cancelled";
    assert Lower("completed") == "completed";
    assert "failed"[0] != "interrupted"[0] && "failed"[0] != "canceled"[0] && "interrupted"[0] != "canceled"[0];
    assert "completed"[0] == "canceled"[0] && "completed"[1] != "canceled"[1] && "completed"[1] != "cancelled"[1];
  }

  function DecodeFrame(codec: Codec, frame: Bytes): Option<Event> {
    match codec.utf8(frame)
    case None => None
    case Some(text) =>
      match ParseSpec(text)
      case None => None
      case Some(f) => Some(Event(f.event, codec.json(f.data)))
  }

  function DecodeFrames(codec: Codec, frames: seq<Bytes>): seq<Event> {
    if frames == [] then []
    else
      var rest := DecodeFrames(codec, frames[1..]);
      match DecodeFrame(codec, frames[0])
      case None => rest
      case Some(e) => [e] + rest
  }

  /** What a frame decodes to: nothing unless it is UTF-8 with an event line and
      a data line; then an event with that name and that data, read as JSON. */
  ghost predicate IsDecoded(codec: Codec, frame: Bytes, event: Option<Event>) {
    match codec.utf8(frame)
    case None => event.None?
    case Some(text) =>
      exists f: Option<Frame> :: IsMeaning(text, f) &&
        event == match f case None => None case Some(v) => Some(Event(v.event, codec.json(v.data)))
  }

  lemma FramesAreDecoded(codec: Codec, frame: Bytes)
    ensures IsDecoded(codec, frame, DecodeFrame(codec, frame))
    ensures DecodeFrames(codec, [frame]) == match DecodeFrame(codec, frame) case None => [] case Some(e) => [e]
  {
    assert [frame][1..] == [];
    if codec.utf8(frame).Some? {
      ParseMeaning(codec.utf8(frame).value);
    }
  }

  // ------------------------------------------------------ what events mean

  predicate OfTurn(e: Event, turn: string) {
    e.envelope.Some? && e.envelope.value.turnId == Some(turn)
  }

  predicate IsTerminal(e: Event, turn: string) {
    OfTurn(e, turn) && e.name == "turn.completed"
  }

  /** Where a turn stops reading: its own completion, or unreadable JSON. */
  predicate IsStop(e: Event, turn: string) {
    e.envelope.None? || IsTerminal(e, turn)
  }

  predicate IsDelta(e: Event, turn: string) {
    && OfTurn(e, turn)
    && e.name == "item.delta"
    && e.envelope.value.payload.kind == Some("agent_message")
    && e.envelope.value.payload.delta.Some?
    && e.envelope.value.payload.delta.value != ""
  }

  function Deltas(events: seq<Event>, turn: string): seq<string> {
    if events == [] then []
    else if IsDelta(events[0], turn) then [events[0].envelope.value.payload.delta.value] + Deltas(events[1..], turn)
    else Deltas(events[1..], turn)
  }

  function SeqOf(e: Event): Option<nat> {
    if e.envelope.Some? then e.envelope.value.seqNo else None
  }

  function Max(a: nat, b: nat): nat {
    if a < b then b else a
  }

  /** The largest sequence number among `since` and the events'. */
  function MaxSeq(since: nat, events: seq<Event>): nat
    decreases |events|
  {
    if events == [] then since
    else MaxSeq(if SeqOf(events[0]).Some? then Max(since, SeqOf(events[0]).value) else since, events[1..])
  }

  ghost predicate FirstStop(events: seq<Event>, turn: string, stop: nat) {
    && stop <= |events|
    && (forall i | 0 <= i < stop :: !IsStop(events[i], turn))
    && (stop < |events| ==> IsStop(events[stop], turn))
  }

  // ------------------------------------------------------ reading the stream

  /** How far a turn has read: deltas emitted, sequence seen, verdict if any. */
  datatype Progress = Progress(deltas: seq<string>, seqNo: nat, verdict: Option<StreamResult>)

  function ReadEvent(p: Progress, e: Event, turn: string): Progress {
    if e.envelope.None? then
      p.(verdict := Some(Broken(BadJson)))
    else
      var env := e.envelope.value;
      var seqNo := if env.seqNo.Some? then Max(p.seqNo, env.seqNo.value) else p.seqNo;
      if env.turnId != Some(turn) then
        p.(seqNo := seqNo)
      else if e.name == "item.delta" then
        var kind := if env.payload.kind.Some? then env.payload.kind.value else "";
        if kind == "agent_message" && env.payload.delta.Some? && env.payload.delta.value != "" then
          p.(seqNo := seqNo, deltas := p.deltas + [env.payload.delta.value])
        else
          p.(seqNo := seqNo)
      else if e.name == "turn.completed" then
        p.(seqNo := seqNo, verdict := Some(Finished(seqNo, TerminalStatus(env.payload), env.payload.error)))
      else
        p.(seqNo := seqNo)
  }

  function ReadEvents(p: Progress, events: seq<Event>, turn: string): Progress
    decreases |events|
  {
    if events == [] || p.verdict.Some? then p else ReadEvents(ReadEvent(p, events[0], turn), events[1..], turn)
  }

  /** What a turn that saw no completion is broken by at the end. */
  function EndReason(tail: Tail): Reason {
    if tail.Closed? then Truncated else TransportError
  }

  function EndWith(p: Progress, reason: Reason): Progress {
    if p.verdict.Some? then p else p.(verdict := Some(Broken(reason)))
  }

  /** The whole turn, chunk by chunk: the size check comes before draining. */
  ghost function ReadChunks(codec: Codec, p: Progress, buffer: Bytes, chunks: seq<Bytes>, tail: Tail,
                            turn: string): (q: Progress)
    ensures q.verdict.Some?
    decreases |chunks|
  {
    if p.verdict.Some? || chunks == [] then
      EndWith(p, EndReason(tail))
    else if |buffer + chunks[0]| > MAX_SSE_FRAME_BYTES then
      p.(verdict := Some(Broken(FrameTooLong)))
    else
      var d := Drain(buffer + chunks[0]);
      ReadChunks(codec, ReadEvents(p, DecodeFrames(codec, d.frames), turn), d.rest, chunks[1..], tail, turn)
  }

  /** The same turn read from the stream as a whole. */
  ghost function ReadStream(codec: Codec, since: nat, stream: Bytes, tail: Tail, turn: string): Progress {
    EndWith(ReadEvents(Progress([], since, None), DecodeFrames(codec, Drain(stream).frames), turn), EndReason(tail))
  }

  datatype StdioEvent =
    | ResponseStart(id: string)
    | ResponseDelta(id: string, delta: string)
    | ResponseEnd(id: string)

  function DeltaEvents(id: string, deltas: seq<string>): (events: seq<StdioEvent>)
    ensures |events| == |deltas|
  {
    seq(|deltas|, i requires 0 <= i < |deltas| => ResponseDelta(id, deltas[i]))
  }

  /** The line writer a turn owns for its whole duration. */
  class EventWriter {
    var events: seq<StdioEvent>

    constructor ()
      ensures events == []
    {
      events := [];
    }

    method Emit(event: StdioEvent)
      modifies this
      ensures events == old(events) + [event]
    {
      events := events + [event];
    }
  }

  /** One event of the stream: the body of the source's inner loop. */
  method HandleEvent(e: Event, turn: string, id: string, since: nat, writer: EventWriter, ghost base: seq<StdioEvent>,
                     ghost deltas: seq<string>)
    returns (seqNo: nat, verdict: Option<StreamResult>)
    requires writer.events == base + DeltaEvents(id, deltas)
    modifies writer
    ensures var p := ReadEvent(Progress(deltas, since, None), e, turn);
            && (p.verdict.Some? ==> verdict == p.verdict)
            && (p.verdict.None? ==> verdict.None? && seqNo == p.seqNo)
            && writer.events == base + DeltaEvents(id, p.deltas)
    ensures writer.events ==
              old(writer.events) +
              if IsDelta(e, turn) then [ResponseDelta(id, e.envelope.value.payload.delta.value)] else []
    ensures verdict.Some? <==> IsStop(e, turn)
    ensures verdict.None? ==> seqNo == if SeqOf(e).Some? then Max(since, SeqOf(e).value) else since
    ensures e.envelope.None? ==> verdict == Some(Broken(BadJson))
    ensures IsTerminal(e, turn) ==>
              && verdict.Some? && verdict.value.Finished?
              && HasStatus(e.envelope.value.payload, verdict.value.status)
              && verdict.value.error == e.envelope.value.payload.error
              && verdict.value.seqNo == if SeqOf(e).Some? then Max(since, SeqOf(e).value) else since
  {
    seqNo, verdict := since, None;
    if e.envelope.None? {
      return seqNo, Some(Broken(BadJson));
    }
    var env := e.envelope.value;
    if env.seqNo.Some? {
      seqNo := Max(seqNo, env.seqNo.value);
    }
    if env.turnId != Some(turn) {
      return;
    }
    if e.name == "item.delta" {
      var kind := if env.payload.kind.Some? then env.payload.kind.value else "";
      if kind == "agent_message" && env.payload.delta.Some? && env.payload.delta.value != "" {
        var delta := env.payload.delta.value;
        writer.Emit(ResponseDelta(id, delta));
        assert DeltaEvents(id, deltas + [delta]) == DeltaEvents(id, deltas) + [ResponseDelta(id, delta)];
      }
    } else if e.name == "turn.completed" {
      TerminalStatusMeaning(env.payload, TerminalStatus(env.payload));
      verdict := Some(Finished(seqNo, TerminalStatus(env.payload), env.payload.error));
    }
  }

  /** What a turn comes to when `frame` is in hand, `buffer` behind it and
      `chunks` still to arrive. */
  ghost function FromFrame(codec: Codec, p: Progress, frame: Option<Bytes>, buffer: Bytes, chunks: seq<Bytes>,
                           tail: Tail, turn: string): Progress
  {
    var d := Drain(buffer);
    var frames := if frame.Some? then [frame.value] + d.frames else d.frames;
    ReadChunks(codec, ReadEvents(p, DecodeFrames(codec, frames), turn), d.rest, chunks, tail, turn)
  }

  /** Taking the next frame out of the buffer changes nothing. */
  lemma TakeKeepsTurn(codec: Codec, p: Progress, buffer: Bytes, chunks: seq<Bytes>, tail: Tail, turn: string)
    requires Cut(buffer).Some?
    ensures var e := Cut(buffer).value;
            FromFrame(codec, p, None, buffer, chunks, tail, turn) ==
              FromFrame(codec, p, Some(buffer[..e]), buffer[e..], chunks, tail, turn)
  {
  }

  lemma FrameKeepsTurn(codec: Codec, p: Progress, frame: Bytes, buffer: Bytes, chunks: seq<Bytes>, tail: Tail,
                       turn: string)
    requires p.verdict.None?
    ensures FromFrame(codec, p, Some(frame), buffer, chunks, tail, turn) ==
              FromFrame(codec,
                        match DecodeFrame(codec, frame) case None => p case Some(e) => ReadEvent(p, e, turn),
                        None, buffer, chunks, tail, turn)
  {
    var frames := Drain(buffer).frames;
    var rest := DecodeFrames(codec, frames);
    assert ([frame] + frames)[1..] == frames;
    if DecodeFrame(codec, frame).Some? {
      var e := DecodeFrame(codec, frame).value;
      assert DecodeFrames(codec, [frame] + frames) == [e] + rest;
      assert ([e] + rest)[1..] == rest;
    }
  }

  /** The source's nested loops over chunks and frames. */
  method StreamTurnEvents(codec: Codec, turn: string, id: string, since: nat, chunks: seq<Bytes>, tail: Tail,
                          writer: EventWriter)
    returns (result: StreamResult)
    modifies writer
    ensures var p := ReadChunks(codec, Progress([], since, None), [], chunks, tail, turn);
            && p.verdict == Some(result)
            && writer.events == old(writer.events) + DeltaEvents(id, p.deltas)
  {
    ghost var base := writer.events;
    ghost var whole := ReadChunks(codec, Progress([], since, None), [], chunks, tail, turn);
    ghost var deltas: seq<string> := [];
    var buffer := new SseBuffer();
    var lastSeq := since;
    var i := 0;
    while i < |chunks|
      invariant 0 <= i <= |chunks|
      invariant fresh(buffer)
      invariant ReadChunks(codec, Progress(deltas, lastSeq, None), buffer.bytes, chunks[i..], tail, turn) == whole
      invariant writer.events == base + DeltaEvents(id, deltas)
    {
      buffer.Extend(chunks[i]);
      assert chunks[i..][1..] == chunks[i + 1..];
      i := i + 1;
      if |buffer.bytes| > MAX_SSE_FRAME_BYTES {
        return Broken(FrameTooLong);
      }
      assert FromFrame(codec, Progress(deltas, lastSeq, None), None, buffer.bytes, chunks[i..], tail, turn) == whole;
      var before := buffer.bytes;
      var frame := buffer.TakeFrame();
      if frame.Some? {
        TakeKeepsTurn(codec, Progress(deltas, lastSeq, None), before, chunks[i..], tail, turn);
      }
      while frame.Some?
        invariant fresh(buffer)
        invariant frame.None? ==> Cut(buffer.bytes).None?
        invariant whole ==
                    FromFrame(codec, Progress(deltas, lastSeq, None), frame, buffer.bytes, chunks[i..], tail, turn)
        invariant writer.events == base + DeltaEvents(id, deltas)
        decreases |buffer.bytes|, frame.Some?
      {
        var event := DecodeFrame(codec, frame.value);
        ghost var p := Progress(deltas, lastSeq, None);
        FrameKeepsTurn(codec, p, frame.value, buffer.bytes, chunks[i..], tail, turn);
        if event.Some? {
          var verdict;
          lastSeq, verdict := HandleEvent(event.value, turn, id, lastSeq, writer, base, deltas);
          deltas := ReadEvent(p, event.value, turn).deltas;
          if verdict.Some? {
            return verdict.value;
          }
        }
        before := buffer.bytes;
        frame := buffer.TakeFrame();
        if frame.Some? {
          TakeKeepsTurn(codec, Progress(deltas, lastSeq, None), before, chunks[i..], tail, turn);
        }
      }
    }
    return Broken(EndReason(tail));
  }

  // ------------------------------------------- what a turn emits and returns

  lemma {:induction false} FirstStopExists(events: seq<Event>, turn: string) returns (stop: nat)
    ensures FirstStop(events, turn, stop)
  {
    if events == [] {
      stop := 0;
    } else if IsStop(events[0], turn) {
      stop := 0;
    } else {
      var k := FirstStopExists(events[1..], turn);
      stop := k + 1;
      forall i | 0 <= i < stop
        ensures !IsStop(events[i], turn)
      {
        assert i > 0 ==> events[i] == events[1..][i - 1];
      }
    }
  }

  /** The state of a turn after reading `events`, in declarative terms: the
      deltas before the first stop, the largest sequence number up to and with
      it, and the verdict the stop carries. */
  ghost predicate Describes(p: Progress, q: Progress, events: seq<Event>, turn: string, stop: nat)
    requires FirstStop(events, turn, stop)
  {
    && q.deltas == p.deltas + Deltas(events[..stop], turn)
    && (stop == |events| ==> q.verdict.None? && q.seqNo == MaxSeq(p.seqNo, events))
    && (stop < |events| && events[stop].envelope.None? ==> q.verdict == Some(Broken(BadJson)))
    && (stop < |events| && events[stop].envelope.Some? ==>
          var payload := events[stop].envelope.value.payload;
          q.verdict == Some(Finished(MaxSeq(p.seqNo, events[..stop + 1]), TerminalStatus(payload), payload.error)))
  }

  /** One event, in the same terms. */
  lemma ReadEventMeaning(p: Progress, e: Event, turn: string)
    requires p.verdict.None?
    ensures var q := ReadEvent(p, e, turn);
            && (!IsStop(e, turn) ==>
                  && q.verdict.None?
                  && q.seqNo == (if SeqOf(e).Some? then Max(p.seqNo, SeqOf(e).value) else p.seqNo)
                  && q.deltas == p.deltas + (if IsDelta(e, turn) then [e.envelope.value.payload.delta.value] else []))
            && (IsStop(e, turn) ==> q.deltas == p.deltas && q.verdict.Some?)
            && (e.envelope.None? ==> q.verdict == Some(Broken(BadJson)))
            && (IsTerminal(e, turn) ==>
                  var payload := e.envelope.value.payload;
                  q.verdict == Some(Finished(MaxSeq(p.seqNo, [e]), TerminalStatus(payload), payload.error)))
  {
    assert [e][1..] == [];
  }

  lemma {:induction false} ReadEventsMeaning(p: Progress, events: seq<Event>, turn: string, stop: nat)
    requires p.verdict.None? && FirstStop(events, turn, stop)
    ensures Describes(p, ReadEvents(p, events, turn), events, turn, stop)
    decreases |events|
  {
    if events != [] {
      ReadEventMeaning(p, events[0], turn);
      if stop == 0 {
        assert events[..1] == [events[0]];
      } else {
        AfterNonStop(events, turn, stop);
        var next := ReadEvent(p, events[0], turn);
        ReadEventsMeaning(next, events[1..], turn, stop - 1);
        PrependDelta(p.deltas, events, turn, stop);
        assert stop < |events| ==> events[..stop + 1][1..] == events[1..][..stop];
      }
    }
  }

  lemma AfterNonStop(events: seq<Event>, turn: string, stop: nat)
    requires FirstStop(events, turn, stop) && 0 < stop
    ensures FirstStop(events[1..], turn, stop - 1)
  {
    forall i | 0 <= i < stop - 1
      ensures !IsStop(events[1..][i], turn)
    {
      assert events[1..][i] == events[i + 1];
    }
  }

  lemma PrependDelta(deltas: seq<string>, events: seq<Event>, turn: string, stop: nat)
    requires 0 < stop <= |events|
    ensures deltas + Deltas(events[..stop], turn) ==
              (deltas + (if IsDelta(events[0], turn) then [events[0].envelope.value.payload.delta.value] else []))
              + Deltas(events[1..][..stop - 1], turn)
  {
    assert events[..stop][1..] == events[1..][..stop - 1];
  }

  lemma {:induction false} ReadEventsAppend(p: Progress, a: seq<Event>, b: seq<Event>, turn: string)
    ensures ReadEvents(p, a + b, turn) == ReadEvents(ReadEvents(p, a, turn), b, turn)
    decreases |a|
  {
    if a == [] {
      assert a + b == b;
    } else if p.verdict.None? {
      assert (a + b)[1..] == a[1..] + b;
      ReadEventsAppend(ReadEvent(p, a[0], turn), a[1..], b, turn);
    }
  }

  lemma {:induction false} DecodeFramesAppend(codec: Codec, a: seq<Bytes>, b: seq<Bytes>)
    ensures DecodeFrames(codec, a + b) == DecodeFrames(codec, a) + DecodeFrames(codec, b)
  {
    if a == [] {
      assert a + b == b;
    } else {
      assert (a + b)[1..] == a[1..] + b;
      DecodeFramesAppend(codec, a[1..], b);
    }
  }

  /** How many chunks arrive before one would overfill the buffer. */
  ghost function Fitting(buffer: Bytes, chunks: seq<Bytes>): (n: nat)
    ensures n <= |chunks|
    decreases |chunks|
  {
    if chunks == [] || |buffer + chunks[0]| > MAX_SSE_FRAME_BYTES then 0
    else 1 + Fitting(Drain(buffer + chunks[0]).rest, chunks[1..])
  }

  /** The buffer never outgrows the limit while these chunks arrive. */
  ghost predicate WithinLimit(buffer: Bytes, chunks: seq<Bytes>) {
    Fitting(buffer, chunks) == |chunks|
  }

  lemma {:induction false} SmallStreamsStayWithinLimit(buffer: Bytes, chunks: seq<Bytes>)
    requires |buffer| + |Concat(chunks)| <= 16777216
    ensures WithinLimit(buffer, chunks)
    decreases |chunks|
  {
    if chunks != [] {
      DrainConserves(buffer + chunks[0]);
      assert |Drain(buffer + chunks[0]).rest| <= |buffer + chunks[0]|;
      SmallStreamsStayWithinLimit(Drain(buffer + chunks[0]).rest, chunks[1..]);
    }
  }

  /** Reading chunk by chunk is reading all the frames that the fitting chunks
      give; the first chunk that does not fit breaks the turn. */
  lemma {:induction false} ReadChunksReadsFrames(codec: Codec, p: Progress, buffer: Bytes, chunks: seq<Bytes>,
                                                 tail: Tail, turn: string)
    ensures var n := Fitting(buffer, chunks);
            ReadChunks(codec, p, buffer, chunks, tail, turn) ==
              EndWith(ReadEvents(p, DecodeFrames(codec, Receive(buffer, chunks[..n]).frames), turn),
                      if n == |chunks| then EndReason(tail) else FrameTooLong)
    decreases |chunks|
  {
    var n := Fitting(buffer, chunks);
    if p.verdict.None? && n > 0 {
      var taken := chunks[..n];
      var now := Drain(buffer + chunks[0]);
      var later := Receive(now.rest, chunks[1..][..n - 1]);
      assert taken[0] == chunks[0] && taken[1..] == chunks[1..][..n - 1];
      var a, b := DecodeFrames(codec, now.frames), DecodeFrames(codec, later.frames);
      ReadChunksReadsFrames(codec, ReadEvents(p, a, turn), now.rest, chunks[1..], tail, turn);
      DecodeFramesAppend(codec, now.frames, later.frames);
      ReadEventsAppend(p, a, b, turn);
    }
  }

  /** The events of the chunks that fit. */
  ghost function EventsOf(codec: Codec, chunks: seq<Bytes>): seq<Event> {
    DecodeFrames(codec, Receive([], chunks[..Fitting([], chunks)]).frames)
  }

  /** The verdict of a turn whose first stop among `events` is `stop`; `fits`
      says whether all its chunks fitted into the buffer. */
  ghost predicate IsVerdict(
    v: StreamResult, since: nat, events: seq<Event>, turn: string, stop: nat, fits: bool, tail: Tail)
    requires FirstStop(events, turn, stop)
  {
    if stop == |events| then
      v == Broken(if !fits then FrameTooLong else match tail case Closed => Truncated case Dropped => TransportError)
    else if events[stop].envelope.None? then
      v == Broken(BadJson)
    else
      && v.Finished?
      && v.seqNo == MaxSeq(since, events[..stop + 1])
      && HasStatus(events[stop].envelope.value.payload, v.status)
      && v.error == events[stop].envelope.value.payload.error
  }

  /** What a turn comes to: its deltas and its verdict. */
  ghost predicate IsOutcome(
    p: Progress, since: nat, events: seq<Event>, turn: string, stop: nat, fits: bool, tail: Tail)
    requires FirstStop(events, turn, stop)
  {
    && p.deltas == Deltas(events[..stop], turn)
    && p.verdict.Some? && IsVerdict(p.verdict.value, since, events, turn, stop, fits, tail)
  }

  /** A turn's contract, for every stream and every chunking: it emits exactly
      its own non-empty agent deltas before its first stop, in order; if that
      stop is its completion it finishes with the largest sequence number seen;
      if it is unreadable JSON, or there is none, its stream is broken. */
  lemma TurnEmitsItsDeltas(codec: Codec, since: nat, chunks: seq<Bytes>, tail: Tail, turn: string) returns (stop: nat)
    ensures var events := EventsOf(codec, chunks);
            && FirstStop(events, turn, stop)
            && IsOutcome(ReadChunks(codec, Progress([], since, None), [], chunks, tail, turn),
                         since, events, turn, stop, WithinLimit([], chunks), tail)
  {
    var events := EventsOf(codec, chunks);
    stop := FirstStopExists(events, turn);
    ReadChunksReadsFrames(codec, Progress([], since, None), [], chunks, tail, turn);
    ReadEventsMeaning(Progress([], since, None), events, turn, stop);
    assert [] + Deltas(events[..stop], turn) == Deltas(events[..stop], turn);
    if stop < |events| && events[stop].envelope.Some? {
      var payload := events[stop].envelope.value.payload;
      TerminalStatusMeaning(payload, TerminalStatus(payload));
    }
  }

  /** A turn is broken by an overlong frame exactly when some chunk overfills
      the buffer and no stop came before it. */
  lemma FrameTooLongIff(codec: Codec, since: nat, chunks: seq<Bytes>, tail: Tail, turn: string)
    ensures ReadChunks(codec, Progress([], since, None), [], chunks, tail, turn).verdict ==
              Some(Broken(FrameTooLong)) <==>
              !WithinLimit([], chunks) && forall e | e in EventsOf(codec, chunks) :: !IsStop(e, turn)
  {
    var stop := TurnEmitsItsDeltas(codec, since, chunks, tail, turn);
    var events := EventsOf(codec, chunks);
    if stop < |events| {
      assert events[stop] in events && IsStop(events[stop], turn);
    }
  }

  function BlankLines(n: nat): Bytes {
    if n == 0 then [] else LF + BlankLines(n - 1)
  }

  lemma {:induction false} BlankLinesAreNewlines(n: nat)
    ensures forall c | c in BlankLines(n) :: c == 10
  {
    if n > 0 {
      BlankLinesAreNewlines(n - 1);
    }
  }

  lemma FirstBlankLine(n: nat)
    requires n > 0
    ensures var b := BlankLines(n); Cut(b) == Some(2) && b[2..] == BlankLines(n - 1)
  {
    var b := BlankLines(n);
    NoCrlf(b, n);
    assert b[0..2] == LF;
    FirstIsFind(b, LF, 0);
  }

  lemma NoCrlf(b: Bytes, n: nat)
    requires b == BlankLines(n)
    ensures Find(b, CRLF).None?
  {
    hide BlankLines;
    if Find(b, CRLF).Some? {
      CrlfNeedsReturn(b, Find(b, CRLF).value);
    }
    BlankLinesAreNewlines(n);
  }

  lemma CrlfNeedsReturn(b: Bytes, i: nat)
    requires OccursAt(b, CRLF, i)
    ensures 13 in b
  {
    assert b[i..i + |CRLF|][0] == b[i];
  }

  lemma {:induction false} BlankLinesAreFrames(n: nat)
    ensures |BlankLines(n)| == 2 * n
    ensures Drain(BlankLines(n)).rest == [] && |Drain(BlankLines(n)).frames| == n
  {
    hide Cut;
    if n == 0 {
      NothingToCut();
    } else {
      BlankLinesAreFrames(n - 1);
      FirstBlankLine(n);
    }
  }

  lemma NothingToCut()
    ensures Cut([]).None?
  {
  }

  /** Any first chunk over the limit breaks the turn, whatever it holds and
      whatever follows it. */
  lemma LargeChunkTripsTheLimit(codec: Codec, since: nat, chunks: seq<Bytes>, tail: Tail, turn: string)
    requires chunks != [] && |chunks[0]| > 16777216
    ensures ReadChunks(codec, Progress([], since, None), [], chunks, tail, turn) ==
              Progress([], since, Some(Broken(FrameTooLong)))
  {
    assert [] + chunks[0] == chunks[0];
  }

  /** The size check does not ask for a missing delimiter: a chunk made of
      complete frames only trips it as well. */
  lemma FullFramesTripTheLimit(codec: Codec, since: nat, n: nat, tail: Tail, turn: string)
    requires 2 * n > MAX_SSE_FRAME_BYTES
    ensures var chunk := BlankLines(n);
            && Drain(chunk).rest == [] && |Drain(chunk).frames| == n
            && ReadChunks(codec, Progress([], since, None), [], [chunk], tail, turn).verdict ==
                 Some(Broken(FrameTooLong))
  {
    BlankLinesAreFrames(n);
    LargeChunkTripsTheLimit(codec, since, [BlankLines(n)], tail, turn);
  }

  /** The buffer that the first chunk not to fit overfills. */
  ghost function Overfilled(chunks: seq<Bytes>): Bytes
    requires !WithinLimit([], chunks)
  {
    var n := Fitting([], chunks);
    Receive([], chunks[..n]).rest + chunks[n]
  }

  lemma {:induction false} ReceiveAppend(buffer: Bytes, chunks: seq<Bytes>, chunk: Bytes)
    ensures var before := Receive(buffer, chunks);
            var d := Drain(before.rest + chunk);
            Receive(buffer, chunks + [chunk]) == Drained(before.frames + d.frames, d.rest)
    decreases |chunks|
  {
    hide Drain;
    var all := chunks + [chunk];
    if chunks == [] {
      assert all[0] == chunk && all[1..] == [];
      var d := Drain(buffer + chunk);
      assert [] + d.frames == d.frames == d.frames + [];
    } else {
      var now := Drain(buffer + chunks[0]);
      assert all[0] == chunks[0] && all[1..] == chunks[1..] + [chunk];
      ReceiveAppend(now.rest, chunks[1..], chunk);
      var later := Receive(now.rest, chunks[1..]);
      Associative(now.frames, later.frames, Drain(later.rest + chunk).frames);
    }
  }

  /** What the error says, that the buffer holds no frame delimiter, is true
      exactly when the chunk that overfilled it completed no frame. */
  lemma LimitMessageIsTrueIff(chunks: seq<Bytes>)
    requires !WithinLimit([], chunks)
    ensures var n := Fitting([], chunks);
            NoDelimiter(Overfilled(chunks)) <==> Receive([], chunks[..n + 1]).frames == Receive([], chunks[..n]).frames
  {
    var n := Fitting([], chunks);
    var before, d := Receive([], chunks[..n]), Drain(Overfilled(chunks));
    assert chunks[..n + 1] == chunks[..n] + [chunks[n]];
    ReceiveAppend([], chunks[..n], chunks[n]);
    assert |before.frames + d.frames| == |before.frames| + |d.frames|;
    if d.frames == [] {
      assert before.frames + d.frames == before.frames;
    }
  }

  /** A turn's deltas and verdict depend on the bytes received, not on how
      they were chunked, for every stream never mixed. */
  lemma TurnIgnoresChunking(codec: Codec, since: nat, chunks: seq<Bytes>, tail: Tail, turn: string)
    requires NeverMixed(Concat(chunks)) && WithinLimit([], chunks)
    ensures EventsOf(codec, chunks) == DecodeFrames(codec, Drain(Concat(chunks)).frames)
    ensures ReadChunks(codec, Progress([], since, None), [], chunks, tail, turn) ==
              ReadStream(codec, since, Concat(chunks), tail, turn)
  {
    ReadChunksReadsFrames(codec, Progress([], since, None), [], chunks, tail, turn);
    ChunkIndependentIffNeverMixed(Concat(chunks));
    assert chunks[..|chunks|] == chunks;
  }

  /** Hence of such a stream a turn emits the deltas of the whole, however it
      is chunked. */
  lemma TurnEmitsItsStreamsDeltas(codec: Codec, since: nat, chunks: seq<Bytes>, tail: Tail, turn: string)
    returns (stop: nat)
    requires NeverMixed(Concat(chunks)) && WithinLimit([], chunks)
    ensures var events := DecodeFrames(codec, Drain(Concat(chunks)).frames);
            && FirstStop(events, turn, stop)
            && IsOutcome(ReadChunks(codec, Progress([], since, None), [], chunks, tail, turn),
                         since, events, turn, stop, true, tail)
  {
    TurnIgnoresChunking(codec, since, chunks, tail, turn);
    stop := TurnEmitsItsDeltas(codec, since, chunks, tail, turn);
  }

  /** Every number a sequence maximum covers, and one it comes from. */
  lemma {:induction false} MaxSeqIsMaximum(since: nat, events: seq<Event>)
    ensures since <= MaxSeq(since, events)
    ensures forall i | 0 <= i < |events| :: SeqOf(events[i]).Some? ==> SeqOf(events[i]).value <= MaxSeq(since, events)
    ensures || MaxSeq(since, events) == since
            || exists i | 0 <= i < |events| :: SeqOf(events[i]) == Some(MaxSeq(since, events))
    decreases |events|
  {
    if events != [] {
      var e, rest := events[0], events[1..];
      var next := if SeqOf(e).Some? then Max(since, SeqOf(e).value) else since;
      MaxSeqIsMaximum(next, rest);
      var m := MaxSeq(next, rest);
      forall i | 0 <= i < |events|
        ensures SeqOf(events[i]).Some? ==> SeqOf(events[i]).value <= m
      {
        assert i > 0 ==> events[i] == rest[i - 1];
      }
      if m != since {
        if m == next {
          assert SeqOf(events[0]) == Some(m);
        } else {
          var i :| 0 <= i < |rest| && SeqOf(rest[i]) == Some(m);
          assert events[i + 1] == rest[i];
        }
      }
    }
  }

  /** Reading never lowers the sequence number, whatever the chunks hold. */
  lemma {:induction false} ReadEventsRaisesSeq(p: Progress, events: seq<Event>, turn: string)
    requires p.verdict.None?
    ensures var q := ReadEvents(p, events, turn);
            p.seqNo <= q.seqNo && (q.verdict.Some? && q.verdict.value.Finished? ==> p.seqNo <= q.verdict.value.seqNo)
    decreases |events|
  {
    if events != [] && ReadEvent(p, events[0], turn).verdict.None? {
      ReadEventsRaisesSeq(ReadEvent(p, events[0], turn), events[1..], turn);
    }
  }

  lemma {:induction false} ReadChunksRaisesSeq(codec: Codec, p: Progress, buffer: Bytes, chunks: seq<Bytes>,
                                               tail: Tail, turn: string)
    requires p.verdict.None?
    ensures var q := ReadChunks(codec, p, buffer, chunks, tail, turn);
            q.verdict.Some? && (q.verdict.value.Finished? ==> p.seqNo <= q.verdict.value.seqNo)
    decreases |chunks|
  {
    if chunks != [] && |buffer + chunks[0]| <= MAX_SSE_FRAME_BYTES {
      var d := Drain(buffer + chunks[0]);
      var q := ReadEvents(p, DecodeFrames(codec, d.frames), turn);
      ReadEventsRaisesSeq(p, DecodeFrames(codec, d.frames), turn);
      if q.verdict.None? {
        ReadChunksRaisesSeq(codec, q, d.rest, chunks[1..], tail, turn);
      }
    }
  }
}
