/** The bridge to the runtime: its thread map, its per-thread sequence numbers,
    and the turns it runs. */
module RuntimeBridge {
  import opened Wrappers
  import opened SseFraming
  import opened TurnStream
  import Protocol = StdioProtocol

  /** What the runtime answers to one `thread/message`: the turn id it opened
      (or none), whether its event stream opens, and the stream. */
  datatype TurnReply = TurnReply(turnId: Option<string>, streams: bool, chunks: seq<Bytes>, tail: Tail)

  datatype TurnOutcome =
    | Accepted(turnId: string)
    | NotStarted
    | StreamNotOpened
    | StreamBroken(reason: Reason)
    | TurnError(message: string)

  type SeqNumbers = map<string, nat>

  function SinceSeq(numbers: SeqNumbers, thread: string): nat {
    if thread in numbers then numbers[thread] else 0
  }

  /** The turn's progress when it opened a stream. */
  ghost function TurnProgress(codec: Codec, numbers: SeqNumbers, thread: string, reply: TurnReply): Progress
    requires reply.turnId.Some?
  {
    ReadChunks(codec, Progress([], SinceSeq(numbers, thread), None), [], reply.chunks, reply.tail, reply.turnId.value)
  }

  /** Whether a turn ran to its own completion. */
  ghost predicate Finishes(codec: Codec, numbers: SeqNumbers, thread: string, reply: TurnReply) {
    reply.turnId.Some? && reply.streams && TurnProgress(codec, numbers, thread, reply).verdict.value.Finished?
  }

  /** The turn's stream ends it at event `stop`, with this status and error. */
  ghost predicate EndsAt(codec: Codec, reply: TurnReply, stop: nat, status: TurnStatus, error: Option<string>) {
    && reply.turnId.Some? && reply.streams
    && var events := EventsOf(codec, reply.chunks);
       && FirstStop(events, reply.turnId.value, stop) && stop < |events|
       && IsTerminal(events[stop], reply.turnId.value)
       && HasStatus(events[stop].envelope.value.payload, status)
       && events[stop].envelope.value.payload.error == error
  }

  ghost predicate EndsAs(codec: Codec, reply: TurnReply, status: TurnStatus, error: Option<string>) {
    exists stop: nat :: EndsAt(codec, reply, stop, status, error)
  }

  /** Whether a turn completed, so that its request succeeds: its first stop is
      its own completion event, and that reports no other status. */
  ghost predicate Completes(codec: Codec, reply: TurnReply) {
    exists error :: EndsAs(codec, reply, Completed, error)
  }

  /** The verdict of a finished turn is what the event that ended it says. */
  lemma FinishedMeans(codec: Codec, numbers: SeqNumbers, thread: string, reply: TurnReply)
    requires Finishes(codec, numbers, thread, reply)
    ensures var v := TurnProgress(codec, numbers, thread, reply).verdict.value;
            forall status, error :: EndsAs(codec, reply, status, error) <==> status == v.status && error == v.error
  {
    var turn, since := reply.turnId.value, SinceSeq(numbers, thread);
    var v := TurnProgress(codec, numbers, thread, reply).verdict.value;
    var stop := TurnEmitsItsDeltas(codec, since, reply.chunks, reply.tail, turn);
    var events := EventsOf(codec, reply.chunks);
    var payload := events[stop].envelope.value.payload;
    assert EndsAt(codec, reply, stop, v.status, v.error);
    forall status, error
      ensures EndsAs(codec, reply, status, error) <==> status == v.status && error == v.error
    {
      TerminalStatusMeaning(payload, status);
      TerminalStatusMeaning(payload, v.status);
      if EndsAs(codec, reply, status, error) {
        var other: nat :| EndsAt(codec, reply, other, status, error);
        FirstStopIsUnique(events, turn, stop, other);
      }
    }
  }

  lemma FirstStopIsUnique(events: seq<Event>, turn: string, stop: nat, other: nat)
    requires FirstStop(events, turn, stop) && FirstStop(events, turn, other)
    ensures stop == other
  {
  }

  lemma UnfinishedMeans(codec: Codec, numbers: SeqNumbers, thread: string, reply: TurnReply)
    requires !Finishes(codec, numbers, thread, reply)
    ensures forall status, error :: !EndsAs(codec, reply, status, error)
  {
    if reply.turnId.Some? && reply.streams {
      var turn := reply.turnId.value;
      var stop := TurnEmitsItsDeltas(codec, SinceSeq(numbers, thread), reply.chunks, reply.tail, turn);
      var events := EventsOf(codec, reply.chunks);
      forall status, error
        ensures !EndsAs(codec, reply, status, error)
      {
        if EndsAs(codec, reply, status, error) {
          var other: nat :| EndsAt(codec, reply, other, status, error);
          FirstStopIsUnique(events, turn, stop, other);
        }
      }
    }
  }

  /** The sequence numbers after one turn: only a finished turn moves its own. */
  ghost function AfterTurn(codec: Codec, numbers: SeqNumbers, thread: string, reply: TurnReply): SeqNumbers {
    if Finishes(codec, numbers, thread, reply) then
      numbers[thread := TurnProgress(codec, numbers, thread, reply).verdict.value.seqNo]
    else
      numbers
  }

  /** The deltas one turn streams. */
  ghost function TurnDeltas(codec: Codec, numbers: SeqNumbers, thread: string, reply: TurnReply): seq<string> {
    if reply.turnId.Some? && reply.streams then TurnProgress(codec, numbers, thread, reply).deltas else []
  }

  /** The events one turn writes: nothing before the runtime opened it, and
      otherwise one start, its deltas, one end, all under one id. */
  ghost function TurnEvents(codec: Codec, numbers: SeqNumbers, thread: string, reply: TurnReply): seq<StdioEvent> {
    if reply.turnId.None? then []
    else
      var id := Protocol.ResponseId(Protocol.Turn(thread, reply.turnId.value));
      [ResponseStart(id)] + DeltaEvents(id, TurnDeltas(codec, numbers, thread, reply)) + [ResponseEnd(id)]
  }

  function StatusMessage(status: TurnStatus, error: Option<string>): string
    requires !status.Completed?
  {
    if error.Some? then error.value
    else match status
      case Failed => "turn failed"
      case Interrupted => "turn interrupted"
      case Canceled => "turn canceled"
  }

  /** What the response to an unsuccessful turn says: its error text if it has
      one, or else what happened to it. */
  predicate IsMessage(message: string, status: TurnStatus, error: Option<string>) {
    match error
    case Some(text) => message == text
    case None =>
      && (status == Failed ==> message == "turn failed")
      && (status == Interrupted ==> message == "turn interrupted")
      && (status == Canceled ==> message == "turn canceled")
  }

  class RuntimeBridge {
    var threadMap: map<string, string>
    var lastSeqByThread: SeqNumbers

    constructor ()
      ensures threadMap == map[] && lastSeqByThread == map[]
    {
      threadMap, lastSeqByThread := map[], map[];
    }

    /** The runtime thread behind a stdio thread; `created` is the runtime's
        reply to a creation request, `None` when that request fails. */
    method EnsureRuntimeThread(stdioThread: string, created: Option<string>) returns (thread: Option<string>)
      modifies this
      ensures stdioThread in old(threadMap) ==>
                && thread == Some(old(threadMap)[stdioThread])
                && threadMap == old(threadMap) && lastSeqByThread == old(lastSeqByThread)
      ensures stdioThread !in old(threadMap) && created.None? ==>
                thread.None? && threadMap == old(threadMap) && lastSeqByThread == old(lastSeqByThread)
      ensures stdioThread !in old(threadMap) && created.Some? ==>
                && thread == created
                && threadMap == old(threadMap)[stdioThread := created.value]
                && lastSeqByThread ==
                     old(lastSeqByThread)[created.value := SinceSeq(old(lastSeqByThread), created.value)]
      ensures forall t :: SinceSeq(lastSeqByThread, t) == SinceSeq(old(lastSeqByThread), t)
    {
      if stdioThread in threadMap {
        return Some(threadMap[stdioThread]);
      }
      if created.None? {
        return None;
      }
      if created.value !in lastSeqByThread {
        lastSeqByThread := lastSeqByThread[created.value := 0];
      }
      threadMap := threadMap[stdioThread := created.value];
      return created;
    }

    method MessageThread(codec: Codec, thread: string, reply: TurnReply, writer: EventWriter)
      returns (outcome: TurnOutcome)
      modifies this, writer
      ensures threadMap == old(threadMap)
      ensures lastSeqByThread == AfterTurn(codec, old(lastSeqByThread), thread, reply)
      ensures writer.events == old(writer.events) + TurnEvents(codec, old(lastSeqByThread), thread, reply)
      ensures outcome.Accepted? ==> reply.turnId == Some(outcome.turnId)
      ensures outcome.Accepted? <==> Completes(codec, reply)
      ensures outcome.NotStarted? <==> reply.turnId.None?
      ensures outcome.StreamNotOpened? <==> reply.turnId.Some? && !reply.streams
      ensures outcome.StreamBroken? ==>
                TurnProgress(codec, old(lastSeqByThread), thread, reply).verdict == Some(Broken(outcome.reason))
      ensures outcome.TurnError? ==> exists status, error ::
                && EndsAs(codec, reply, status, error) && status != Completed
                && IsMessage(outcome.message, status, error)
    {
      ghost var numbers := lastSeqByThread;
      if Finishes(codec, numbers, thread, reply) {
        FinishedMeans(codec, numbers, thread, reply);
      } else {
        UnfinishedMeans(codec, numbers, thread, reply);
      }
      hide EndsAs;
      if reply.turnId.None? {
        return NotStarted;
      }
      var turn := reply.turnId.value;
      var id := Protocol.ResponseId(Protocol.Turn(thread, turn));
      writer.Emit(ResponseStart(id));
      var since := SinceSeq(lastSeqByThread, thread);
      var result: Option<StreamResult> := None;
      if reply.streams {
        var r := StreamTurnEvents(codec, turn, id, since, reply.chunks, reply.tail, writer);
        result := Some(r);
      }
      writer.Emit(ResponseEnd(id));
      if result.None? {
        return StreamNotOpened;
      }
      if result.value.Broken? {
        return StreamBroken(result.value.reason);
      }
      lastSeqByThread := lastSeqByThread[thread := result.value.seqNo];
      assert EndsAs(codec, reply, result.value.status, result.value.error);
      if result.value.status == Completed {
        return Accepted(turn);
      }
      return TurnError(StatusMessage(result.value.status, result.value.error));
    }
  }

  // --------------------------------------------------------- over many turns

  datatype TurnCall = TurnCall(thread: string, reply: TurnReply)

  ghost function AfterTurns(codec: Codec, numbers: SeqNumbers, calls: seq<TurnCall>): SeqNumbers
    decreases |calls|
  {
    if calls == [] then numbers
    else AfterTurns(codec, AfterTurn(codec, numbers, calls[0].thread, calls[0].reply), calls[1..])
  }

  /** Over any sequence of turns, whatever their streams hold, no thread's
      sequence number ever goes down. */
  lemma {:induction false} SeqNumbersNeverDecrease(codec: Codec, numbers: SeqNumbers, calls: seq<TurnCall>,
                                                   thread: string)
    ensures SinceSeq(numbers, thread) <= SinceSeq(AfterTurns(codec, numbers, calls), thread)
    decreases |calls|
  {
    if calls != [] {
      var c := calls[0];
      if c.reply.turnId.Some? {
        ReadChunksRaisesSeq(codec, Progress([], SinceSeq(numbers, c.thread), None), [],
                            c.reply.chunks, c.reply.tail, c.reply.turnId.value);
      }
      SeqNumbersNeverDecrease(codec, AfterTurn(codec, numbers, c.thread, c.reply), calls[1..], thread);
    }
  }

  /** The number a call's turn returned, if it finished. */
  ghost function FinishedAt(codec: Codec, numbers: SeqNumbers, call: TurnCall): Option<nat> {
    if Finishes(codec, numbers, call.thread, call.reply) then
      Some(TurnProgress(codec, numbers, call.thread, call.reply).verdict.value.seqNo)
    else None
  }

  /** Call `i` is the last of its thread whose turn finished. */
  ghost predicate IsLastFinished(codec: Codec, numbers: SeqNumbers, calls: seq<TurnCall>, thread: string, i: nat) {
    && i < |calls| && calls[i].thread == thread
    && FinishedAt(codec, AfterTurns(codec, numbers, calls[..i]), calls[i]).Some?
    && forall j | i < j < |calls| && calls[j].thread == thread ::
         FinishedAt(codec, AfterTurns(codec, numbers, calls[..j]), calls[j]).None?
  }

  lemma {:induction false} AfterTurnsAppend(codec: Codec, numbers: SeqNumbers, calls: seq<TurnCall>, c: TurnCall)
    ensures AfterTurns(codec, numbers, calls + [c]) ==
              AfterTurn(codec, AfterTurns(codec, numbers, calls), c.thread, c.reply)
    decreases |calls|
  {
    hide AfterTurn;
    if calls == [] {
      assert [] + [c] == [c] && [c][1..] == [];
    } else {
      assert (calls + [c])[1..] == calls[1..] + [c];
      AfterTurnsAppend(codec, AfterTurn(codec, numbers, calls[0].thread, calls[0].reply), calls[1..], c);
    }
  }

  /** After any sequence of turns a thread's number is the one its last finished
      turn returned: other threads' turns and broken streams leave it alone. */
  lemma {:induction false} NumberOfLastFinished(codec: Codec, numbers: SeqNumbers, calls: seq<TurnCall>, thread: string)
    returns (last: Option<nat>)
    ensures last.Some? ==>
              && IsLastFinished(codec, numbers, calls, thread, last.value)
              && SinceSeq(AfterTurns(codec, numbers, calls), thread) ==
                   FinishedAt(codec, AfterTurns(codec, numbers, calls[..last.value]), calls[last.value]).value
    ensures last.None? ==>
              && SinceSeq(AfterTurns(codec, numbers, calls), thread) == SinceSeq(numbers, thread)
              && forall j | 0 <= j < |calls| && calls[j].thread == thread ::
                   FinishedAt(codec, AfterTurns(codec, numbers, calls[..j]), calls[j]).None?
    decreases |calls|
  {
    last := None;
    if calls != [] {
      var n := |calls| - 1;
      var before, c := calls[..n], calls[n];
      assert calls == before + [c];
      AfterTurnsAppend(codec, numbers, before, c);
      assert forall j | 0 <= j <= n :: before[..j] == calls[..j];
      last := NumberOfLastFinished(codec, numbers, before, thread);
      if c.thread == thread && FinishedAt(codec, AfterTurns(codec, numbers, before), c).Some? {
        last := Some(n);
      }
    }
  }
}
