/** A bridge's turns are runs of the stdio loop's step system: what a turn
    writes, and whether its request succeeds, is what the turn's steps say. */
module TurnRefinement {
  import opened Wrappers
  import opened StdioProtocol
  import StdioSafety
  import StdioTheorems
  import Turns = TurnStream
  import Bridge = RuntimeBridge

  function Written(event: Turns.StdioEvent): Output {
    match event
    case ResponseStart(id) => Start(id)
    case ResponseDelta(id, delta) => Delta(id, delta)
    case ResponseEnd(id) => End(id)
  }

  function AllWritten(events: seq<Turns.StdioEvent>): (log: seq<Output>)
    ensures |log| == |events|
  {
    seq(|events|, i requires 0 <= i < |events| => Written(events[i]))
  }

  function Emits(deltas: seq<string>): (actions: seq<Action>)
    ensures |actions| == |deltas|
  {
    seq(|deltas|, i requires 0 <= i < |deltas| => EmitDelta(deltas[i]))
  }

  /** The steps of one turn, by what the runtime answers. */
  ghost function TurnActions(codec: Turns.Codec, numbers: Bridge.SeqNumbers, thread: string,
                             reply: Bridge.TurnReply): seq<Action> {
    if reply.turnId.None? then [FailOpening(INTERNAL)]
    else
      [Announce(Turn(thread, reply.turnId.value)), Register]
      + Emits(Bridge.TurnDeltas(codec, numbers, thread, reply))
      + [Unregister(Bridge.Completes(codec, reply)), EmitEnd, AnswerTurn]
  }

  // ------------------------------------------------------------------ deltas

  lemma {:induction false} DeltasAreNotEmpty(events: seq<Turns.Event>, turn: string)
    ensures forall text | text in Turns.Deltas(events, turn) :: text != ""
  {
    if events != [] {
      DeltasAreNotEmpty(events[1..], turn);
    }
  }

  lemma StreamedDeltasAreNotEmpty(codec: Turns.Codec, numbers: Bridge.SeqNumbers, thread: string,
                                  reply: Bridge.TurnReply)
    ensures forall text | text in Bridge.TurnDeltas(codec, numbers, thread, reply) :: text != ""
  {
    if reply.turnId.Some? && reply.streams {
      var turn := reply.turnId.value;
      var stop := Turns.TurnEmitsItsDeltas(codec, Bridge.SinceSeq(numbers, thread), reply.chunks, reply.tail, turn);
      DeltasAreNotEmpty(Turns.EventsOf(codec, reply.chunks)[..stop], turn);
    }
  }

  function Streamed(s: State, id: string, deltas: seq<string>): State {
    s.(log := s.log + AllWritten(Turns.DeltaEvents(id, deltas)))
  }

  lemma {:induction false} DeltasRun(s: State, deltas: seq<string>)
    requires s.phase.Streaming? && forall text | text in deltas :: text != ""
    ensures Runs(s, Emits(deltas), Streamed(s, ResponseId(s.phase.turn), deltas))
    decreases |deltas|
  {
    var id := ResponseId(s.phase.turn);
    if deltas == [] {
      assert s.log + [] == s.log && Streamed(s, id, []) == s;
    } else {
      var n := |deltas| - 1;
      var init, text := deltas[..n], deltas[n];
      assert deltas == init + [text];
      assert forall i | 0 <= i < n :: init[i] in deltas;
      assert text in deltas;
      DeltasRun(s, init);
      var t := Streamed(s, id, init);
      RunsAppend(s, Emits(init), t, EmitDelta(text));
      assert Emits(deltas) == Emits(init) + [EmitDelta(text)];
      assert AllWritten(Turns.DeltaEvents(id, deltas)) == AllWritten(Turns.DeltaEvents(id, init)) + [Delta(id, text)];
      assert Step(t, EmitDelta(text)) == Streamed(s, id, deltas);
    }
  }

  // -------------------------------------------------------------- whole turn

  /** What is left of a turn that wrote `events` and was answered. */
  function Answered(s: State, events: seq<Turns.StdioEvent>, completed: bool): State
    requires InTurn(s.phase) && CompleteMessage(s.phase.request.params)
  {
    var thread := s.phase.request.params.threadId.value;
    var outcome := if completed then Ok(TurnAccepted(thread)) else Err(INTERNAL);
    s.(phase := Idle, registry := s.registry - {thread},
       log := s.log + AllWritten(events) + [Reply(Response(IdOf(s.phase.request.id), outcome))])
  }

  /** Opening a turn: announced and registered. */
  lemma TurnOpens(s: State, turn: Turn)
    requires s.phase.Opening? && CompleteMessage(s.phase.request.params)
    ensures var thread := s.phase.request.params.threadId.value;
            Runs(s, [Announce(turn), Register],
                 s.(log := s.log + [Start(ResponseId(turn))], registry := s.registry[thread := turn],
                    phase := Streaming(s.phase.request, turn)))
  {
    var t := Step(s, Announce(turn));
    assert Runs(s, [], s) && [] + [Announce(turn)] == [Announce(turn)];
    RunsAppend(s, [], s, Announce(turn));
    RunsAppend(s, [Announce(turn)], t, Register);
    assert [Announce(turn)] + [Register] == [Announce(turn), Register];
  }

  /** Closing it: taken out of the registry, ended, answered. */
  lemma TurnCloses(s: State, completed: bool)
    requires s.phase.Streaming? && CompleteMessage(s.phase.request.params)
    ensures var id := ResponseId(s.phase.turn);
            Runs(s, [Unregister(completed), EmitEnd, AnswerTurn], Answered(s, [Turns.ResponseEnd(id)], completed))
  {
    var a, b, c := Unregister(completed), EmitEnd, AnswerTurn;
    var t := Step(s, a);
    var u := Step(t, b);
    assert Runs(s, [], s) && [] + [a] == [a];
    RunsAppend(s, [], s, a);
    RunsAppend(s, [a], t, b);
    assert [a] + [b] == [a, b] && [a, b] + [c] == [a, b, c];
    RunsAppend(s, [a, b], u, c);
    assert AllWritten([Turns.ResponseEnd(ResponseId(s.phase.turn))]) == [End(ResponseId(s.phase.turn))];
  }

  lemma WholeTurnRuns(s: State, turn: Turn, deltas: seq<string>, completed: bool)
    requires s.phase.Opening? && CompleteMessage(s.phase.request.params) && forall text | text in deltas :: text != ""
    ensures var id := ResponseId(turn);
            Runs(s, [Announce(turn), Register] + Emits(deltas) + [Unregister(completed), EmitEnd, AnswerTurn],
                 Answered(s, [Turns.ResponseStart(id)] + Turns.DeltaEvents(id, deltas) + [Turns.ResponseEnd(id)],
                          completed))
  {
    hide Runs, Step, Enabled;
    var id, thread := ResponseId(turn), s.phase.request.params.threadId.value;
    var opening := s.(log := s.log + [Start(id)], registry := s.registry[thread := turn],
                      phase := Streaming(s.phase.request, turn));
    TurnOpens(s, turn);
    DeltasRun(opening, deltas);
    var streamed := Streamed(opening, id, deltas);
    RunsCompose(s, [Announce(turn), Register], opening, Emits(deltas), streamed);
    TurnCloses(streamed, completed);
    var closing := [Unregister(completed), EmitEnd, AnswerTurn];
    RunsCompose(s, [Announce(turn), Register] + Emits(deltas), streamed,
                closing, Answered(streamed, [Turns.ResponseEnd(id)], completed));
    SameLog(s.log, id, deltas);
    assert opening.registry - {thread} == s.registry - {thread};
  }

  lemma SameLog(log: seq<Output>, id: string, deltas: seq<string>)
    ensures log + [Start(id)] + AllWritten(Turns.DeltaEvents(id, deltas)) + AllWritten([Turns.ResponseEnd(id)]) ==
              log + AllWritten([Turns.ResponseStart(id)] + Turns.DeltaEvents(id, deltas) + [Turns.ResponseEnd(id)])
  {
    var events := [Turns.ResponseStart(id)] + Turns.DeltaEvents(id, deltas) + [Turns.ResponseEnd(id)];
    assert AllWritten(events) ==
        [Start(id)] + AllWritten(Turns.DeltaEvents(id, deltas)) + AllWritten([Turns.ResponseEnd(id)]);
  }

  /** Undisturbed, each turn of a bridge is a run of the loop's steps from where its request
      was dispatched. It writes exactly the turn's events and then the
      response, which reports success exactly when the turn completed, and
      leaves everything else as it was. */
  lemma UndisturbedTurnRuns(input: seq<Line>, s: State, codec: Turns.Codec, numbers: Bridge.SeqNumbers, thread: string,
                            reply: Bridge.TurnReply)
    requires StdioSafety.Reachable(input, s) && s.phase.Opening? && CompleteMessage(s.phase.request.params)
    ensures Runs(s, TurnActions(codec, numbers, thread, reply),
                 Answered(s, Bridge.TurnEvents(codec, numbers, thread, reply),
                          Bridge.Completes(codec, reply)))
  {
    hide AllWritten;
    StdioTheorems.RegistryHoldsTheStreamingTurn(input, s);
    if reply.turnId.None? {
      FailedTurnRuns(s);
    } else {
      StreamedDeltasAreNotEmpty(codec, numbers, thread, reply);
      WholeTurnRuns(s, Turn(thread, reply.turnId.value), Bridge.TurnDeltas(codec, numbers, thread, reply),
                    Bridge.Completes(codec, reply));
    }
  }

  lemma FailedTurnRuns(s: State)
    requires s.phase.Opening? && CompleteMessage(s.phase.request.params)
    requires s.phase.request.params.threadId.value !in s.registry
    ensures Runs(s, [FailOpening(INTERNAL)], Answered(s, [], false))
  {
    var a := FailOpening(INTERNAL);
    assert Runs(s, [], s) && [] + [a] == [a];
    RunsAppend(s, [], s, a);
    assert AllWritten([]) == [] && s.log + [] == s.log;
    assert s.registry - {s.phase.request.params.threadId.value} == s.registry;
  }

  // ------------------------------------------------------- turns and input

  /** A run without the steps that read input. */
  function NotReading(actions: seq<Action>): seq<Action> {
    if actions == [] then []
    else (if IsReading(actions[0]) then [] else [actions[0]]) + NotReading(actions[1..])
  }

  /** Two states that a turn cannot tell apart. */
  predicate SameTurn(s: State, t: State) {
    s.phase == t.phase && s.log == t.log && s.registry == t.registry
  }

  lemma ReadingKeepsTurn(s: State, a: Action)
    requires Enabled(s, a) && IsReading(a)
    ensures SameTurn(Step(s, a), s)
  {
    hide ParseLine, InterruptOutcome;
  }

  lemma TurnStepsAlike(s: State, u: State, a: Action)
    requires SameTurn(s, u) && Enabled(s, a) && IsTurnAction(a)
    ensures Enabled(u, a) && SameTurn(Step(s, a), Step(u, a))
  {
  }

  /** Reading input in between changes nothing a turn does. */
  lemma {:induction false} ReadingIsInvisible(s: State, actions: seq<Action>, t: State, u: State) returns (v: State)
    requires Runs(s, actions, t) && SameTurn(s, u)
    requires forall a | a in NotReading(actions) :: IsTurnAction(a)
    ensures Runs(u, NotReading(actions), v) && SameTurn(t, v)
    decreases |actions|
  {
    hide Step, Enabled, SameTurn, IsTurnAction;
    v := u;
    if actions != [] {
      var a, rest := actions[0], NotReading(actions[1..]);
      if IsReading(a) {
        assert NotReading(actions) == [] + rest == rest;
        ReadingKeepsTurn(s, a);
        SameTurnTwice(Step(s, a), s, u);
        v := ReadingIsInvisible(Step(s, a), actions[1..], t, u);
      } else {
        assert NotReading(actions) == [a] + rest;
        assert NotReading(actions)[0] == a && NotReading(actions)[1..] == rest;
        assert forall b | b in rest :: b in NotReading(actions);
        TurnStepsAlike(s, u, a);
        v := ReadingIsInvisible(Step(s, a), actions[1..], t, Step(u, a));
      }
    }
  }

  lemma SameTurnTwice(r: State, s: State, t: State)
    requires SameTurn(r, s) && SameTurn(s, t)
    ensures SameTurn(r, t)
  {
  }

  lemma {:induction false} RunsAreDetermined(s: State, actions: seq<Action>, t: State, u: State)
    requires Runs(s, actions, t) && Runs(s, actions, u)
    ensures t == u
    decreases |actions|
  {
    hide Step, Enabled;
    if actions != [] {
      RunsAreDetermined(Step(s, actions[0]), actions[1..], t, u);
    }
  }

  lemma TurnActionsAreTurns(codec: Turns.Codec, numbers: Bridge.SeqNumbers, thread: string, reply: Bridge.TurnReply)
    ensures forall a | a in TurnActions(codec, numbers, thread, reply) :: IsTurnAction(a)
  {
    hide Bridge.TurnDeltas, Bridge.Completes;
    var deltas := Bridge.TurnDeltas(codec, numbers, thread, reply);
    assert forall a | a in Emits(deltas) :: a.EmitDelta?;
  }

  /** However input is read while a turn runs, and however its lines are
      triaged, the turn of a bridge writes exactly its events and then the
      response, which reports success exactly when the turn completed, and
      leaves the registry as it was. */
  lemma TurnIsARun(
    input: seq<Line>, s: State, actions: seq<Action>, t: State,
    codec: Turns.Codec, numbers: Bridge.SeqNumbers, thread: string, reply: Bridge.TurnReply)
    requires StdioSafety.Reachable(input, s) && s.phase.Opening? && CompleteMessage(s.phase.request.params)
    requires Runs(s, actions, t) && NotReading(actions) == TurnActions(codec, numbers, thread, reply)
    ensures var events := Bridge.TurnEvents(codec, numbers, thread, reply);
            SameTurn(t, Answered(s, events, Bridge.Completes(codec, reply)))
  {
    hide Runs, Answered, TurnActions, NotReading;
    TurnActionsAreTurns(codec, numbers, thread, reply);
    var v := ReadingIsInvisible(s, actions, t, s);
    UndisturbedTurnRuns(input, s, codec, numbers, thread, reply);
    RunsAreDetermined(s, NotReading(actions), v,
                      Answered(s, Bridge.TurnEvents(codec, numbers, thread, reply),
                               Bridge.Completes(codec, reply)));
  }
}
