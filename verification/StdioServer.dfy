/** The stdio loop in the source's own form: nested loops over a reader, a
    queue of deferred work, a registry of live turns and a writer. Everything
    it does is a run of the step system. */
module StdioServer {
  import opened Wrappers
  import opened StdioProtocol
  import opened StdioSafety
  import opened StdioTheorems

  lemma ReachableStep(input: seq<Line>, s: State, a: Action)
    requires Reachable(input, s) && Enabled(s, a)
    ensures Reachable(input, Step(s, a))
  {
    var actions :| Runs(Initial(input), actions, s);
    RunsAppend(Initial(input), actions, s, a);
  }

  lemma ServesNoTurn(input: seq<Line>, s: State)
    requires Reachable(input, s) && s.phase.Serving?
    ensures !IsTurn(s.phase.request)
  {
    ReachableInvariant(input, s);
  }

  class StdioServer {
    var unread: seq<Line>
    var stdinOpen: bool
    var pending: seq<Work>
    var phase: Phase
    var registry: map<string, Turn>
    var log: seq<Output>
    ghost var arrived: seq<Parsed>
    ghost var interrupts: set<Interrupt>

    ghost function Abstract(): State
      reads this
    {
      State(unread, stdinOpen, pending, phase, registry, log, arrived, interrupts)
    }

    constructor (input: seq<Line>)
      ensures Abstract() == Initial(input)
    {
      unread, stdinOpen, pending, phase, registry, log := input, true, [], Idle, map[], [];
      arrived, interrupts := [], {};
    }

    method WriteStdioLine(response: Response)
      modifies this`log
      ensures log == old(log) + [Reply(response)]
    {
      log := log + [Reply(response)];
    }

    method NextLine() returns (line: Line)
      requires unread != []
      modifies this`unread, this`arrived
      ensures line == old(unread)[0]
      ensures Abstract() == ReadLine(old(Abstract()))
    {
      line := unread[0];
      ghost var item := ParseLine(line);
      unread := unread[1..];
      if !item.Blank? {
        arrived := arrived + [item];
      }
    }

    /** Sends the runtime an interrupt for a registered turn; it may refuse. */
    method InterruptStdioTurn(threadId: string) returns (outcome: Outcome, ghost delivered: bool)
      modifies this`interrupts
      ensures Abstract() == SendInterrupt(old(Abstract()), threadId)
      ensures outcome == InterruptOutcome(registry, threadId, delivered)
    {
      delivered := true;
      if threadId !in registry {
        return Ok(Interrupted(threadId, false)), delivered;
      }
      interrupts := interrupts + {Interrupt(threadId, registry[threadId], |log|)};
      if * {
        outcome := Ok(Interrupted(threadId, true));
      } else {
        outcome, delivered := Err(INTERNAL), false;
      }
    }

    method InterruptLiveTurns()
      modifies this`interrupts
      ensures Abstract() == SendInterrupts(old(Abstract()))
    {
      var live := registry.Keys;
      var before := registry;
      ghost var sent: set<string> := {};
      while live != {}
        invariant sent + live == registry.Keys && sent !! live
        invariant interrupts == old(interrupts) + set t | t in sent :: Interrupt(t, registry[t], |log|)
        decreases live
      {
        var threadId :| threadId in live;
        ghost var previous := interrupts;
        var outcome, delivered := InterruptStdioTurn(threadId);
        live, sent := live - {threadId}, sent + {threadId};
      }
      assert sent == registry.Keys;
    }

    method HandleLineDuringTurn(line: Line) returns (ghost delivered: bool)
      modifies this`pending, this`interrupts
      ensures Abstract() == HandleDuringTurn(old(Abstract()), ParseLine(line), delivered)
    {
      delivered := true;
      match ParseLine(line)
      case Blank =>
      case Rejected(response) => pending := pending + [Answered(response)];
      case Accepted(request) =>
        match request.call {
          case ThreadInterrupt =>
            var outcome := Err(INVALID_PARAMS);
            if request.params.threadId.Some? {
              outcome, delivered := InterruptStdioTurn(request.params.threadId.value);
            }
            pending := pending + [Answered(Response(IdOf(request.id), outcome))];
          case Shutdown =>
            InterruptLiveTurns();
            pending := pending + [Deferred(request)];
          case _ =>
            pending := pending + [Deferred(request)];
        }
    }

    /** The open stream yields one more delta, or ends. */
    method StreamOn(deltasLeft: nat) returns (left: nat, ghost action: Action)
      requires phase.Streaming? && CompleteMessage(phase.request.params)
      modifies this`log, this`registry, this`phase
      ensures Enabled(old(Abstract()), action) && Abstract() == Step(old(Abstract()), action)
      ensures InTurn(phase) && left <= deltasLeft && IsTurnAction(action) && !AnswersTurn(action)
      ensures action.EmitDelta? ==> left < deltasLeft
    {
      left := deltasLeft;
      var more: bool := *;
      if more && left > 0 {
        var first: char := *;
        var rest: string := *;
        var text := [first] + rest;
        log := log + [Delta(ResponseId(phase.turn), text)];
        left, action := left - 1, EmitDelta(text);
      } else {
        var completed: bool := *;
        registry := registry - {phase.request.params.threadId.value};
        phase, action := Closing(phase.request, phase.turn, completed), Unregister(completed);
      }
    }

    /** The dispatched turn runs up to its next suspension point. */
    method PollTurn(input: seq<Line>, deltasLeft: nat) returns (left: nat, ghost action: Action)
      requires Reachable(input, Abstract()) && InTurn(phase)
      modifies this
      ensures IsTurnAction(action) && (phase.Idle? <==> AnswersTurn(action))
      ensures Enabled(old(Abstract()), action) && Abstract() == Step(old(Abstract()), action)
      ensures Reachable(input, Abstract()) && (InTurn(phase) || phase.Idle?)
      ensures left <= deltasLeft && WorkLeft(Abstract()) <= old(WorkLeft(Abstract()))
      ensures left < deltasLeft || WorkLeft(Abstract()) < old(WorkLeft(Abstract()))
      ensures phase.Idle? ==> WorkLeft(Abstract()) < old(WorkLeft(Abstract()))
    {
      hide Accounted, ExitsRightly, RegistryIsLive, InterruptsHitLiveTurns, TrueRepliesAreEarned, StartsBelongToTurns,
          Scan, Replies, Items, WorkLeft, Reachable;
      left := deltasLeft;
      ghost var s := Abstract();
      ReachableInvariant(input, s);
      var request := phase.request;
      match phase {
        case Opening(_) =>
          if !CompleteMessage(request.params) {
            WriteStdioLine(Response(IdOf(request.id), Err(INVALID_PARAMS)));
            phase, action := Idle, FailOpening(INVALID_PARAMS);
          } else if * {
            WriteStdioLine(Response(IdOf(request.id), Err(INTERNAL)));
            phase, action := Idle, FailOpening(INTERNAL);
          } else {
            var turn: Turn := *;
            log := log + [Start(ResponseId(turn))];
            phase, action := Announced(request, turn), Announce(turn);
          }
        case Announced(_, turn) =>
          registry := registry[request.params.threadId.value := turn];
          phase, action := Streaming(request, turn), Register;
        case Streaming(_, _) =>
          left, action := StreamOn(left);
        case Closing(_, turn, completed) =>
          log := log + [End(ResponseId(turn))];
          phase, action := Ended(request, turn, completed), EmitEnd;
        case Ended(_, _, completed) =>
          var accepted := Ok(TurnAccepted(request.params.threadId.value));
          WriteStdioLine(Response(IdOf(request.id), if completed then accepted else Err(INTERNAL)));
          phase, action := Idle, AnswerTurn;
      }
      assert Abstract() == Step(s, action);
      ReachableStep(input, s, action);
      StepsUseUpWork(s, action);
    }

    /** The input side of the race: one line, or the end of the input. */
    method ReadDuringTurn(input: seq<Line>) returns (ghost action: Action)
      requires Reachable(input, Abstract()) && ReadsInput(phase) && stdinOpen
      modifies this
      ensures IsReading(action)
      ensures Enabled(old(Abstract()), action) && Abstract() == Step(old(Abstract()), action)
      ensures Reachable(input, Abstract()) && phase == old(phase)
      ensures WorkLeft(Abstract()) < old(WorkLeft(Abstract()))
    {
      hide WorkLeft, Reachable;
      ghost var s := Abstract();
      action := EofDuring;
      if unread == [] {
        stdinOpen := false;
      } else {
        var line := NextLine();
        ghost var delivered := HandleLineDuringTurn(line);
        action := ReadDuring(delivered);
      }
      assert Abstract() == Step(s, action);
      ReachableStep(input, s, action);
      StepsUseUpWork(s, action);
    }

    /** A turn and the input race: whichever is ready first goes on. Only
        `thread/message` reads input meanwhile. */
    method AwaitTurn(input: seq<Line>, deltasLeft: nat) returns (left: nat, ghost actions: seq<Action>)
      requires Reachable(input, Abstract()) && InTurn(phase)
      modifies this
      ensures Reachable(input, Abstract()) && phase.Idle?
      ensures Runs(old(Abstract()), actions, Abstract())
      ensures forall a | a in actions :: IsTurnAction(a) || IsReading(a)
      ensures actions != [] && AnswersTurn(actions[|actions| - 1])
      ensures left <= deltasLeft && WorkLeft(Abstract()) < old(WorkLeft(Abstract()))
    {
      hide WorkLeft, Reachable, Step, Enabled;
      left, actions := deltasLeft, [];
      ghost var s := Abstract();
      while InTurn(phase)
        invariant Reachable(input, Abstract()) && (InTurn(phase) || phase.Idle?)
        invariant Runs(s, actions, Abstract())
        invariant forall a | a in actions :: IsTurnAction(a) || IsReading(a)
        invariant phase.Idle? ==> actions != [] && AnswersTurn(actions[|actions| - 1])
        invariant left <= deltasLeft && WorkLeft(Abstract()) <= old(WorkLeft(Abstract()))
        invariant phase.Idle? ==> WorkLeft(Abstract()) < old(WorkLeft(Abstract()))
        decreases left + WorkLeft(Abstract())
      {
        ghost var before := Abstract();
        ghost var action;
        var lineFirst: bool := *;
        if lineFirst && stdinOpen && ReadsInput(phase) {
          action := ReadDuringTurn(input);
        } else {
          left, action := PollTurn(input, left);
        }
        RunsAppend(s, actions, before, action);
        actions := actions + [action];
      }
    }

    /** The outcome of a request that runs no turn: the runtime or the
        configuration answers it, within what the method may answer. */
    method Serve(request: Request) returns (outcome: Outcome)
      requires !IsTurn(request)
      modifies this`interrupts
      ensures Dispatches(old(Abstract()), request, outcome)
      ensures Abstract() ==
                if request.call.Shutdown? then SendInterrupts(old(Abstract()))
                else if request.call.ThreadInterrupt? && request.params.threadId.Some? then
                  SendInterrupt(old(Abstract()), request.params.threadId.value)
                else old(Abstract())
    {
      match request.call {
        case Shutdown =>
          InterruptLiveTurns();
          outcome := Ok(Stopped);
        case ThreadInterrupt =>
          if request.params.threadId.Some? {
            ghost var delivered;
            outcome, delivered := InterruptStdioTurn(request.params.threadId.value);
            assert outcome == InterruptOutcome(registry, request.params.threadId.value, delivered);
          } else {
            outcome := Err(INVALID_PARAMS);
          }
        case Static(_) => outcome := Ok(Data);
        case Unknown(_) => outcome := Err(METHOD_NOT_FOUND);
        case _ =>
          var answered: bool := *;
          var understood: bool := *;
          outcome := if answered then Ok(Data) else if understood then Err(INTERNAL) else Err(INVALID_PARAMS);
      }
    }

    /** Dispatches one request that runs no turn and writes its response. */
    method DispatchRequest(input: seq<Line>) returns (ghost answered: Outcome)
      requires Reachable(input, Abstract()) && phase.Serving?
      modifies this
      ensures Enabled(old(Abstract()), Answer(answered)) && Abstract() == Step(old(Abstract()), Answer(answered))
      ensures Reachable(input, Abstract()) && (phase.Idle? || phase.Done?)
      ensures WorkLeft(Abstract()) < old(WorkLeft(Abstract()))
    {
      hide Invariant, WorkLeft, Reachable, Dispatches;
      ghost var s := Abstract();
      ServesNoTurn(input, s);
      var request := phase.request;
      var outcome := Serve(request);
      answered := outcome;
      WriteStdioLine(Response(IdOf(request.id), outcome));
      phase := if request.call.Shutdown? then Done(false) else Idle;
      assert Abstract() == Step(s, Answer(outcome));
      ReachableStep(input, s, Answer(outcome));
      StepsUseUpWork(s, Answer(outcome));
    }

    /** Takes up the next piece of work: queued first, then a line of input. */
    method TakeUpWork(input: seq<Line>)
      requires Reachable(input, Abstract()) && phase.Idle?
      modifies this
      ensures Enabled(old(Abstract()), NextWork(old(Abstract())))
      ensures Abstract() == Step(old(Abstract()), NextWork(old(Abstract())))
      ensures Reachable(input, Abstract()) && WorkLeft(Abstract()) < old(WorkLeft(Abstract()))
      ensures phase.Idle? || phase.Done? || phase.Serving? || phase.Opening?
    {
      hide WorkLeft, Reachable;
      ghost var s := Abstract();
      ghost var action;
      if pending != [] {
        action := PopWork;
        var work := pending[0];
        pending := pending[1..];
        match work
        case Answered(response) => WriteStdioLine(response);
        case Deferred(request) => phase := if IsTurn(request) then Opening(request) else Serving(request);
      } else if !stdinOpen || unread == [] {
        action := StopAtEof;
        phase := Done(true);
      } else {
        action := ReadIdle;
        var line := NextLine();
        match ParseLine(line)
        case Blank =>
        case Rejected(response) => WriteStdioLine(response);
        case Accepted(request) => phase := if IsTurn(request) then Opening(request) else Serving(request);
      }
      assert Abstract() == Step(s, action);
      ReachableStep(input, s, action);
      StepsUseUpWork(s, action);
    }

    /** The whole loop, for any runtime that streams finitely many deltas: it
        ends, having answered exactly the lines it should, in order. */
    method RunStdioLoop(input: seq<Line>, deltas: nat)
      requires Abstract() == Initial(input)
      modifies this
      ensures phase.Done? && Reachable(input, Abstract())
      ensures ReplyIds(log) == ExpectedIds(input)
    {
      assert Runs(Initial(input), [], Abstract());
      var left := deltas;
      while !phase.Done?
        invariant Reachable(input, Abstract())
        invariant phase.Idle? || phase.Done?
        decreases WorkLeft(Abstract())
      {
        TakeUpWork(input);
        ReachableInvariant(input, Abstract());
        if phase.Serving? {
          ghost var outcome := DispatchRequest(input);
        } else if phase.Opening? {
          ghost var actions;
          left, actions := AwaitTurn(input, left);
        }
      }
      ScheduleDoesNotReorder(input, Abstract(), Abstract());
    }
  }
}
