/** What holds in every run of the stdio loop, whatever the interleaving of
    input with a streaming turn and whatever the runtime answers. */
module StdioSafety {
  import opened Wrappers
  import opened StdioProtocol

  // ------------------------------------------------------- reading the log

  /** The JSON-RPC responses in a log, in order. */
  function Replies(log: seq<Output>): seq<Response> {
    if log == [] then []
    else
      var n := |log| - 1;
      Replies(log[..n]) + (if log[n].Reply? then [log[n].response] else [])
  }

  /** What a log ends in: between responses, inside a turn's events, or right
      after their end. */
  datatype Position = Between | Inside(id: string) | AfterEnd | Malformed

  function Advance(p: Position, out: Output): Position {
    match (p, out)
    case (Between, Start(id)) => Inside(id)
    case (Between, Reply(_)) => Between
    case (Inside(open), Delta(id, _)) => if id == open then p else Malformed
    case (Inside(open), End(id)) => if id == open then AfterEnd else Malformed
    case (AfterEnd, Reply(_)) => Between
    case _ => Malformed
  }

  function Scan(log: seq<Output>): Position {
    if log == [] then Between else Advance(Scan(log[..|log| - 1]), log[|log| - 1])
  }

  // -------------------------------------------------------------- invariant

  function Current(phase: Phase): seq<Parsed> {
    if phase.Idle? || phase.Done? then [] else [Accepted(phase.request)]
  }

  predicate Fits(item: Parsed, work: Work) {
    match work
    case Answered(response) => Answers(item, response) && !IsShutdown(item)
    case Deferred(request) => item == Accepted(request)
  }

  /** Arrived lines are answered ++ current ++ pending, in that order. */
  ghost predicate Accounted(s: State) {
    var done, now := |Replies(s.log)|, |Current(s.phase)|;
    && |s.arrived| == done + now + |s.pending|
    && (forall k | 0 <= k < done :: Answers(s.arrived[k], Replies(s.log)[k]))
    && (now == 1 ==> s.arrived[done] == Current(s.phase)[0])
    && (forall j | 0 <= j < |s.pending| :: Fits(s.arrived[done + now + j], s.pending[j]))
  }

  /** Only the last answer may be a shutdown's, and then the loop is done. */
  ghost predicate ExitsRightly(s: State) {
    var done := |Replies(s.log)|;
    && done <= |s.arrived|
    && (forall k | 0 <= k < done :: IsShutdown(s.arrived[k]) ==> s.phase == Done(false) && k == done - 1)
    && (s.phase == Done(false) ==> done > 0 && IsShutdown(s.arrived[done - 1]))
    && (s.phase == Done(true) ==> s.unread == [] && s.pending == [])
    && (!s.stdinOpen ==> s.unread == [])
  }

  ghost predicate PhaseIsCoherent(s: State) {
    && (InTurn(s.phase) ==> IsTurn(s.phase.request))
    && (s.phase.Serving? ==> !IsTurn(s.phase.request))
    && (InTurn(s.phase) && !s.phase.Opening? ==> CompleteMessage(s.phase.request.params))
    && Scan(s.log) == (match s.phase
                       case Announced(_, t) => Inside(ResponseId(t))
                       case Streaming(_, t) => Inside(ResponseId(t))
                       case Closing(_, t, _) => Inside(ResponseId(t))
                       case Ended(_, _, _) => AfterEnd
                       case _ => Between)
  }

  /** The registry holds a turn exactly while it is streaming. */
  ghost predicate RegistryIsLive(s: State) {
    s.registry ==
      if s.phase.Streaming? && s.phase.request.params.threadId.Some? then
        map[s.phase.request.params.threadId.value := s.phase.turn]
      else map[]
  }

  /** Every interrupt ever sent named the turn whose response was open then. */
  ghost predicate InterruptsHitLiveTurns(log: seq<Output>, interrupts: set<Interrupt>) {
    forall i | i in interrupts :: i.at <= |log| && Scan(log[..i.at]) == Inside(ResponseId(i.turn))
  }

  ghost predicate WasInterrupted(interrupts: set<Interrupt>, threadId: string) {
    exists i :: i in interrupts && i.threadId == threadId
  }

  predicate SaysInterrupted(response: Response) {
    response.outcome.Ok? && response.outcome.result.Interrupted? && response.outcome.result.interrupted
  }

  /** An `interrupted: true` response whose interrupt was sent. */
  ghost predicate Earned(response: Response, interrupts: set<Interrupt>) {
    SaysInterrupted(response) ==> WasInterrupted(interrupts, response.outcome.result.threadId)
  }

  ghost predicate TrueRepliesAreEarned(s: State) {
    && (forall k | 0 <= k < |Replies(s.log)| :: Earned(Replies(s.log)[k], s.interrupts))
    && (forall j | 0 <= j < |s.pending| :: s.pending[j].Answered? ==> Earned(s.pending[j].response, s.interrupts))
  }

  /** Each response opened was opened for the turn request answered next. */
  ghost predicate StartsBelongToTurns(log: seq<Output>, arrived: seq<Parsed>) {
    forall i | 0 <= i < |log| && log[i].Start? ::
      var n := |Replies(log[..i])|;
      n < |arrived| && arrived[n].Accepted? && IsTurn(arrived[n].request)
  }

  ghost predicate Invariant(input: seq<Line>, s: State) {
    && Items(input) == s.arrived + Items(s.unread)
    && Accounted(s)
    && ExitsRightly(s)
    && PhaseIsCoherent(s)
    && RegistryIsLive(s)
    && InterruptsHitLiveTurns(s.log, s.interrupts)
    && TrueRepliesAreEarned(s)
    && StartsBelongToTurns(s.log, s.arrived)
  }

  lemma InitialInvariant(input: seq<Line>)
    ensures Invariant(input, Initial(input))
  {
    assert [] + Items(input) == Items(input);
  }

  // ------------------------------------------------- writing keeps the past

  lemma Appended(log: seq<Output>, out: Output)
    ensures Replies(log + [out]) == Replies(log) + (if out.Reply? then [out.response] else [])
    ensures Scan(log + [out]) == Advance(Scan(log), out)
  {
    assert (log + [out])[..|log|] == log;
  }

  lemma WriteKeepsHistory(log: seq<Output>, out: Output, arrived: seq<Parsed>, interrupts: set<Interrupt>)
    requires InterruptsHitLiveTurns(log, interrupts) && StartsBelongToTurns(log, arrived)
    requires out.Start? ==>
               var n := |Replies(log)|;
               n < |arrived| && arrived[n].Accepted? && IsTurn(arrived[n].request)
    ensures InterruptsHitLiveTurns(log + [out], interrupts)
    ensures StartsBelongToTurns(log + [out], arrived)
  {
    forall i | i in interrupts
      ensures i.at <= |log| && (log + [out])[..i.at] == log[..i.at]
    {
    }
    forall i | 0 <= i < |log| + 1
      ensures i < |log| ==> (log + [out])[i] == log[i]
      ensures (log + [out])[..i] == log[..i]
    {
    }
    assert log[..|log|] == log;
  }

  lemma ItemsOfFirst(lines: seq<Line>)
    requires lines != []
    ensures Items(lines) == (if ParseLine(lines[0]).Blank? then [] else [ParseLine(lines[0])]) + Items(lines[1..])
  {
    assert [] + Items(lines[1..]) == Items(lines[1..]);
  }

  // ----------------------------------------------------- every step keeps it

  /** Answering the current request, with the loop moving on to `next`. */
  lemma AnswerKeeps(input: seq<Line>, s: State, response: Response, interrupts: set<Interrupt>, next: Phase)
    requires Invariant(input, s) && (s.phase.Serving? || s.phase.Opening? || s.phase.Ended?)
    requires Answers(Accepted(s.phase.request), response)
    requires s.interrupts <= interrupts && InterruptsHitLiveTurns(s.log, interrupts)
    requires Earned(response, interrupts)
    requires next == (if s.phase.request.call.Shutdown? then Done(false) else Idle)
    ensures Invariant(input, Write(s, Reply(response)).(phase := next, interrupts := interrupts))
  {
    hide Replies, Scan, Answers, Fits, Earned, InterruptsHitLiveTurns, StartsBelongToTurns, Items;
    var out := Reply(response);
    var t := Write(s, out).(phase := next, interrupts := interrupts);
    var done := |Replies(s.log)|;
    Appended(s.log, out);
    WriteKeepsHistory(s.log, out, s.arrived, interrupts);
    assert s.arrived[done] == Accepted(s.phase.request);
    assert Replies(t.log)[..done] == Replies(s.log);
    forall k | 0 <= k < done + 1
      ensures Answers(t.arrived[k], Replies(t.log)[k])
    {
      if k < done {
        assert Replies(t.log)[k] == Replies(s.log)[k];
      }
    }
    assert Accounted(t);
    assert forall k | 0 <= k < done :: !IsShutdown(s.arrived[k]);
    assert ExitsRightly(t);
    forall k | 0 <= k < done + 1
      ensures Earned(Replies(t.log)[k], interrupts)
    {
      if k < done {
        assert Replies(t.log)[k] == Replies(s.log)[k];
        EarnedMonotone(Replies(s.log)[k], s.interrupts, interrupts);
      }
    }
    PendingEarned(s, interrupts);
  }

  lemma EarnedMonotone(response: Response, a: set<Interrupt>, b: set<Interrupt>)
    requires Earned(response, a) && a <= b
    ensures Earned(response, b)
  {
    if SaysInterrupted(response) {
      var i :| i in a && i.threadId == response.outcome.result.threadId;
      assert i in b;
    }
  }

  lemma PendingEarned(s: State, interrupts: set<Interrupt>)
    requires TrueRepliesAreEarned(s) && s.interrupts <= interrupts
    ensures forall j | 0 <= j < |s.pending| :: s.pending[j].Answered? ==> Earned(s.pending[j].response, interrupts)
    ensures forall k | 0 <= k < |Replies(s.log)| :: Earned(Replies(s.log)[k], interrupts)
  {
    forall j | 0 <= j < |s.pending| && s.pending[j].Answered?
      ensures Earned(s.pending[j].response, interrupts)
    {
      EarnedMonotone(s.pending[j].response, s.interrupts, interrupts);
    }
    forall k | 0 <= k < |Replies(s.log)|
      ensures Earned(Replies(s.log)[k], interrupts)
    {
      EarnedMonotone(Replies(s.log)[k], s.interrupts, interrupts);
    }
  }

  /** A step that answers nothing and takes no input keeps the accounts. */
  lemma QuietStepKeeps(s: State, t: State)
    requires Accounted(s) && ExitsRightly(s) && TrueRepliesAreEarned(s)
    requires t.unread == s.unread && t.stdinOpen == s.stdinOpen && t.pending == s.pending && t.arrived == s.arrived
    requires Replies(t.log) == Replies(s.log) && Current(t.phase) == Current(s.phase) && t.interrupts == s.interrupts
    requires InTurn(s.phase) && InTurn(t.phase)
    ensures Accounted(t) && ExitsRightly(t) && TrueRepliesAreEarned(t)
  {
  }

  /** A turn writing one of its events and moving to its next phase. */
  lemma TurnEventKeeps(input: seq<Line>, s: State, out: Output, next: Phase)
    requires Invariant(input, s) && InTurn(s.phase) && InTurn(next) && next.request == s.phase.request
    requires s.phase.Streaming? <==> next.Streaming?
    requires s.phase.Streaming? ==> next == s.phase
    requires next.Opening? || CompleteMessage(next.request.params)
    requires !out.Reply? && (out.Start? ==> s.phase.Opening?)
    requires Advance(Scan(s.log), out) == (match next
                                           case Opening(_) => Between
                                           case Ended(_, _, _) => AfterEnd
                                           case _ => Inside(ResponseId(next.turn)))
    ensures Invariant(input, Write(s, out).(phase := next))
  {
    hide Replies, Scan, Answers, Fits, InterruptsHitLiveTurns, StartsBelongToTurns, Items, TrueRepliesAreEarned,
        ExitsRightly;
    var t := Write(s, out).(phase := next);
    Appended(s.log, out);
    assert Replies(s.log) + [] == Replies(s.log);
    QuietStepKeeps(s, t);
    var done := |Replies(s.log)|;
    assert s.arrived[done] == Accepted(s.phase.request);
    WriteKeepsHistory(s.log, out, s.arrived, s.interrupts);
  }

  lemma TurnStepKeeps(input: seq<Line>, s: State, a: Action)
    requires Invariant(input, s) && Enabled(s, a)
    requires a.Announce? || a.Register? || a.EmitDelta? || a.Unregister? || a.EmitEnd?
    ensures Invariant(input, Step(s, a))
  {
    hide Replies, Scan, Answers, Fits, InterruptsHitLiveTurns, StartsBelongToTurns, Items, Accounted,
        TrueRepliesAreEarned;
    var t := Step(s, a);
    match a
    case Announce(turn) => TurnEventKeeps(input, s, Start(ResponseId(turn)), t.phase);
    case EmitDelta(text) => TurnEventKeeps(input, s, Delta(ResponseId(s.phase.turn), text), s.phase);
    case EmitEnd => TurnEventKeeps(input, s, End(ResponseId(s.phase.turn)), t.phase);
    case Register => QuietStepKeeps(s, t);
    case Unregister(_) => QuietStepKeeps(s, t);
  }

  lemma AnswerStepKeeps(input: seq<Line>, s: State, a: Action)
    requires Invariant(input, s) && Enabled(s, a)
    requires a.Answer? || a.FailOpening? || a.AnswerTurn?
    ensures Invariant(input, Step(s, a))
  {
    hide Replies, Scan, InterruptsHitLiveTurns, StartsBelongToTurns, Items, TrueRepliesAreEarned, ExitsRightly;
    assert InterruptsOf(map[], |s.log|) == {};
    assert s.interrupts + {} == s.interrupts;
    var request := s.phase.request;
    match a
    case Answer(outcome) =>
      AnswerKeeps(input, s, Response(IdOf(request.id), outcome), s.interrupts, Step(s, a).phase);
    case FailOpening(code) =>
      AnswerKeeps(input, s, Response(IdOf(request.id), Err(code)), s.interrupts, Idle);
    case AnswerTurn =>
      var outcome := if s.phase.completed then Ok(TurnAccepted(request.params.threadId.value)) else Err(INTERNAL);
      AnswerKeeps(input, s, Response(IdOf(request.id), outcome), s.interrupts, Idle);
  }

  /** Taking a line off the input: its item joins the arrived ones. */
  lemma ReadLineKeepsItems(input: seq<Line>, s: State)
    requires Items(input) == s.arrived + Items(s.unread) && s.unread != []
    ensures var t := ReadLine(s); Items(input) == t.arrived + Items(t.unread)
  {
    ItemsOfFirst(s.unread);
  }

  /** Deferring an arrived item behind the turn that holds the writer. */
  lemma DeferKeeps(input: seq<Line>, s: State, item: Parsed, rest: seq<Line>, work: Work, interrupts: set<Interrupt>)
    requires Invariant(input, s) && InTurn(s.phase) && s.stdinOpen
    requires Items(input) == s.arrived + [item] + Items(rest)
    requires Fits(item, work)
    requires s.interrupts <= interrupts && InterruptsHitLiveTurns(s.log, interrupts)
    requires work.Answered? ==> Earned(work.response, interrupts)
    ensures Invariant(input, s.(unread := rest, arrived := s.arrived + [item],
                                pending := s.pending + [work], interrupts := interrupts))
  {
    hide Replies, Scan, Answers, InterruptsHitLiveTurns, StartsBelongToTurns, WasInterrupted;
    var t := s.(unread := rest, arrived := s.arrived + [item], pending := s.pending + [work], interrupts := interrupts);
    var done := |Replies(s.log)|;
    forall j | 0 <= j < |t.pending|
      ensures Fits(t.arrived[done + 1 + j], t.pending[j])
    {
    }
    assert Accounted(t);
    PendingEarned(s, interrupts);
    ArrivalKeepsStarts(s.log, s.arrived, item);
  }

  lemma ArrivalKeepsStarts(log: seq<Output>, arrived: seq<Parsed>, item: Parsed)
    requires StartsBelongToTurns(log, arrived)
    ensures StartsBelongToTurns(log, arrived + [item])
  {
  }

  /** A line that arrives during a turn. */
  lemma ReadDuringKeeps(input: seq<Line>, s: State, delivered: bool)
    requires Invariant(input, s) && Enabled(s, ReadDuring(delivered))
    ensures Invariant(input, Step(s, ReadDuring(delivered)))
  {
    hide Accounted, ExitsRightly, PhaseIsCoherent, StartsBelongToTurns, InterruptsHitLiveTurns, Scan, Replies, Items,
        TrueRepliesAreEarned;
    var item := ParseLine(s.unread[0]);
    var rest := s.unread[1..];
    ReadLineKeepsItems(input, s);
    if item.Accepted? && item.request.call.ThreadInterrupt? && item.request.params.threadId.Some? {
      var request := item.request;
      var t := request.params.threadId.value;
      var sent := SendInterrupt(ReadLine(s), t).interrupts;
      var response := Response(IdOf(request.id), InterruptOutcome(s.registry, t, delivered));
      LiveInterrupts(input, s, sent);
      assert Earned(response, sent) by {
        if t in s.registry {
          assert Interrupt(t, s.registry[t], |s.log|) in sent;
        }
      }
      DeferKeeps(input, s, item, rest, Answered(response), sent);
    } else if item.Accepted? && item.request.call.ThreadInterrupt? {
      DeferKeeps(input, s, item, rest, Answered(Response(IdOf(item.request.id), Err(INVALID_PARAMS))), s.interrupts);
    } else if item.Accepted? && item.request.call.Shutdown? {
      var sent := SendInterrupts(ReadLine(s)).interrupts;
      LiveInterrupts(input, s, sent);
      DeferKeeps(input, s, item, rest, Deferred(item.request), sent);
    } else if item.Accepted? {
      DeferKeeps(input, s, item, rest, Deferred(item.request), s.interrupts);
    } else if item.Rejected? {
      RejectedLines(s.unread[0]);
      DeferKeeps(input, s, item, rest, Answered(item.response), s.interrupts);
    } else {
      BlankLineKeeps(input, s);
    }
  }

  lemma BlankLineKeeps(input: seq<Line>, s: State)
    requires Invariant(input, s) && s.stdinOpen && s.unread != [] && ParseLine(s.unread[0]).Blank?
    ensures Invariant(input, ReadLine(s))
  {
    ItemsOfFirst(s.unread);
  }

  lemma EofKeeps(input: seq<Line>, s: State, a: Action)
    requires Invariant(input, s) && Enabled(s, a) && (a.StopAtEof? || a.EofDuring?)
    ensures Invariant(input, Step(s, a))
  {
  }

  lemma RejectedLines(line: Line)
    requires ParseLine(line).Rejected?
    ensures Answers(ParseLine(line), ParseLine(line).response) && !SaysInterrupted(ParseLine(line).response)
  {
  }

  /** Interrupts sent now go to the turn whose response is open now. */
  lemma LiveInterrupts(input: seq<Line>, s: State, sent: set<Interrupt>)
    requires Invariant(input, s)
    requires forall i | i in sent ::
               || i in s.interrupts
               || (i.threadId in s.registry && i.turn == s.registry[i.threadId] && i.at == |s.log|)
    ensures InterruptsHitLiveTurns(s.log, sent)
  {
    assert s.log[..|s.log|] == s.log;
  }

  /** A line read, or queued work taken up, between turns. */
  lemma BeginKeeps(input: seq<Line>, s: State, request: Request)
    requires s.phase.Idle? && PhaseIsCoherent(s) && RegistryIsLive(s)
    requires Items(input) == s.arrived + Items(s.unread)
    requires InterruptsHitLiveTurns(s.log, s.interrupts) && TrueRepliesAreEarned(s)
    requires StartsBelongToTurns(s.log, s.arrived)
    requires Accounted(Begin(s, request)) && ExitsRightly(Begin(s, request))
    ensures Invariant(input, Begin(s, request))
  {
  }

  /** Answering an arrived item without dispatching it. */
  lemma ReplyKeeps(input: seq<Line>, s: State, response: Response)
    requires s.phase.Idle? && PhaseIsCoherent(s) && RegistryIsLive(s)
    requires Items(input) == s.arrived + Items(s.unread)
    requires InterruptsHitLiveTurns(s.log, s.interrupts) && TrueRepliesAreEarned(s)
    requires StartsBelongToTurns(s.log, s.arrived)
    requires Earned(response, s.interrupts)
    requires var done := |Replies(s.log)|;
             && |s.arrived| == done + 1 + |s.pending|
             && (forall k | 0 <= k < done :: Answers(s.arrived[k], Replies(s.log)[k]) && !IsShutdown(s.arrived[k]))
             && Answers(s.arrived[done], response) && !IsShutdown(s.arrived[done])
             && (forall j | 0 <= j < |s.pending| :: Fits(s.arrived[done + 1 + j], s.pending[j]))
             && (!s.stdinOpen ==> s.unread == [])
    ensures Invariant(input, Write(s, Reply(response)))
  {
    hide Replies, Scan, Answers, Fits, Earned, InterruptsHitLiveTurns, StartsBelongToTurns, Items;
    var t := Write(s, Reply(response));
    Appended(s.log, Reply(response));
    WriteKeepsHistory(s.log, Reply(response), s.arrived, s.interrupts);
    var done := |Replies(s.log)|;
    forall k | 0 <= k < done + 1
      ensures Answers(t.arrived[k], Replies(t.log)[k]) && Earned(Replies(t.log)[k], s.interrupts)
    {
      if k < done {
        assert Replies(t.log)[k] == Replies(s.log)[k];
      }
    }
    assert Accounted(t);
  }

  lemma PopWorkKeeps(input: seq<Line>, s: State)
    requires Invariant(input, s) && Enabled(s, PopWork)
    ensures Invariant(input, Step(s, PopWork))
  {
    hide Replies, Scan, Answers, InterruptsHitLiveTurns, StartsBelongToTurns, Items;
    var rest := s.(pending := s.pending[1..]);
    var done := |Replies(s.log)|;
    assert Fits(s.arrived[done], s.pending[0]);
    forall j | 0 <= j < |rest.pending|
      ensures Fits(rest.arrived[done + 1 + j], rest.pending[j])
      ensures rest.pending[j] == s.pending[j + 1]
    {
      assert Fits(s.arrived[done + (j + 1)], s.pending[j + 1]);
    }
    match s.pending[0]
    case Answered(response) => ReplyKeeps(input, rest, response);
    case Deferred(request) => BeginKeeps(input, rest, request);
  }

  lemma ReadIdleKeeps(input: seq<Line>, s: State)
    requires Invariant(input, s) && Enabled(s, ReadIdle)
    ensures Invariant(input, Step(s, ReadIdle))
  {
    var item := ParseLine(s.unread[0]);
    var t := ReadLine(s);
    ReadLineKeepsItems(input, s);
    if !item.Blank? {
      assert forall k | 0 <= k < |s.arrived| :: t.arrived[k] == s.arrived[k];
      match item
      case Rejected(response) =>
        RejectedLines(s.unread[0]);
        ReplyKeeps(input, t, response);
      case Accepted(request) => BeginKeeps(input, t, request);
    }
  }

  /** Every step keeps the invariant. */
  lemma StepKeeps(input: seq<Line>, s: State, a: Action)
    requires Invariant(input, s) && Enabled(s, a)
    ensures Invariant(input, Step(s, a))
  {
    hide Invariant, Step;
    match a
    case PopWork => PopWorkKeeps(input, s);
    case ReadIdle => ReadIdleKeeps(input, s);
    case ReadDuring(delivered) => ReadDuringKeeps(input, s, delivered);
    case StopAtEof => EofKeeps(input, s, a);
    case EofDuring => EofKeeps(input, s, a);
    case Answer(_) => AnswerStepKeeps(input, s, a);
    case FailOpening(_) => AnswerStepKeeps(input, s, a);
    case AnswerTurn => AnswerStepKeeps(input, s, a);
    case _ => TurnStepKeeps(input, s, a);
  }

  ghost predicate Reachable(input: seq<Line>, s: State) {
    exists actions :: Runs(Initial(input), actions, s)
  }

  lemma {:induction false} RunKeeps(input: seq<Line>, s: State, actions: seq<Action>, t: State)
    requires Invariant(input, s) && Runs(s, actions, t)
    ensures Invariant(input, t)
    decreases |actions|
  {
    if actions != [] {
      StepKeeps(input, s, actions[0]);
      RunKeeps(input, Step(s, actions[0]), actions[1..], t);
    }
  }

  lemma ReachableInvariant(input: seq<Line>, s: State)
    requires Reachable(input, s)
    ensures Invariant(input, s)
  {
    var actions :| Runs(Initial(input), actions, s);
    InitialInvariant(input);
    RunKeeps(input, Initial(input), actions, s);
  }
}
