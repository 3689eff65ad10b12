/** The promises of the stdio loop, for every input and every run. */
module StdioTheorems {
  import opened Wrappers
  import opened StdioProtocol
  import opened StdioSafety

  // ---------------------------------------------------- one answer per line

  /** In every reachable state the responses written answer a prefix of the
      non-blank lines, one each, in arrival order. */
  lemma RepliesAnswerAPrefix(input: seq<Line>, s: State)
    requires Reachable(input, s)
    ensures |Replies(s.log)| <= |Items(input)|
    ensures forall k | 0 <= k < |Replies(s.log)| :: Answers(Items(input)[k], Replies(s.log)[k])
  {
    ReachableInvariant(input, s);
    forall k | 0 <= k < |Replies(s.log)|
      ensures Answers(Items(input)[k], Replies(s.log)[k])
    {
      assert Items(input)[k] == s.arrived[k];
    }
  }

  /** How many lines a run answers before it ends: up to and with the first
      shutdown, or all of them. */
  function AnsweredCount(items: seq<Parsed>): (n: nat)
    ensures n <= |items|
  {
    if items == [] then 0
    else if IsShutdown(items[0]) then 1
    else 1 + AnsweredCount(items[1..])
  }

  lemma {:induction false} CountToShutdown(items: seq<Parsed>, n: nat)
    requires 0 < n <= |items| && IsShutdown(items[n - 1])
    requires forall k | 0 <= k < n - 1 :: !IsShutdown(items[k])
    ensures AnsweredCount(items) == n
  {
    if n > 1 {
      assert !IsShutdown(items[0]);
      forall k | 0 <= k < n - 2
        ensures !IsShutdown(items[1..][k])
      {
        assert items[1..][k] == items[k + 1];
      }
      CountToShutdown(items[1..], n - 1);
    }
  }

  lemma {:induction false} CountWithoutShutdown(items: seq<Parsed>)
    requires forall k | 0 <= k < |items| :: !IsShutdown(items[k])
    ensures AnsweredCount(items) == |items|
  {
    if items != [] {
      forall k | 0 <= k < |items| - 1
        ensures !IsShutdown(items[1..][k])
      {
        assert items[1..][k] == items[k + 1];
      }
      CountWithoutShutdown(items[1..]);
    }
  }

  /** A run that ends has answered exactly the lines up to the first shutdown,
      or every line when there is none: which lines are answered, in which
      order and under which ids depends on the input alone. */
  lemma FinishedRunAnswersAll(input: seq<Line>, s: State)
    requires Reachable(input, s) && s.phase.Done?
    ensures |Replies(s.log)| == AnsweredCount(Items(input))
    ensures forall k | 0 <= k < |Replies(s.log)| :: Answers(Items(input)[k], Replies(s.log)[k])
    ensures s.phase.atEof ==> AnsweredCount(Items(input)) == |Items(input)|
  {
    ReachableInvariant(input, s);
    RepliesAnswerAPrefix(input, s);
    var items := Items(input);
    var done := |Replies(s.log)|;
    assert forall k | 0 <= k < |s.arrived| :: items[k] == s.arrived[k];
    if s.phase.atEof {
      assert Items(s.unread) == [] && items == s.arrived;
      CountWithoutShutdown(items);
    } else {
      CountToShutdown(items, done);
    }
  }

  function ItemId(item: Parsed): Id
    requires !item.Blank?
  {
    if item.Rejected? then item.response.id else IdOf(item.request.id)
  }

  /** The ids a finished run of `input` answers, in order. */
  function ExpectedIds(input: seq<Line>): (ids: seq<Id>)
    ensures |ids| == AnsweredCount(Items(input))
  {
    var items := Items(input);
    seq(AnsweredCount(items), k requires 0 <= k < AnsweredCount(items) => ItemId(items[k]))
  }

  function ReplyIds(log: seq<Output>): (ids: seq<Id>)
    ensures |ids| == |Replies(log)|
  {
    seq(|Replies(log)|, k requires 0 <= k < |Replies(log)| => Replies(log)[k].id)
  }

  /** Schedule independence: any two finished runs of the same input write
      their responses under the same ids in the same order. */
  lemma ScheduleDoesNotReorder(input: seq<Line>, s: State, t: State)
    requires Reachable(input, s) && s.phase.Done? && Reachable(input, t) && t.phase.Done?
    ensures ReplyIds(s.log) == ExpectedIds(input) == ReplyIds(t.log)
  {
    FinishedRunAnswersAll(input, s);
    FinishedRunAnswersAll(input, t);
  }

  // ----------------------------------------------------------- turn brackets

  /** `log[i]` opens a response whose events run up to `e`: only its own deltas
      in between, then its end, then a JSON-RPC response at once. */
  ghost predicate Bracket(log: seq<Output>, i: nat, e: nat) {
    && i < e <= |log| && log[i].Start?
    && (forall k | i < k < e :: log[k].Delta? && log[k].id == log[i].id)
    && (e < |log| ==> log[e] == End(log[i].id))
    && (e + 1 < |log| ==> log[e + 1].Reply?)
  }

  lemma {:induction false} StartsAreBracketed(log: seq<Output>, i: nat) returns (e: nat)
    requires Scan(log) != Malformed && i < |log| && log[i].Start?
    ensures Bracket(log, i, e)
    ensures e == |log| ==> Scan(log) == Inside(log[i].id)
    ensures e == |log| - 1 ==> Scan(log) == AfterEnd
  {
    var n := |log| - 1;
    var before := log[..n];
    if i == n {
      e := |log|;
    } else {
      e := StartsAreBracketed(before, i);
      if e == n {
        if log[n].Delta? {
          e := n + 1;
        }
      }
    }
  }

  /** Every event of a turn lies behind the start it belongs to, with nothing
      but deltas in between. */
  lemma {:induction false} EventsFollowTheirStart(log: seq<Output>, j: nat) returns (i: nat)
    requires Scan(log) != Malformed && j < |log| && (log[j].Delta? || log[j].End?)
    ensures i < j && log[i] == Start(log[j].id) && forall k | i < k < j :: log[k].Delta?
    decreases |log|, j
  {
    var n := |log| - 1;
    var before := log[..n];
    if j < n {
      i := EventsFollowTheirStart(before, j);
    } else {
      assert Scan(before) == Inside(log[j].id);
      assert n > 0;
      if before[n - 1].Start? {
        i := n - 1;
      } else {
        assert before[n - 1].Delta?;
        i := EventsFollowTheirStart(before, n - 1);
      }
    }
  }

  /** In every run each response start is followed by its own deltas only,
      then by exactly one end with its id, then at once by the response to the
      turn request it was opened for; a finished run leaves none open. */
  lemma TurnsAreBracketed(input: seq<Line>, s: State, i: nat) returns (e: nat)
    requires Reachable(input, s) && i < |s.log| && s.log[i].Start?
    ensures Bracket(s.log, i, e)
    ensures s.phase.Done? ==> e + 1 < |s.log|
    ensures e + 1 < |s.log| ==>
              var n := |Replies(s.log[..i])|;
              && n < |Items(input)| && Items(input)[n].Accepted? && IsTurn(Items(input)[n].request)
              && Answers(Items(input)[n], s.log[e + 1].response)
  {
    ReachableInvariant(input, s);
    e := StartsAreBracketed(s.log, i);
    if e + 1 < |s.log| {
      var n := |Replies(s.log[..i])|;
      RepliesBeforeResponse(s.log, i, e);
      RepliesAnswerAPrefix(input, s);
      assert s.arrived[n] == Items(input)[n];
    }
  }

  lemma {:induction false} RepliesGrow(log: seq<Output>, m: nat)
    requires m <= |log|
    ensures Replies(log[..m]) <= Replies(log)
    decreases |log|
  {
    if m < |log| {
      var n := |log| - 1;
      assert log[..n][..m] == log[..m];
      RepliesGrow(log[..n], m);
    } else {
      assert log[..m] == log;
    }
  }

  lemma {:induction false} NoRepliesBetween(log: seq<Output>, i: nat, m: nat)
    requires i <= m <= |log| && forall k | i <= k < m :: !log[k].Reply?
    ensures Replies(log[..m]) == Replies(log[..i])
    decreases m
  {
    if i < m {
      assert log[..m][..m - 1] == log[..m - 1];
      NoRepliesBetween(log, i, m - 1);
    }
  }

  /** The response behind a bracket is the one whose number its start fixed. */
  lemma RepliesBeforeResponse(log: seq<Output>, i: nat, e: nat)
    requires Bracket(log, i, e) && e + 1 < |log|
    ensures |Replies(log[..i])| < |Replies(log)|
    ensures Replies(log)[|Replies(log[..i])|] == log[e + 1].response
  {
    NoRepliesBetween(log, i, e + 1);
    assert log[..e + 2][..e + 1] == log[..e + 1];
    assert Replies(log[..e + 2]) == Replies(log[..i]) + [log[e + 1].response];
    RepliesGrow(log, e + 2);
  }

  // -------------------------------------------------------------- interrupts

  /** The registry has at most one entry, and none while a request that came
      through the queue is dispatched. */
  lemma RegistryHoldsTheStreamingTurn(input: seq<Line>, s: State)
    requires Reachable(input, s)
    ensures |s.registry| <= 1
    ensures !s.phase.Streaming? ==> s.registry == map[]
    ensures s.phase.Streaming? ==>
              && s.phase.request.params.threadId.Some?
              && s.registry == map[s.phase.request.params.threadId.value := s.phase.turn]
  {
    ReachableInvariant(input, s);
  }

  /** An interrupt read during a turn answers `interrupted: true` exactly when
      its thread's turn is streaming at that step and the runtime took the
      interrupt; it then named that turn. */
  lemma InterruptReachesTheStreamingTurn(input: seq<Line>, s: State, delivered: bool, request: Request)
    requires Reachable(input, s) && Enabled(s, ReadDuring(delivered))
    requires ParseLine(s.unread[0]) == Accepted(request)
    requires request.call.ThreadInterrupt? && request.params.threadId.Some?
    ensures var thread := request.params.threadId.value;
            var t := Step(s, ReadDuring(delivered));
            var live := s.phase.Streaming? && s.phase.request.params.threadId == Some(thread);
            && t.pending != [] && t.pending[|t.pending| - 1].Answered?
            && t.log == s.log && t.phase == s.phase && t.registry == s.registry
            && var response := t.pending[|t.pending| - 1].response;
               && response.id == IdOf(request.id)
               && (SaysInterrupted(response) <==> live && delivered)
               && (!live ==> response.outcome == Ok(Interrupted(thread, false)))
               && (live ==> t.interrupts == s.interrupts + {Interrupt(thread, s.phase.turn, |s.log|)})
               && (!live ==> t.interrupts == s.interrupts)
  {
    ReachableInvariant(input, s);
  }

  /** A shutdown read during a turn interrupts that turn at once, if it is
      streaming, and then waits in the queue. */
  lemma ShutdownReachesTheStreamingTurn(input: seq<Line>, s: State, delivered: bool, request: Request)
    requires Reachable(input, s) && Enabled(s, ReadDuring(delivered))
    requires ParseLine(s.unread[0]) == Accepted(request) && request.call.Shutdown?
    ensures var t := Step(s, ReadDuring(delivered));
            && t.pending == s.pending + [Deferred(request)]
            && t.phase == s.phase && t.log == s.log && t.registry == s.registry
            && (s.phase.Streaming? ==>
                  && s.phase.request.params.threadId.Some?
                  && t.interrupts ==
                       s.interrupts + {Interrupt(s.phase.request.params.threadId.value, s.phase.turn, |s.log|)})
            && (!s.phase.Streaming? ==> t.interrupts == s.interrupts)
  {
    ReachableInvariant(input, s);
    var sent := InterruptsOf(s.registry, |s.log|);
    if s.phase.Streaming? {
      var thread := s.phase.request.params.threadId.value;
      assert s.registry == map[thread := s.phase.turn];
      assert thread in s.registry;
      assert sent == {Interrupt(thread, s.phase.turn, |s.log|)};
    } else {
      assert sent == {};
    }
  }

  /** Any other line read during a turn interrupts nothing: a blank one is
      dropped, a malformed one queues its error, a request queues. */
  lemma OtherLinesOnlyQueue(input: seq<Line>, s: State, delivered: bool)
    requires Reachable(input, s) && Enabled(s, ReadDuring(delivered))
    requires var item := ParseLine(s.unread[0]);
             item.Accepted? ==> !item.request.call.Shutdown? && !item.request.call.ThreadInterrupt?
    ensures var item := ParseLine(s.unread[0]);
            var t := Step(s, ReadDuring(delivered));
            && t.phase == s.phase && t.log == s.log && t.registry == s.registry && t.interrupts == s.interrupts
            && t.pending ==
                 match item
                 case Blank => s.pending
                 case Rejected(response) => s.pending + [Answered(response)]
                 case Accepted(request) => s.pending + [Deferred(request)]
  {
  }

  /** Input is read during a turn exactly if `thread/message` began it. */
  lemma OnlyMessagesRead(input: seq<Line>, s: State, delivered: bool)
    requires Reachable(input, s)
    ensures Enabled(s, ReadDuring(delivered)) <==>
              && s.stdinOpen && s.unread != []
              && !s.phase.Idle? && !s.phase.Done? && s.phase.request.call == ThreadMessage
  {
    ReachableInvariant(input, s);
  }

  /** An interrupt dispatched from the queue finds no turn, ever. */
  lemma QueuedInterruptFindsNothing(input: seq<Line>, s: State, outcome: Outcome)
    requires Reachable(input, s) && Enabled(s, Answer(outcome))
    requires s.phase.request.call.ThreadInterrupt? && s.phase.request.params.threadId.Some?
    ensures outcome == Ok(Interrupted(s.phase.request.params.threadId.value, false))
    ensures Step(s, Answer(outcome)).interrupts == s.interrupts
  {
    ReachableInvariant(input, s);
  }

  /** Every interrupt ever sent named the turn whose response was open then,
      and every `interrupted: true` written had its interrupt sent. */
  lemma InterruptsAreNeverStray(input: seq<Line>, s: State)
    requires Reachable(input, s)
    ensures forall i | i in s.interrupts :: i.at <= |s.log| && Scan(s.log[..i.at]) == Inside(ResponseId(i.turn))
    ensures forall k | 0 <= k < |Replies(s.log)| && SaysInterrupted(Replies(s.log)[k]) ::
              WasInterrupted(s.interrupts, Replies(s.log)[k].outcome.result.threadId)
  {
    ReachableInvariant(input, s);
    forall k | 0 <= k < |Replies(s.log)| && SaysInterrupted(Replies(s.log)[k])
      ensures WasInterrupted(s.interrupts, Replies(s.log)[k].outcome.result.threadId)
    {
      assert Earned(Replies(s.log)[k], s.interrupts);
    }
  }

  // ---------------------------------------------------------------- progress

  /** The loop is never stuck: until it is done, some step is possible. */
  lemma NeverStuck(input: seq<Line>, s: State) returns (a: Action)
    requires Reachable(input, s) && !s.phase.Done?
    ensures Enabled(s, a)
  {
    ReachableInvariant(input, s);
    match s.phase
    case Idle =>
      a := NextWork(s);
    case Serving(request) =>
      var outcome :=
        match request.call
        case Shutdown => Ok(Stopped)
        case ThreadInterrupt =>
          if request.params.threadId.None? then Err(INVALID_PARAMS)
          else Ok(Interrupted(request.params.threadId.value, false))
        case Unknown(_) => Err(METHOD_NOT_FOUND)
        case _ => Ok(Data);
      if request.call.ThreadInterrupt? && request.params.threadId.Some? {
        assert outcome == InterruptOutcome(s.registry, request.params.threadId.value, true);
      }
      a := Answer(outcome);
    case Opening(request) =>
      a := FailOpening(if CompleteMessage(request.params) then INTERNAL else INVALID_PARAMS);
    case Announced(_, _) => a := Register;
    case Streaming(_, _) => a := Unregister(true);
    case Closing(_, _, _) => a := EmitEnd;
    case Ended(_, _, _) => a := AnswerTurn;
  }

  function PhaseWork(phase: Phase): nat {
    match phase
    case Done(_) => 0
    case Idle => 1
    case Serving(_) => 2
    case Ended(_, _, _) => 2
    case Closing(_, _, _) => 3
    case Streaming(_, _) => 4
    case Announced(_, _) => 5
    case Opening(_) => 6
  }

  /** What is left to do, were the turns to stream nothing more. */
  function WorkLeft(s: State): nat {
    12 * |s.unread| + 9 * |s.pending| + PhaseWork(s.phase) + if s.stdinOpen then 1 else 0
  }

  lemma StepsUseUpWork(s: State, a: Action)
    requires Enabled(s, a)
    ensures if a.EmitDelta? then WorkLeft(Step(s, a)) == WorkLeft(s) else WorkLeft(Step(s, a)) < WorkLeft(s)
  {
    hide ParseLine, Plausible, InterruptOutcome, ResponseId;
  }

  function StepsWithoutDeltas(actions: seq<Action>): nat {
    if actions == [] then 0 else (if actions[0].EmitDelta? then 0 else 1) + StepsWithoutDeltas(actions[1..])
  }

  lemma {:induction false} RunUsesUpWork(s: State, actions: seq<Action>, t: State)
    requires Runs(s, actions, t)
    ensures StepsWithoutDeltas(actions) + WorkLeft(t) <= WorkLeft(s)
    decreases |actions|
  {
    if actions != [] {
      StepsUseUpWork(s, actions[0]);
      RunUsesUpWork(Step(s, actions[0]), actions[1..], t);
    }
  }

  /** Apart from the deltas its turns stream, a run takes a number of steps
      linear in its input: nothing but a runaway stream keeps it from ending. */
  lemma RunsAreShort(input: seq<Line>, actions: seq<Action>, s: State)
    requires Runs(Initial(input), actions, s)
    ensures StepsWithoutDeltas(actions) <= 12 * |input| + 2
  {
    RunUsesUpWork(Initial(input), actions, s);
  }
}
