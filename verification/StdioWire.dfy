/** The stdio loop's promises on the wire: which response a line of input gets,
    by its JSON alone. */
module StdioWire {
  import opened Wrappers
  import opened StdioProtocol
  import opened StdioSafety
  import opened StdioTheorems

  /** The lines that must be answered. */
  function NonBlank(input: seq<Line>): seq<Line> {
    if input == [] then [] else (if input[0].blank then [] else [input[0]]) + NonBlank(input[1..])
  }

  /** Methods answered from constants. */
  predicate IsStatic(name: string) {
    || name == "healthz" || name == "app/healthz" || name == "capabilities"
    || name == "thread/capabilities" || name == "app/capabilities" || name == "prompt/capabilities"
  }

  predicate IsThreadMethod(name: string) {
    || name == "thread/create" || name == "thread/start" || name == "thread/resume" || name == "thread/fork"
    || name == "thread/list" || name == "thread/read" || name == "thread/set_name" || name == "thread/set-name"
    || name == "thread/goal/set" || name == "thread/goal_set" || name == "thread/goal-set"
    || name == "thread/goal/get" || name == "thread/goal_get" || name == "thread/goal-get"
    || name == "thread/goal/clear" || name == "thread/goal_clear" || name == "thread/goal-clear"
    || name == "thread/archive" || name == "thread/unarchive"
  }

  predicate IsAppMethod(name: string) {
    || name == "app/request" || name == "app/config/get" || name == "app/config/set" || name == "app/config/unset"
    || name == "app/config/list" || name == "app/config/reload" || name == "app/models"
    || name == "app/thread_loaded_list" || name == "app/thread-loaded-list"
    || name == "prompt/request" || name == "prompt/run"
  }

  lemma StaticNames(name: string)
    ensures IsStatic(name) ==> Classify(name) == Static(name)
    ensures Classify(name).Static? ==> IsStatic(name)
  {
  }

  lemma ThreadNames(name: string)
    requires IsThreadMethod(name)
    ensures Classify(name) == Served(name)
  {
  }

  lemma AppNames(name: string)
    requires IsAppMethod(name)
    ensures Classify(name) == Served(name)
  {
  }

  lemma ServedNames(name: string)
    requires Classify(name).Served?
    ensures IsThreadMethod(name) || IsAppMethod(name)
  {
  }

  /** What each method name means. */
  lemma MethodsByName(name: string)
    ensures Classify(name) == ThreadMessage <==> name == "thread/message"
    ensures Classify(name) == ThreadRequest <==> name == "thread/request"
    ensures Classify(name) == ThreadInterrupt <==> name == "thread/interrupt"
    ensures Classify(name) == Shutdown <==> name == "shutdown"
    ensures Classify(name) == Static(name) <==> IsStatic(name)
    ensures Classify(name) == Served(name) <==> IsThreadMethod(name) || IsAppMethod(name)
    ensures Classify(name) == Unknown(name) <==>
              && name != "thread/message" && name != "thread/request" && name != "thread/interrupt"
              && name != "shutdown" && !IsStatic(name) && !IsThreadMethod(name) && !IsAppMethod(name)
  {
    hide IsStatic, IsThreadMethod, IsAppMethod;
    StaticNames(name);
    ClassifyIsOneOf(name);
    if IsThreadMethod(name) {
      ThreadNames(name);
    } else if IsAppMethod(name) {
      AppNames(name);
    } else if Classify(name).Served? {
      ServedNames(name);
    }
  }

  /** A line names no other JSON-RPC version, so that it is dispatched. */
  predicate IsCall(line: Line) {
    line.json.Some? && (line.json.value.version.Some? ==> line.json.value.version.value == "2.0")
  }

  predicate Calls(line: Line, name: string) {
    IsCall(line) && line.json.value.name == name
  }

  predicate HasThreadAndInput(params: Params) {
    params.threadId.Some? && params.input.Some?
  }

  predicate AsksForTurn(params: Params) {
    params.kind == Some("message") && HasThreadAndInput(params)
  }

  /** What a dispatched method may answer. */
  predicate MayAnswer(name: string, params: Params, outcome: Outcome) {
    var thread := if params.threadId.Some? then params.threadId.value else "";
    if name == "shutdown" then outcome == Ok(Stopped)
    else if name == "thread/interrupt" then
      if params.threadId.None? then outcome == Err(-32602)
      else
        || outcome == Ok(Interrupted(thread, true)) || outcome == Ok(Interrupted(thread, false))
        || outcome == Err(-32603)
    else if name == "thread/message" && !HasThreadAndInput(params) then outcome == Err(-32602)
    else if name == "thread/message" || (name == "thread/request" && AsksForTurn(params)) then
      outcome == Ok(TurnAccepted(thread)) || outcome == Err(-32603)
    else if IsStatic(name) then outcome == Ok(Data)
    else if name == "thread/request" || IsThreadMethod(name) || IsAppMethod(name) then
      outcome == Ok(Data) || outcome == Err(-32602) || outcome == Err(-32603)
    else outcome == Err(-32601)
  }

  /** The response a line gets: `null` as id where it has none, a parse error
      for what is no request, an invalid request for another version. */
  predicate RespondsTo(line: Line, response: Response) {
    match line.json
    case None => response == Response(NullId, Err(-32700))
    case Some(r) =>
      && response.id == (if r.id.Some? then r.id.value else NullId)
      && if IsCall(line) then MayAnswer(r.name, r.params, response.outcome) else response.outcome == Err(-32600)
  }

  lemma AnsweredCallMayAnswer(name: string, params: Params, id: Option<Id>, outcome: Outcome)
    requires Plausible(Request(id, Classify(name), params), outcome)
    ensures MayAnswer(name, params, outcome)
  {
    hide Classify, IsStatic, IsThreadMethod, IsAppMethod;
    MethodsByName(name);
    ClassifyIsOneOf(name);
    StaticIsNothingElse(name);
  }

  lemma ClassifyIsOneOf(name: string)
    ensures match Classify(name)
            case Static(n) => n == name
            case Served(n) => n == name
            case Unknown(n) => n == name
            case _ => true
  {
  }

  lemma StaticIsNothingElse(name: string)
    ensures name == "shutdown" || name == "thread/interrupt" || name == "thread/message" || name == "thread/request" ==>
              !IsStatic(name)
  {
  }

  lemma AnswersRespond(line: Line, response: Response)
    requires !line.blank && Answers(ParseLine(line), response)
    ensures RespondsTo(line, response)
  {
    hide Classify, Plausible, MayAnswer;
    if IsCall(line) {
      var r := line.json.value;
      AnsweredCallMayAnswer(r.name, r.params, r.id, response.outcome);
    }
  }

  lemma {:induction false} ItemsAreLines(input: seq<Line>)
    ensures |Items(input)| == |NonBlank(input)|
    ensures forall k | 0 <= k < |NonBlank(input)| ::
              !NonBlank(input)[k].blank && Items(input)[k] == ParseLine(NonBlank(input)[k])
  {
    hide Classify;
    if input != [] {
      ItemsAreLines(input[1..]);
    }
  }

  /** In every run the responses written so far answer the first non-blank
      lines, one each, in order, each as its own JSON demands. */
  lemma RunsRespondInOrder(input: seq<Line>, s: State)
    requires Reachable(input, s)
    ensures |Replies(s.log)| <= |NonBlank(input)|
    ensures forall k | 0 <= k < |Replies(s.log)| :: RespondsTo(NonBlank(input)[k], Replies(s.log)[k])
  {
    hide ParseLine, Answers, RespondsTo;
    RepliesAnswerAPrefix(input, s);
    ItemsAreLines(input);
    forall k | 0 <= k < |Replies(s.log)|
      ensures RespondsTo(NonBlank(input)[k], Replies(s.log)[k])
    {
      AnswersRespond(NonBlank(input)[k], Replies(s.log)[k]);
    }
  }

  lemma ShutdownByName(line: Line)
    requires !line.blank
    ensures IsShutdown(ParseLine(line)) <==> Calls(line, "shutdown")
  {
    hide Classify;
    if IsCall(line) {
      MethodsByName(line.json.value.name);
    }
  }

  /** A run that ends has answered every non-blank line, none of them a call of
      `shutdown`, or every one up to the first such call. */
  lemma FinishedRunsRespondToAll(input: seq<Line>, s: State)
    requires Reachable(input, s) && s.phase.Done?
    ensures var lines, done := NonBlank(input), |Replies(s.log)|;
            && done <= |lines|
            && (s.phase.atEof ==> done == |lines| && forall k | 0 <= k < done :: !Calls(lines[k], "shutdown"))
            && (!s.phase.atEof ==>
                  && done > 0 && Calls(lines[done - 1], "shutdown")
                  && forall k | 0 <= k < done - 1 :: !Calls(lines[k], "shutdown"))
  {
    hide ParseLine, Calls;
    ReachableInvariant(input, s);
    ItemsAreLines(input);
    FinishedRunAnswersAll(input, s);
    var lines, done := NonBlank(input), |Replies(s.log)|;
    forall k | 0 <= k < done
      ensures IsShutdown(s.arrived[k]) <==> Calls(lines[k], "shutdown")
    {
      assert Items(input)[k] == s.arrived[k];
      ShutdownByName(lines[k]);
    }
    if s.phase.atEof {
      assert Items(s.unread) == [];
    }
  }

  /** A response that opens belongs to a `thread/message`, or to a
      `thread/request` of kind `message`, with thread and input. */
  lemma StartsBelongToMessages(input: seq<Line>, s: State, i: nat)
    requires Reachable(input, s) && i < |s.log| && s.log[i].Start?
    ensures var lines, n := NonBlank(input), |Replies(s.log[..i])|;
            && n < |lines| && IsCall(lines[n])
            && var r := lines[n].json.value;
               r.name == "thread/message" || (r.name == "thread/request" && r.params.kind == Some("message"))
  {
    hide Classify, Plausible;
    ReachableInvariant(input, s);
    ItemsAreLines(input);
    var n := |Replies(s.log[..i])|;
    assert Items(input)[n] == s.arrived[n];
    var line := NonBlank(input)[n];
    MethodsByName(line.json.value.name);
  }

  // ------------------------------------------------------------ response ids

  /** Response ids tell turns apart as long as thread ids hold no colon. */
  lemma ResponseIdsTellTurnsApart(a: Turn, b: Turn)
    requires ':' !in a.thread && ':' !in b.thread
    ensures ResponseId(a) == ResponseId(b) <==> a == b
  {
    var x, y := ResponseId(a), ResponseId(b);
    assert x[|a.thread|] == ':' && y[|b.thread|] == ':';
    assert forall k | 0 <= k < |a.thread| :: x[k] in a.thread;
    assert forall k | 0 <= k < |b.thread| :: y[k] in b.thread;
    if x == y {
      assert |a.thread| == |b.thread|;
      assert a.thread == x[..|a.thread|] && b.thread == y[..|b.thread|];
      assert a.turn == x[|a.thread| + 1..] && b.turn == y[|b.thread| + 1..];
    }
  }
}
