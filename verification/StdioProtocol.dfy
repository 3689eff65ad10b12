/** The stdio JSON-RPC loop as a step system: its requests, its state, its
    steps. The environment chooses when input is read during a turn and what
    the runtime answers. */
module StdioProtocol {
  import opened Wrappers

  // ---------------------------------------------------------------- requests

  /** A JSON-RPC id: the source answers a request without one with `null`. */
  datatype Id = NullId | IdValue(json: string)

  datatype Method =
    | ThreadMessage
    | ThreadRequest
    | ThreadInterrupt
    | Shutdown
    | Static(name: string)    // answered from constants
    | Served(name: string)    // answered by the runtime or the configuration
    | Unknown(name: string)

  function Classify(name: string): Method {
    if name == "thread/message" then ThreadMessage
    else if name == "thread/request" then ThreadRequest
    else if name == "thread/interrupt" then ThreadInterrupt
    else if name == "shutdown" then Shutdown
    else if name in {
      "healthz", "app/healthz", "capabilities", "thread/capabilities", "app/capabilities", "prompt/capabilities"
    } then
      Static(name)
    else if name in {
      "thread/create", "thread/start", "thread/resume", "thread/fork", "thread/list", "thread/read",
      "thread/set_name", "thread/set-name", "thread/goal/set", "thread/goal_set", "thread/goal-set",
      "thread/goal/get", "thread/goal_get", "thread/goal-get", "thread/goal/clear", "thread/goal_clear",
      "thread/goal-clear", "thread/archive", "thread/unarchive", "app/request", "app/config/get",
      "app/config/set", "app/config/unset", "app/config/list", "app/config/reload", "app/models",
      "app/thread_loaded_list", "app/thread-loaded-list", "prompt/request", "prompt/run"
    } then
      Served(name)
    else
      Unknown(name)
  }

  /** The parameters the loop itself looks at. */
  datatype Params = Params(threadId: Option<string>, input: Option<string>, kind: Option<string>)

  datatype Request = Request(id: Option<Id>, call: Method, params: Params)

  datatype RawRequest = RawRequest(version: Option<string>, id: Option<Id>, name: string, params: Params)

  /** A line of input: blank, not a request object (`json` is `None`), or one. */
  datatype Line = Line(blank: bool, json: Option<RawRequest>)

  // --------------------------------------------------------------- responses

  datatype Result =
    | Stopped
    | Interrupted(threadId: string, interrupted: bool)
    | TurnAccepted(threadId: string)
    | Data

  datatype Outcome = Ok(result: Result) | Err(code: int)

  datatype Response = Response(id: Id, outcome: Outcome)

  const PARSE_ERROR := -32700
  const INVALID_REQUEST := -32600
  const METHOD_NOT_FOUND := -32601
  const INVALID_PARAMS := -32602
  const INTERNAL := -32603

  function IdOf(id: Option<Id>): Id {
    if id.Some? then id.value else NullId
  }

  datatype Parsed = Blank | Rejected(response: Response) | Accepted(request: Request)

  function ParseLine(line: Line): Parsed {
    if line.blank then Blank
    else if line.json.None? then Rejected(Response(NullId, Err(PARSE_ERROR)))
    else
      var r := line.json.value;
      if r.version.Some? && r.version.value != "2.0" then Rejected(Response(IdOf(r.id), Err(INVALID_REQUEST)))
      else Accepted(Request(r.id, Classify(r.name), r.params))
  }

  /** The non-blank lines of the input, in order: what must be answered. */
  function Items(lines: seq<Line>): (items: seq<Parsed>)
    ensures forall i | 0 <= i < |items| :: !items[i].Blank?
  {
    if lines == [] then []
    else if ParseLine(lines[0]).Blank? then Items(lines[1..])
    else [ParseLine(lines[0])] + Items(lines[1..])
  }

  predicate CompleteMessage(params: Params) {
    params.threadId.Some? && params.input.Some?
  }

  /** The requests that run a streaming turn. */
  predicate IsTurn(request: Request) {
    || request.call.ThreadMessage?
    || (request.call.ThreadRequest? && request.params.kind == Some("message") && CompleteMessage(request.params))
  }

  predicate IsShutdown(item: Parsed) {
    item.Accepted? && item.request.call.Shutdown?
  }

  /** What a response to `request` may say. */
  predicate Plausible(request: Request, outcome: Outcome) {
    if IsTurn(request) then
      if CompleteMessage(request.params) then
        outcome == Ok(TurnAccepted(request.params.threadId.value)) || outcome == Err(INTERNAL)
      else
        outcome == Err(INVALID_PARAMS)
    else match request.call
      case Shutdown => outcome == Ok(Stopped)
      case ThreadInterrupt =>
        if request.params.threadId.Some? then
          || outcome == Ok(Interrupted(request.params.threadId.value, true))
          || outcome == Ok(Interrupted(request.params.threadId.value, false))
          || outcome == Err(INTERNAL)
        else
          outcome == Err(INVALID_PARAMS)
      case Static(_) => outcome == Ok(Data)
      case Unknown(_) => outcome == Err(METHOD_NOT_FOUND)
      case _ => outcome == Ok(Data) || outcome == Err(INVALID_PARAMS) || outcome == Err(INTERNAL)
  }

  /** `response` answers the line `item`: its id, and an outcome of its kind. */
  predicate Answers(item: Parsed, response: Response) {
    match item
    case Blank => false
    case Rejected(r) => response == r
    case Accepted(request) => response.id == IdOf(request.id) && Plausible(request, response.outcome)
  }

  // ------------------------------------------------------------------- state

  /** A turn as the runtime knows it. */
  datatype Turn = Turn(thread: string, turn: string)

  function ResponseId(t: Turn): string {
    t.thread + ":" + t.turn
  }

  datatype Output =
    | Start(id: string)
    | Delta(id: string, text: string)
    | End(id: string)
    | Reply(response: Response)

  /** Work deferred until the turn releases the writer. */
  datatype Work = Answered(response: Response) | Deferred(request: Request)

  /** Where the loop stands; a turn goes through the last five in order. */
  datatype Phase =
    | Idle
    | Done(atEof: bool)
    | Serving(request: Request)
    | Opening(request: Request)
    | Announced(request: Request, turn: Turn)
    | Streaming(request: Request, turn: Turn)
    | Closing(request: Request, turn: Turn, completed: bool)
    | Ended(request: Request, turn: Turn, completed: bool)

  /** An interrupt sent to the runtime when the log was `at` entries long. */
  datatype Interrupt = Interrupt(threadId: string, turn: Turn, at: nat)

  datatype State = State(
    unread: seq<Line>,
    stdinOpen: bool,
    pending: seq<Work>,
    phase: Phase,
    registry: map<string, Turn>,
    log: seq<Output>,
    // history, never read by a step
    arrived: seq<Parsed>,
    interrupts: set<Interrupt>
  )

  function Initial(input: seq<Line>): State {
    State(input, true, [], Idle, map[], [], [], {})
  }

  // ------------------------------------------------------------------- steps

  datatype Action =
    | PopWork
    | ReadIdle
    | StopAtEof
    | Answer(outcome: Outcome)
    | FailOpening(code: int)
    | Announce(turn: Turn)
    | Register
    | EmitDelta(text: string)
    | Unregister(completed: bool)
    | EmitEnd
    | AnswerTurn
    | ReadDuring(delivered: bool)
    | EofDuring

  /** The steps of a turn itself, and those that read input beside it. */
  predicate IsTurnAction(a: Action) {
    a.FailOpening? || a.Announce? || a.Register? || a.EmitDelta? || a.Unregister? || a.EmitEnd? || a.AnswerTurn?
  }

  predicate AnswersTurn(a: Action) {
    a.FailOpening? || a.AnswerTurn?
  }

  predicate IsReading(a: Action) {
    a.ReadDuring? || a.EofDuring?
  }

  /** What an idle loop does next: queued work first, then a line of input. */
  function NextWork(s: State): Action {
    if s.pending != [] then PopWork
    else if s.stdinOpen && s.unread != [] then ReadIdle
    else StopAtEof
  }

  predicate InTurn(phase: Phase) {
    phase.Opening? || phase.Announced? || phase.Streaming? || phase.Closing? || phase.Ended?
  }

  /** Only `thread/message` keeps reading input while its turn runs. */
  predicate ReadsInput(phase: Phase) {
    InTurn(phase) && phase.request.call.ThreadMessage?
  }

  function Begin(s: State, request: Request): State {
    s.(phase := if IsTurn(request) then Opening(request) else Serving(request))
  }

  function Write(s: State, out: Output): State {
    s.(log := s.log + [out])
  }

  /** The interrupts sent when every registered turn is interrupted. */
  function InterruptsOf(registry: map<string, Turn>, at: nat): set<Interrupt> {
    set t | t in registry :: Interrupt(t, registry[t], at)
  }

  /** `interrupt_stdio_turn`: a registered turn is sent an interrupt, which
      the runtime may refuse; any other thread has nothing to interrupt. */
  function InterruptOutcome(registry: map<string, Turn>, threadId: string, delivered: bool): Outcome {
    if threadId !in registry then Ok(Interrupted(threadId, false))
    else if delivered then Ok(Interrupted(threadId, true))
    else Err(INTERNAL)
  }

  function SendInterrupt(s: State, threadId: string): State {
    if threadId in s.registry then
      s.(interrupts := s.interrupts + {Interrupt(threadId, s.registry[threadId], |s.log|)})
    else s
  }

  function SendInterrupts(s: State): State {
    s.(interrupts := s.interrupts + InterruptsOf(s.registry, |s.log|))
  }

  function Push(s: State, work: Work): State {
    s.(pending := s.pending + [work])
  }

  /** Triage of a line that arrives while a turn holds the writer. */
  function HandleDuringTurn(s: State, item: Parsed, delivered: bool): State {
    match item
    case Blank => s
    case Rejected(response) => Push(s, Answered(response))
    case Accepted(request) =>
      match request.call
      case ThreadInterrupt =>
        (match request.params.threadId
         case None => Push(s, Answered(Response(IdOf(request.id), Err(INVALID_PARAMS))))
         case Some(t) =>
           var outcome := InterruptOutcome(s.registry, t, delivered);
           Push(SendInterrupt(s, t), Answered(Response(IdOf(request.id), outcome))))
      case Shutdown => Push(SendInterrupts(s), Deferred(request))
      case _ => Push(s, Deferred(request))
  }

  /** Takes the next line off the input and records it. */
  function ReadLine(s: State): State
    requires s.unread != []
  {
    var item := ParseLine(s.unread[0]);
    s.(unread := s.unread[1..], arrived := if item.Blank? then s.arrived else s.arrived + [item])
  }

  function HandleIdle(s: State, item: Parsed): State {
    match item
    case Blank => s
    case Rejected(response) => Write(s, Reply(response))
    case Accepted(request) => Begin(s, request)
  }

  /** The outcomes a queued or freshly read request may get when dispatched. */
  predicate Dispatches(s: State, request: Request, outcome: Outcome) {
    && Plausible(request, outcome)
    && (request.call.ThreadInterrupt? && request.params.threadId.Some? ==>
          exists delivered :: outcome == InterruptOutcome(s.registry, request.params.threadId.value, delivered))
  }

  predicate Enabled(s: State, a: Action) {
    match a
    case PopWork => s.phase.Idle? && s.pending != []
    case ReadIdle => s.phase.Idle? && s.pending == [] && s.stdinOpen && s.unread != []
    case StopAtEof => s.phase.Idle? && s.pending == [] && (!s.stdinOpen || s.unread == [])
    case Answer(outcome) => s.phase.Serving? && Dispatches(s, s.phase.request, outcome)
    case FailOpening(code) =>
      s.phase.Opening? && code == (if CompleteMessage(s.phase.request.params) then INTERNAL else INVALID_PARAMS)
    case Announce(_) => s.phase.Opening? && CompleteMessage(s.phase.request.params)
    case Register => s.phase.Announced? && CompleteMessage(s.phase.request.params)
    case EmitDelta(text) => s.phase.Streaming? && text != ""
    case Unregister(_) => s.phase.Streaming? && CompleteMessage(s.phase.request.params)
    case EmitEnd => s.phase.Closing?
    case AnswerTurn => s.phase.Ended? && CompleteMessage(s.phase.request.params)
    case ReadDuring(_) => ReadsInput(s.phase) && s.stdinOpen && s.unread != []
    case EofDuring => ReadsInput(s.phase) && s.stdinOpen && s.unread == []
  }

  function Step(s: State, a: Action): State
    requires Enabled(s, a)
  {
    match a
    case PopWork =>
      var rest := s.(pending := s.pending[1..]);
      (match s.pending[0]
       case Answered(response) => Write(rest, Reply(response))
       case Deferred(request) => Begin(rest, request))
    case ReadIdle => HandleIdle(ReadLine(s), ParseLine(s.unread[0]))
    case StopAtEof => s.(phase := Done(true))
    case Answer(outcome) =>
      var request := s.phase.request;
      var sent :=
        if request.call.Shutdown? then SendInterrupts(s)
        else if request.call.ThreadInterrupt? && request.params.threadId.Some? then
          SendInterrupt(s, request.params.threadId.value)
        else s;
      var next := if request.call.Shutdown? then Done(false) else Idle;
      Write(sent, Reply(Response(IdOf(request.id), outcome))).(phase := next)
    case FailOpening(code) =>
      Write(s, Reply(Response(IdOf(s.phase.request.id), Err(code)))).(phase := Idle)
    case Announce(turn) =>
      Write(s, Start(ResponseId(turn))).(phase := Announced(s.phase.request, turn))
    case Register =>
      s.(registry := s.registry[s.phase.request.params.threadId.value := s.phase.turn],
         phase := Streaming(s.phase.request, s.phase.turn))
    case EmitDelta(text) => Write(s, Delta(ResponseId(s.phase.turn), text))
    case Unregister(completed) =>
      s.(registry := s.registry - {s.phase.request.params.threadId.value},
         phase := Closing(s.phase.request, s.phase.turn, completed))
    case EmitEnd =>
      Write(s, End(ResponseId(s.phase.turn))).(phase := Ended(s.phase.request, s.phase.turn, s.phase.completed))
    case AnswerTurn =>
      var thread := s.phase.request.params.threadId.value;
      var outcome := if s.phase.completed then Ok(TurnAccepted(thread)) else Err(INTERNAL);
      Write(s, Reply(Response(IdOf(s.phase.request.id), outcome))).(phase := Idle)
    case ReadDuring(delivered) => HandleDuringTurn(ReadLine(s), ParseLine(s.unread[0]), delivered)
    case EofDuring => s.(stdinOpen := false)
  }

  /** `t` is where the actions lead from `s`. */
  ghost predicate Runs(s: State, actions: seq<Action>, t: State)
    decreases |actions|
  {
    if actions == [] then s == t
    else Enabled(s, actions[0]) && Runs(Step(s, actions[0]), actions[1..], t)
  }

  lemma {:induction false} RunsAppend(s: State, actions: seq<Action>, t: State, a: Action)
    requires Runs(s, actions, t) && Enabled(t, a)
    ensures Runs(s, actions + [a], Step(t, a))
    decreases |actions|
  {
    if actions == [] {
      assert [a][1..] == [];
      assert [] + [a] == [a];
    } else {
      RunsAppend(Step(s, actions[0]), actions[1..], t, a);
      assert (actions + [a])[1..] == actions[1..] + [a];
    }
  }

  lemma {:induction false} RunsCompose(s: State, a: seq<Action>, t: State, b: seq<Action>, u: State)
    requires Runs(s, a, t) && Runs(t, b, u)
    ensures Runs(s, a + b, u)
    decreases |a|
  {
    hide Enabled, Step;
    if a == [] {
      assert a + b == b;
    } else {
      assert (a + b)[1..] == a[1..] + b;
      RunsCompose(Step(s, a[0]), a[1..], t, b, u);
    }
  }
}
