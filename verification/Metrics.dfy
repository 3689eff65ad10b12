/** The usage rollup: counters that three kinds of log feed, and what the
    counters mean for the records that were read. */
module Metrics {
  import opened Wrappers

  // ------------------------------------------------------------------ records

  /** What one record adds to the rollup. An audit line or a session reports a
      `Judged` call, which is also counted as a call; a runtime event reports
      the start and the end of a call apart from each other. */
  datatype Mark =
    | AutoApproved(tool: string)
    | Prompted(tool: string)
    | Judged(tool: string, elapsed: Option<nat>, ok: bool)
    | Started(tool: string)
    | Ended(tool: string, elapsed: Option<nat>, ok: bool)
    | Compacted(ratio: Option<real>)
    | Spawned
    | AgentDone(ok: bool)
    | Intervened(category: string)
    | CredentialSaved
    | CredentialCleared

  /** An event with the fields its reader looks up; `None` where the field is
      missing or has another type. */
  datatype Event = Event(
    ts: Option<int>, name: string, tool: Option<string>, elapsed: Option<nat>,
    success: Option<bool>, ratio: Option<real>, category: Option<string>)

  datatype Line = Blank | Malformed | Entry(event: Event)

  function OrElse<T>(o: Option<T>, default: T): T {
    if o.Some? then o.value else default
  }

  function Opt<T>(o: Option<T>): seq<T> {
    if o.Some? then [o.value] else []
  }

  predicate IsCapacity(name: string) {
    "capacity." <= name
  }

  /** Every leading `capacity.` goes, not only the first. */
  function TrimCapacity(name: string): string {
    if IsCapacity(name) then TrimCapacity(name[|"capacity."|..]) else name
  }

  function AuditMark(e: Event): Option<Mark> {
    var tool := OrElse(e.tool, "unknown");
    if e.name == "tool.approval.auto_approve" then Some(AutoApproved(tool))
    else if e.name == "tool.approval.prompted" then Some(Prompted(tool))
    else if e.name == "tool.completed" || e.name == "tool.result" then
      Some(Judged(tool, e.elapsed, OrElse(e.success, true)))
    else if e.name == "compaction.completed" || e.name == "context.compaction" then Some(Compacted(e.ratio))
    else if e.name == "agent.spawn" || e.name == "subagent.spawned" then Some(Spawned)
    else if e.name == "agent.completed" || e.name == "subagent.completed" then
      Some(AgentDone(OrElse(e.success, true)))
    else if IsCapacity(e.name) then Some(Intervened(OrElse(e.category, TrimCapacity(e.name))))
    else if e.name == "credential.save" then Some(CredentialSaved)
    else if e.name == "credential.clear" then Some(CredentialCleared)
    else None
  }

  function RuntimeMark(e: Event): Option<Mark> {
    var tool := OrElse(e.tool, "unknown");
    if e.name == "tool.started" then Some(Started(tool))
    else if e.name == "tool.completed" then Some(Ended(tool, e.elapsed, true))
    else if e.name == "tool.failed" then Some(Ended(tool, None, false))
    else if e.name == "compaction.completed" then Some(Compacted(e.ratio))
    else if e.name == "agent.spawned" || e.name == "subagent.spawned" then Some(Spawned)
    else if e.name == "agent.completed" || e.name == "subagent.completed" then
      Some(AgentDone(OrElse(e.success, true)))
    else if IsCapacity(e.name) then Some(Intervened(OrElse(e.category, TrimCapacity(e.name))))
    else None
  }

  // ---------------------------------------------------- what events stand for

  predicate ToolIs(e: Event, t: string) {
    match e.tool case Some(name) => t == name case None => t == "unknown"
  }

  /** Anything but an explicit failure is a success. */
  predicate Succeeds(e: Event) {
    e.success != Some(false)
  }

  function Repeated(n: nat): string {
    if n == 0 then "" else "capacity." + Repeated(n - 1)
  }

  /** The category given, or the event's name without its leading `capacity.`s. */
  ghost predicate CategoryIs(e: Event, c: string) {
    match e.category
    case Some(category) => c == category
    case None => !IsCapacity(c) && exists n: nat :: e.name == Repeated(n) + c
  }

  lemma {:induction false} TrimCapacityMeaning(name: string) returns (n: nat)
    ensures name == Repeated(n) + TrimCapacity(name) && !IsCapacity(TrimCapacity(name))
    decreases |name|
  {
    if IsCapacity(name) {
      var prefix, rest := name[..|"capacity."|], name[|"capacity."|..];
      var k := TrimCapacityMeaning(rest);
      n := k + 1;
      assert Repeated(n) == prefix + Repeated(k) && TrimCapacity(name) == TrimCapacity(rest);
      Regroup(prefix, Repeated(k), TrimCapacity(rest));
      assert name == prefix + rest;
    } else {
      n := 0;
      assert Repeated(0) + name == name;
    }
  }

  lemma Regroup(a: string, b: string, c: string)
    ensures (a + b) + c == a + (b + c)
  {
  }

  lemma {:induction false} TrimRepeated(n: nat, c: string)
    requires !IsCapacity(c)
    ensures TrimCapacity(Repeated(n) + c) == c
  {
    var name := Repeated(n) + c;
    if n == 0 {
      assert name == c;
    } else {
      assert name == "capacity." + (Repeated(n - 1) + c);
      assert name[|"capacity."|..] == Repeated(n - 1) + c;
      TrimRepeated(n - 1, c);
    }
  }

  lemma CategoryMeaning(e: Event, c: string)
    ensures CategoryIs(e, c) <==> c == OrElse(e.category, TrimCapacity(e.name))
  {
    var n := TrimCapacityMeaning(e.name);
    if e.category.None? && CategoryIs(e, c) {
      var k: nat :| e.name == Repeated(k) + c;
      TrimRepeated(k, c);
    }
  }

  predicate IsOutcomeName(name: string) {
    name == "tool.completed" || name == "tool.result"
  }

  predicate IsAgentEnd(name: string) {
    name == "agent.completed" || name == "subagent.completed"
  }

  /** The record an audit event stands for; any other name stands for none. */
  ghost predicate IsAuditMark(e: Event, m: Mark) {
    match m
    case AutoApproved(t) => e.name == "tool.approval.auto_approve" && ToolIs(e, t)
    case Prompted(t) => e.name == "tool.approval.prompted" && ToolIs(e, t)
    case Judged(t, elapsed, ok) => IsOutcomeName(e.name) && ToolIs(e, t) && elapsed == e.elapsed && ok == Succeeds(e)
    case Compacted(ratio) => (e.name == "compaction.completed" || e.name == "context.compaction") && ratio == e.ratio
    case Spawned => e.name == "agent.spawn" || e.name == "subagent.spawned"
    case AgentDone(ok) => IsAgentEnd(e.name) && ok == Succeeds(e)
    case Intervened(c) => "capacity." <= e.name && CategoryIs(e, c)
    case CredentialSaved => e.name == "credential.save"
    case CredentialCleared => e.name == "credential.clear"
    case Started(_) => false
    case Ended(_, _, _) => false
  }

  /** The record a runtime event stands for. */
  ghost predicate IsRuntimeMark(e: Event, m: Mark) {
    match m
    case Started(t) => e.name == "tool.started" && ToolIs(e, t)
    case Ended(t, elapsed, ok) =>
      && ToolIs(e, t)
      && (if ok then e.name == "tool.completed" && elapsed == e.elapsed else e.name == "tool.failed" && elapsed.None?)
    case Compacted(ratio) => e.name == "compaction.completed" && ratio == e.ratio
    case Spawned => e.name == "agent.spawned" || e.name == "subagent.spawned"
    case AgentDone(ok) => IsAgentEnd(e.name) && ok == Succeeds(e)
    case Intervened(c) => "capacity." <= e.name && CategoryIs(e, c)
    case _ => false
  }

  /** The first letters that tell the capacity events from all others. */
  lemma CapacityIsApart(name: string)
    requires IsCapacity(name)
    ensures name[0] == 'c' && name[1] == 'a'
  {
    assert name[0] == "capacity."[0] && name[1] == "capacity."[1];
  }

  lemma AuditMarkIsOne(e: Event, m: Mark)
    requires AuditMark(e) == Some(m)
    ensures IsAuditMark(e, m)
  {
    hide TrimCapacity, CategoryIs, IsCapacity;
    CapacityByPrefix(e.name);
    if m.Intervened? {
      CategoryMeaning(e, m.category);
    }
  }

  lemma OneAuditMark(e: Event, m: Mark)
    requires IsAuditMark(e, m)
    ensures AuditMark(e) == Some(m)
  {
    hide TrimCapacity, CategoryIs, IsCapacity;
    if IsCapacity(e.name) {
      CapacityIsApart(e.name);
    }
    if m.Intervened? {
      CapacityByPrefix(e.name);
      CategoryMeaning(e, m.category);
    }
  }

  lemma AuditMarkMeaning(e: Event, m: Mark)
    ensures IsAuditMark(e, m) <==> AuditMark(e) == Some(m)
  {
    hide AuditMark, IsAuditMark;
    if IsAuditMark(e, m) {
      OneAuditMark(e, m);
    }
    if AuditMark(e) == Some(m) {
      AuditMarkIsOne(e, m);
    }
  }

  lemma CapacityByPrefix(name: string)
    ensures IsCapacity(name) <==> "capacity." <= name
  {
  }

  lemma RuntimeMarkMeaning(e: Event, m: Mark)
    ensures IsRuntimeMark(e, m) <==> RuntimeMark(e) == Some(m)
  {
    hide TrimCapacity, CategoryIs, IsCapacity;
    if IsCapacity(e.name) {
      CapacityIsApart(e.name);
    }
    CapacityByPrefix(e.name);
    if m.Intervened? {
      CategoryMeaning(e, m.category);
    }
  }

  datatype Source = AuditLog | RuntimeLog

  function MarkOf(source: Source, e: Event): Option<Mark> {
    match source
    case AuditLog => AuditMark(e)
    case RuntimeLog => RuntimeMark(e)
  }

  predicate CutOff(ts: Option<int>, since: Option<int>) {
    since.Some? && ts.Some? && ts.value < since.value
  }

  /** Lines that are neither blank nor malformed nor too old. */
  predicate Kept(line: Line, since: Option<int>) {
    line.Entry? && !CutOff(line.event.ts, since)
  }

  /** What was read: the records, the time stamps, and how many lines gave
      anything. */
  datatype History = History(marks: seq<Mark>, times: seq<int>, lines: nat, parsed: nat)

  const NOTHING_READ := History([], [], 0, 0)

  function WithMark(h: History, m: Option<Mark>): History {
    h.(marks := h.marks + Opt(m))
  }

  function WithTime(h: History, t: Option<int>): History {
    h.(times := h.times + Opt(t))
  }

  function WithLine(h: History, source: Source, line: Line, since: Option<int>): History {
    var counted := h.(lines := h.lines + 1);
    if !Kept(line, since) then counted
    else
      WithMark(WithTime(counted.(parsed := h.parsed + 1), line.event.ts), MarkOf(source, line.event))
  }

  function WithLog(h: History, source: Source, lines: seq<Line>, since: Option<int>): History {
    if lines == [] then h
    else WithLine(WithLog(h, source, lines[..|lines| - 1], since), source, lines[|lines| - 1], since)
  }

  /** The events of a log that are neither blank nor malformed nor too old. */
  function KeptEvents(lines: seq<Line>, since: Option<int>): seq<Event> {
    if lines == [] then []
    else
      var n := |lines| - 1;
      var kept := KeptEvents(lines[..n], since);
      match lines[n]
      case Entry(e) => if since.Some? && e.ts.Some? && e.ts.value < since.value then kept else kept + [e]
      case _ => kept
  }

  function MarksOf(source: Source, events: seq<Event>): seq<Mark> {
    if events == [] then []
    else MarksOf(source, events[..|events| - 1]) + Opt(MarkOf(source, events[|events| - 1]))
  }

  function TimesOf(events: seq<Event>): seq<int> {
    if events == [] then [] else TimesOf(events[..|events| - 1]) + Opt(events[|events| - 1].ts)
  }

  function WithEvents(h: History, source: Source, lines: nat, events: seq<Event>): History {
    History(h.marks + MarksOf(source, events), h.times + TimesOf(events), h.lines + lines, h.parsed + |events|)
  }

  lemma OneMoreEvent(source: Source, events: seq<Event>, e: Event)
    ensures MarksOf(source, events + [e]) == MarksOf(source, events) + Opt(MarkOf(source, e))
    ensures TimesOf(events + [e]) == TimesOf(events) + Opt(e.ts)
  {
    hide MarkOf;
    assert (events + [e])[..|events|] == events;
  }

  lemma OneMoreLine(lines: seq<Line>, line: Line, since: Option<int>)
    ensures KeptEvents(lines + [line], since) ==
            if Kept(line, since) then KeptEvents(lines, since) + [line.event] else KeptEvents(lines, since)
  {
    assert (lines + [line])[..|lines|] == lines;
  }

  lemma LineAddsItsEvent(h: History, source: Source, read: seq<Line>, line: Line, since: Option<int>)
    ensures WithLine(WithEvents(h, source, |read|, KeptEvents(read, since)), source, line, since) ==
            WithEvents(h, source, |read| + 1, KeptEvents(read + [line], since))
  {
    hide MarkOf, MarksOf, TimesOf, KeptEvents, Opt;
    OneMoreLine(read, line, since);
    if Kept(line, since) {
      OneMoreEvent(source, KeptEvents(read, since), line.event);
    }
  }

  /** Reading a log counts every line, parses exactly the kept ones, and adds
      their records and time stamps in order. */
  lemma {:induction false} LogAddsItsEvents(h: History, source: Source, lines: seq<Line>, since: Option<int>)
    ensures WithLog(h, source, lines, since) == WithEvents(h, source, |lines|, KeptEvents(lines, since))
  {
    hide MarkOf, WithLine;
    if lines == [] {
      assert h.marks + [] == h.marks && h.times + [] == h.times;
    } else {
      var n := |lines| - 1;
      LogAddsItsEvents(h, source, lines[..n], since);
      assert lines[..n] + [lines[n]] == lines;
      LineAddsItsEvent(h, source, lines[..n], lines[n], since);
    }
  }

  // ------------------------------------------------- what the counters count

  datatype Question =
    | About(t: string) | CallsOf(t: string) | AutoOf(t: string) | PromptedOf(t: string)
    | SuccessesOf(t: string) | FailuresOf(t: string) | TimedOf(t: string)
    | StartsOf(t: string) | EndsOf(t: string)
    | AllCalls | Compactions | Ratios | Spawns | AgentsDone(good: bool)
    | Interventions | InCategory(c: string) | Saves | Clears

  predicate ConcernsTool(m: Mark) {
    m.AutoApproved? || m.Prompted? || m.Judged? || m.Started? || m.Ended?
  }

  predicate IsCall(m: Mark) {
    m.AutoApproved? || m.Prompted? || m.Judged? || m.Started?
  }

  predicate IsVerdict(m: Mark) {
    m.Judged? || m.Ended?
  }

  predicate Answers(m: Mark, q: Question) {
    match q
    case About(t) => ConcernsTool(m) && m.tool == t
    case CallsOf(t) => IsCall(m) && m.tool == t
    case AutoOf(t) => m == AutoApproved(t)
    case PromptedOf(t) => m == Prompted(t)
    case SuccessesOf(t) => IsVerdict(m) && m.tool == t && m.ok
    case FailuresOf(t) => IsVerdict(m) && m.tool == t && !m.ok
    case TimedOf(t) => IsVerdict(m) && m.tool == t && m.elapsed.Some?
    case StartsOf(t) => m == Started(t)
    case EndsOf(t) => m.Ended? && m.tool == t
    case AllCalls => IsCall(m)
    case Compactions => m.Compacted?
    case Ratios => m.Compacted? && m.ratio.Some?
    case Spawns => m.Spawned?
    case AgentsDone(good) => m.AgentDone? && m.ok == good
    case Interventions => m.Intervened?
    case InCategory(c) => m == Intervened(c)
    case Saves => m.CredentialSaved?
    case Clears => m.CredentialCleared?
  }

  function Count(q: Question, marks: seq<Mark>): nat {
    if marks == [] then 0
    else
      var n := |marks| - 1;
      Count(q, marks[..n]) + if Answers(marks[n], q) then 1 else 0
  }

  function ElapsedIn(marks: seq<Mark>, t: string): nat {
    if marks == [] then 0
    else
      var n := |marks| - 1;
      ElapsedIn(marks[..n], t) + if Answers(marks[n], TimedOf(t)) then marks[n].elapsed.value else 0
  }

  function RatiosIn(marks: seq<Mark>): real {
    if marks == [] then 0.0
    else
      var n := |marks| - 1;
      RatiosIn(marks[..n]) + if Answers(marks[n], Ratios) then marks[n].ratio.value else 0.0
  }

  datatype ToolStats = ToolStats(
    calls: nat, autoApproved: nat, prompted: nat, totalElapsedMs: nat,
    elapsedSamples: nat, successes: nat, failures: nat)

  const NO_STATS := ToolStats(0, 0, 0, 0, 0, 0, 0)

  function StatsOf(marks: seq<Mark>, t: string): ToolStats {
    ToolStats(
      Count(CallsOf(t), marks), Count(AutoOf(t), marks), Count(PromptedOf(t), marks),
      ElapsedIn(marks, t), Count(TimedOf(t), marks),
      Count(SuccessesOf(t), marks), Count(FailuresOf(t), marks))
  }

  lemma CountSnoc(q: Question, marks: seq<Mark>, m: Mark)
    ensures Count(q, marks + [m]) == Count(q, marks) + if Answers(m, q) then 1 else 0
  {
    assert (marks + [m])[..|marks|] == marks;
  }

  lemma {:induction false} CountAppends(q: Question, a: seq<Mark>, b: seq<Mark>)
    ensures Count(q, a + b) == Count(q, a) + Count(q, b)
  {
    if b == [] {
      assert a + b == a;
    } else {
      var n := |b| - 1;
      assert a + b == (a + b[..n]) + [b[n]];
      CountSnoc(q, a + b[..n], b[n]);
      CountAppends(q, a, b[..n]);
    }
  }

  lemma CountWithout(q: Question, marks: seq<Mark>, i: nat)
    requires i < |marks|
    ensures Count(q, marks) == Count(q, marks[..i] + marks[i + 1..]) + if Answers(marks[i], q) then 1 else 0
  {
    var before, after := marks[..i], marks[i + 1..];
    assert marks == (before + [marks[i]]) + after;
    CountAppends(q, before + [marks[i]], after);
    CountAppends(q, before, after);
    CountSnoc(q, before, marks[i]);
  }

  lemma WithoutOne(a: seq<Mark>, b: seq<Mark>, i: nat)
    requires a != [] && i < |b| && b[i] == a[|a| - 1] && multiset(a) == multiset(b)
    ensures multiset(a[..|a| - 1]) == multiset(b[..i] + b[i + 1..])
  {
    var init, before, after := a[..|a| - 1], b[..i], b[i + 1..];
    assert a == init + [b[i]] && b == before + [b[i]] + after;
    Cancel(multiset(init), multiset(before) + multiset(after), multiset{b[i]});
  }

  lemma Cancel(a: multiset<Mark>, b: multiset<Mark>, one: multiset<Mark>)
    requires a + one == b + one
    ensures a == b
  {
    assert a == (a + one) - one;
    assert b == (b + one) - one;
  }

  /** Only which records were read matters, not their order: directories are
      listed in no particular order. */
  lemma {:induction false} CountingIsOrderless(q: Question, a: seq<Mark>, b: seq<Mark>)
    requires multiset(a) == multiset(b)
    ensures Count(q, a) == Count(q, b)
    decreases |a|
  {
    if a == [] {
      assert |multiset(b)| == 0;
    } else {
      assert a[|a| - 1] in multiset(b);
      var i :| 0 <= i < |b| && b[i] == a[|a| - 1];
      WithoutOne(a, b, i);
      CountingIsOrderless(q, a[..|a| - 1], b[..i] + b[i + 1..]);
      CountWithout(q, b, i);
    }
  }

  // ---------------------------------------------------- sums over a hash map

  ghost function Sum(m: map<string, nat>): nat
    decreases |m|
  {
    if m == map[] then 0
    else
      var k :| k in m;
      assert |m - {k}| < |m| by { MapShrinks(m, k); }
      m[k] + Sum(m - {k})
  }

  lemma MapShrinks(m: map<string, nat>, k: string)
    requires k in m
    ensures |m - {k}| < |m|
  {
    assert (m - {k}).Keys == m.Keys - {k};
  }

  /** The order of summation does not matter. */
  lemma {:induction false} SumPicks(m: map<string, nat>, k: string)
    requires k in m
    ensures Sum(m) == m[k] + Sum(m - {k})
    decreases |m|
  {
    var first :| first in m && Sum(m) == m[first] + Sum(m - {first});
    if first != k {
      MapShrinks(m, k);
      MapShrinks(m, first);
      SumPicks(m - {first}, k);
      SumPicks(m - {k}, first);
      assert m - {first} - {k} == m - {k} - {first};
    }
  }

  function Bump(m: map<string, nat>, k: string, more: nat): map<string, nat> {
    m[k := more + if k in m then m[k] else 0]
  }

  lemma SumBumps(m: map<string, nat>, k: string, more: nat)
    ensures Sum(Bump(m, k, more)) == Sum(m) + more
  {
    var bumped := Bump(m, k, more);
    SumPicks(bumped, k);
    assert bumped - {k} == m - {k};
    if k in m {
      SumPicks(m, k);
    } else {
      assert m - {k} == m;
    }
  }

  datatype Grouping = ByTool | ByCategory

  function GroupOf(g: Grouping, m: Mark): Option<string> {
    match g
    case ByTool => if ConcernsTool(m) then Some(m.tool) else None
    case ByCategory => if m.Intervened? then Some(m.category) else None
  }

  function InGroup(g: Grouping, k: string): Question {
    if g.ByTool? then CallsOf(k) else InCategory(k)
  }

  function Everywhere(g: Grouping): Question {
    if g.ByTool? then AllCalls else Interventions
  }

  function KnownTo(g: Grouping, k: string): Question {
    if g.ByTool? then About(k) else InCategory(k)
  }

  function Tally(g: Grouping, marks: seq<Mark>): map<string, nat> {
    if marks == [] then map[]
    else
      var n := |marks| - 1;
      var m := Tally(g, marks[..n]);
      match GroupOf(g, marks[n])
      case None => m
      case Some(k) => Bump(m, k, if Answers(marks[n], Everywhere(g)) then 1 else 0)
  }

  lemma {:induction false} TallyCounts(g: Grouping, marks: seq<Mark>, k: string)
    ensures k in Tally(g, marks) <==> Count(KnownTo(g, k), marks) > 0
    ensures (if k in Tally(g, marks) then Tally(g, marks)[k] else 0) == Count(InGroup(g, k), marks)
  {
    if marks != [] {
      TallyCounts(g, marks[..|marks| - 1], k);
    }
  }

  lemma {:induction false} TallyAddsUp(g: Grouping, marks: seq<Mark>)
    ensures Sum(Tally(g, marks)) == Count(Everywhere(g), marks)
  {
    if marks != [] {
      var n := |marks| - 1;
      TallyAddsUp(g, marks[..n]);
      var group := GroupOf(g, marks[n]);
      if group.Some? {
        SumBumps(Tally(g, marks[..n]), group.value, if Answers(marks[n], Everywhere(g)) then 1 else 0);
      }
    }
  }

  /** A map that counts each group counts everything. */
  lemma GroupsAddUp(g: Grouping, m: map<string, nat>, marks: seq<Mark>)
    requires forall k :: k in m <==> Count(KnownTo(g, k), marks) > 0
    requires forall k | k in m :: m[k] == Count(InGroup(g, k), marks)
    ensures Sum(m) == Count(Everywhere(g), marks)
  {
    var tally := Tally(g, marks);
    forall k
      ensures k in m <==> k in tally
      ensures k in m ==> m[k] == tally[k]
    {
      TallyCounts(g, marks, k);
    }
    assert m == tally;
    TallyAddsUp(g, marks);
  }

  // ------------------------------------------------------------- the balance

  /** Each call counts once as approved, prompted or judged, except that a
      runtime log counts the start of a call and its end apart. */
  lemma {:induction false} CallsBalance(marks: seq<Mark>, t: string)
    ensures var s := StatsOf(marks, t);
            s.calls + Count(EndsOf(t), marks) ==
              s.autoApproved + s.prompted + s.successes + s.failures + Count(StartsOf(t), marks)
    ensures var s := StatsOf(marks, t); s.elapsedSamples <= s.successes + s.failures
  {
    if marks != [] {
      CallsBalance(marks[..|marks| - 1], t);
    }
  }

  /** A record that counts a call and its outcome at once, or no call. */
  predicate IsWhole(m: Option<Mark>) {
    m.Some? ==> !m.value.Started? && !m.value.Ended?
  }

  lemma WholeKeepsBalance(marks: seq<Mark>, m: Option<Mark>, t: string)
    requires IsWhole(m)
    requires Count(StartsOf(t), marks) == Count(EndsOf(t), marks) == 0
    ensures Count(StartsOf(t), marks + Opt(m)) == Count(EndsOf(t), marks + Opt(m)) == 0
  {
    if m.Some? {
      CountSnoc(StartsOf(t), marks, m.value);
      CountSnoc(EndsOf(t), marks, m.value);
    } else {
      assert marks + Opt(m) == marks;
    }
  }

  lemma AuditMarksAreWhole(e: Event)
    ensures IsWhole(AuditMark(e))
  {
  }

  /** No call was started or ended apart. */
  predicate NoLooseEnds(h: History, t: string) {
    Count(StartsOf(t), h.marks) == Count(EndsOf(t), h.marks) == 0
  }

  lemma {:induction false} AuditLogsLeaveNoLooseEnds(h: History, lines: seq<Line>, since: Option<int>, t: string)
    requires NoLooseEnds(h, t)
    ensures NoLooseEnds(WithLog(h, AuditLog, lines, since), t)
  {
    if lines != [] {
      var n := |lines| - 1;
      AuditLogsLeaveNoLooseEnds(h, lines[..n], since, t);
      if Kept(lines[n], since) {
        AuditMarksAreWhole(lines[n].event);
        WholeKeepsBalance(WithLog(h, AuditLog, lines[..n], since).marks, AuditMark(lines[n].event), t);
      }
    }
  }

  lemma {:induction false} RatiosWithinCompactions(marks: seq<Mark>)
    ensures Count(Ratios, marks) <= Count(Compactions, marks)
  {
    if marks != [] {
      RatiosWithinCompactions(marks[..|marks| - 1]);
    }
  }

  // ---------------------------------------------------------------- sessions

  /** A block of a message, in its role: a call by the assistant, a result sent
      back by the user, or neither. */
  datatype Block =
    | Use(id: string, name: string, elapsed: Option<nat>)
    | Reply(id: string, isError: bool)
    | OtherBlock

  datatype Message = Message(blocks: seq<Block>, compaction: Option<Option<real>>)

  datatype SessionFile = Unreadable | NotJson | Session(ts: Option<int>, messages: seq<Message>)

  predicate Names(b: Block, id: string) {
    !b.OtherBlock? && b.id == id
  }

  /** Block `i` is the call that is still open under `id` before block `n`. */
  ghost predicate OpenUse(blocks: seq<Block>, n: nat, id: string, i: nat) {
    && i < n <= |blocks| && id != "" && blocks[i].Use? && blocks[i].id == id
    && forall j | i < j < n :: !Names(blocks[j], id)
  }

  function OpenAt(blocks: seq<Block>, n: nat, id: string): (r: Option<nat>)
    requires n <= |blocks|
    ensures r.Some? ==> r.value < n && blocks[r.value].Use?
  {
    if n == 0 || id == "" then None
    else if Names(blocks[n - 1], id) then
      if blocks[n - 1].Use? then Some(n - 1) else None
    else OpenAt(blocks, n - 1, id)
  }

  lemma {:induction false} OpenAtIsOpen(blocks: seq<Block>, n: nat, id: string)
    requires n <= |blocks|
    ensures forall i: nat :: OpenUse(blocks, n, id, i) <==> OpenAt(blocks, n, id) == Some(i)
  {
    if n > 0 && id != "" && !Names(blocks[n - 1], id) {
      OpenAtIsOpen(blocks, n - 1, id);
      forall i: nat
        ensures OpenUse(blocks, n, id, i) <==> OpenUse(blocks, n - 1, id, i)
      {
      }
    }
  }

  /** What the reply at `n` adds: a verdict on the call open under its id. */
  function VerdictAt(blocks: seq<Block>, n: nat): Option<Mark>
    requires n < |blocks|
  {
    if !blocks[n].Reply? then None
    else
      match OpenAt(blocks, n, blocks[n].id)
      case None => None
      case Some(i) => Some(Judged(blocks[i].name, blocks[i].elapsed, !blocks[n].isError))
  }

  /** A result is a verdict on the call open under its id, a success unless it
      is flagged as an error; without such a call it is none. */
  lemma VerdictMeaning(blocks: seq<Block>, n: nat, m: Mark)
    requires n < |blocks|
    ensures VerdictAt(blocks, n) == Some(m) <==>
              && blocks[n].Reply?
              && exists i: nat :: OpenUse(blocks, n, blocks[n].id, i) &&
                   m == Judged(blocks[i].name, blocks[i].elapsed, !blocks[n].isError)
  {
    if blocks[n].Reply? {
      OpenAtIsOpen(blocks, n, blocks[n].id);
    }
  }

  function WithVerdicts(h: History, blocks: seq<Block>, n: nat): History
    requires n <= |blocks|
  {
    if n == 0 then h else WithMark(WithVerdicts(h, blocks, n - 1), VerdictAt(blocks, n - 1))
  }

  lemma ReplyCloses(blocks: seq<Block>, n: nat, later: nat, id: string, i: nat)
    requires OpenUse(blocks, n, id, i) && n < later <= |blocks| && Names(blocks[n], id)
    ensures !OpenUse(blocks, later, id, i)
  {
  }

  /** Two replies never judge the same call. */
  lemma CallsAreJudgedOnce(blocks: seq<Block>, n: nat, later: nat)
    requires n < later < |blocks| && blocks[n].Reply? && blocks[later].Reply?
    requires OpenAt(blocks, n, blocks[n].id).Some?
    ensures OpenAt(blocks, later, blocks[later].id) != OpenAt(blocks, n, blocks[n].id)
  {
    var i := OpenAt(blocks, n, blocks[n].id).value;
    OpenAtIsOpen(blocks, n, blocks[n].id);
    OpenAtIsOpen(blocks, later, blocks[later].id);
    ReplyCloses(blocks, n, later, blocks[n].id, i);
  }

  function Blocks(messages: seq<Message>): seq<Block> {
    if messages == [] then []
    else Blocks(messages[..|messages| - 1]) + messages[|messages| - 1].blocks
  }

  function CompactingIn(message: Message): Option<Mark> {
    if message.compaction.None? then None else Some(Compacted(message.compaction.value))
  }

  function WithCompactings(h: History, messages: seq<Message>): History {
    if messages == [] then h
    else WithMark(WithCompactings(h, messages[..|messages| - 1]), CompactingIn(messages[|messages| - 1]))
  }

  /** A session is one line, parsed even where it is too old to be counted. */
  function WithSession(h: History, file: SessionFile, since: Option<int>): History {
    if file.Unreadable? then h
    else
      var counted := h.(lines := h.lines + 1);
      if file.NotJson? then counted
      else
        var parsed := counted.(parsed := h.parsed + 1);
        if CutOff(file.ts, since) then parsed
        else
          var blocks := Blocks(file.messages);
          WithCompactings(WithVerdicts(WithTime(parsed, file.ts), blocks, |blocks|), file.messages)
  }

  lemma {:induction false} VerdictsKeepCounts(h: History, blocks: seq<Block>, n: nat)
    requires n <= |blocks|
    ensures var r := WithVerdicts(h, blocks, n);
            r.times == h.times && r.lines == h.lines && r.parsed == h.parsed && h.marks <= r.marks
  {
    if n > 0 {
      VerdictsKeepCounts(h, blocks, n - 1);
    }
  }

  lemma {:induction false} CompactingsKeepCounts(h: History, messages: seq<Message>)
    ensures var r := WithCompactings(h, messages);
            r.times == h.times && r.lines == h.lines && r.parsed == h.parsed && h.marks <= r.marks
  {
    if messages != [] {
      CompactingsKeepCounts(h, messages[..|messages| - 1]);
    }
  }

  /** What a session file counts for beside its records: one line if it can be
      read, parsed if it is JSON, and its time unless that is too old, in which
      case it adds nothing else. */
  lemma SessionCounts(h: History, file: SessionFile, since: Option<int>)
    ensures var r := WithSession(h, file, since);
            var tooOld := file.Session? && since.Some? && file.ts.Some? && file.ts.value < since.value;
            && r.lines == h.lines + (if file == Unreadable then 0 else 1)
            && r.parsed == h.parsed + (if file.Session? then 1 else 0)
            && r.times == h.times + (if file.Session? && file.ts.Some? && !tooOld then [file.ts.value] else [])
            && h.marks <= r.marks && (tooOld || !file.Session? ==> r.marks == h.marks)
  {
    assert h.times + [] == h.times;
    if file.Session? && !CutOff(file.ts, since) {
      var counted := WithTime(h.(lines := h.lines + 1, parsed := h.parsed + 1), file.ts);
      var blocks := Blocks(file.messages);
      VerdictsKeepCounts(counted, blocks, |blocks|);
      CompactingsKeepCounts(WithVerdicts(counted, blocks, |blocks|), file.messages);
    }
  }

  lemma {:induction false} VerdictsLeaveNoLooseEnds(h: History, blocks: seq<Block>, n: nat, t: string)
    requires n <= |blocks| && NoLooseEnds(h, t)
    ensures NoLooseEnds(WithVerdicts(h, blocks, n), t)
  {
    if n > 0 {
      VerdictsLeaveNoLooseEnds(h, blocks, n - 1, t);
      WholeKeepsBalance(WithVerdicts(h, blocks, n - 1).marks, VerdictAt(blocks, n - 1), t);
    }
  }

  lemma {:induction false} CompactingsLeaveNoLooseEnds(h: History, messages: seq<Message>, t: string)
    requires NoLooseEnds(h, t)
    ensures NoLooseEnds(WithCompactings(h, messages), t)
  {
    if messages != [] {
      var n := |messages| - 1;
      CompactingsLeaveNoLooseEnds(h, messages[..n], t);
      WholeKeepsBalance(WithCompactings(h, messages[..n]).marks, CompactingIn(messages[n]), t);
    }
  }

  // ------------------------------------------------------------- all sources

  datatype Input = LogInput(source: Source, lines: seq<Line>) | SessionInput(file: SessionFile)

  function WithInput(h: History, input: Input, since: Option<int>): History {
    match input
    case LogInput(source, lines) => WithLog(h, source, lines, since)
    case SessionInput(file) => WithSession(h, file, since)
  }

  function WithInputs(h: History, inputs: seq<Input>, since: Option<int>): History {
    if inputs == [] then h
    else WithInput(WithInputs(h, inputs[..|inputs| - 1], since), inputs[|inputs| - 1], since)
  }

  lemma {:induction false} NoRuntimeLogNoLooseEnds(inputs: seq<Input>, since: Option<int>, t: string)
    requires forall i | 0 <= i < |inputs| :: inputs[i].LogInput? ==> inputs[i].source == AuditLog
    ensures NoLooseEnds(WithInputs(NOTHING_READ, inputs, since), t)
  {
    if inputs != [] {
      var n := |inputs| - 1;
      NoRuntimeLogNoLooseEnds(inputs[..n], since, t);
      var h := WithInputs(NOTHING_READ, inputs[..n], since);
      match inputs[n] {
        case LogInput(_, lines) =>
          AuditLogsLeaveNoLooseEnds(h, lines, since, t);
        case SessionInput(file) =>
          if file.Session? && !CutOff(file.ts, since) {
            var counted := WithTime(h.(lines := h.lines + 1, parsed := h.parsed + 1), file.ts);
            var blocks := Blocks(file.messages);
            VerdictsLeaveNoLooseEnds(counted, blocks, |blocks|, t);
            CompactingsLeaveNoLooseEnds(WithVerdicts(counted, blocks, |blocks|), file.messages, t);
          }
      }
    }
  }

  // --------------------------------------------------------------- the rollup

  datatype Compaction = Compaction(events: nat, ratioSum: real, ratioSamples: nat)
  datatype Agents = Agents(spawns: nat, successes: nat, failures: nat)

  /** The whole rollup. */
  datatype Counters = Counters(
    tools: map<string, ToolStats>, compaction: Compaction, agents: Agents,
    interventions: nat, byCategory: map<string, nat>, saves: nat, clears: nat,
    earliest: Option<int>, latest: Option<int>, totalLines: nat, parsedLines: nat)

  /** One part of the rollup. */
  datatype Counter =
    | ToolCounter(t: string) | CategoryCounter(c: string)
    | CompactionCounter | AgentCounter | InterventionCounter | SaveCounter | ClearCounter
    | EarliestTime | LatestTime | LineCounter

  /** A part holds what the history adds up to. */
  ghost predicate Right(c: Counters, h: History, which: Counter) {
    match which
    case ToolCounter(t) =>
      && (t in c.tools <==> Count(About(t), h.marks) > 0)
      && (t in c.tools ==> c.tools[t] == StatsOf(h.marks, t))
    case CategoryCounter(k) =>
      && (k in c.byCategory <==> Count(InCategory(k), h.marks) > 0)
      && (k in c.byCategory ==> c.byCategory[k] == Count(InCategory(k), h.marks))
    case CompactionCounter => c.compaction == CompactionOf(h.marks)
    case AgentCounter => c.agents == AgentsOf(h.marks)
    case InterventionCounter => c.interventions == Count(Interventions, h.marks)
    case SaveCounter => c.saves == Count(Saves, h.marks)
    case ClearCounter => c.clears == Count(Clears, h.marks)
    case EarliestTime => IsMinimum(c.earliest, h.times)
    case LatestTime => IsMaximum(c.latest, h.times)
    case LineCounter => c.parsedLines == h.parsed <= h.lines == c.totalLines
  }

  ghost predicate AllRight(c: Counters, h: History) {
    forall which :: Right(c, h, which)
  }

  ghost predicate IsMinimum(o: Option<int>, times: seq<int>) {
    match o
    case None => times == []
    case Some(t) => t in times && forall i | 0 <= i < |times| :: t <= times[i]
  }

  ghost predicate IsMaximum(o: Option<int>, times: seq<int>) {
    match o
    case None => times == []
    case Some(t) => t in times && forall i | 0 <= i < |times| :: times[i] <= t
  }

  /** A tool no mark concerns has counted nothing. */
  lemma {:induction false} UnknownToolsCountNothing(marks: seq<Mark>, t: string)
    requires Count(About(t), marks) == 0
    ensures StatsOf(marks, t) == NO_STATS
  {
    if marks != [] {
      UnknownToolsCountNothing(marks[..|marks| - 1], t);
    }
  }

  // How one more record moves each counter.

  function AddTime(s: ToolStats, elapsed: Option<nat>): ToolStats {
    if elapsed.None? then s
    else s.(totalElapsedMs := s.totalElapsedMs + elapsed.value, elapsedSamples := s.elapsedSamples + 1)
  }

  function AddVerdict(s: ToolStats, ok: bool): ToolStats {
    if ok then s.(successes := s.successes + 1) else s.(failures := s.failures + 1)
  }

  function NextStats(s: ToolStats, m: Mark): ToolStats {
    match m
    case AutoApproved(_) => s.(calls := s.calls + 1, autoApproved := s.autoApproved + 1)
    case Prompted(_) => s.(calls := s.calls + 1, prompted := s.prompted + 1)
    case Judged(_, elapsed, ok) => AddVerdict(AddTime(s.(calls := s.calls + 1), elapsed), ok)
    case Started(_) => s.(calls := s.calls + 1)
    case Ended(_, elapsed, ok) => AddVerdict(AddTime(s, elapsed), ok)
    case _ => s
  }

  function NextCompaction(c: Compaction, m: Mark): Compaction {
    if !m.Compacted? then c
    else if m.ratio.None? then c.(events := c.events + 1)
    else Compaction(c.events + 1, c.ratioSum + m.ratio.value, c.ratioSamples + 1)
  }

  function NextAgents(a: Agents, m: Mark): Agents {
    if m.Spawned? then a.(spawns := a.spawns + 1)
    else if m.AgentDone? && m.ok then a.(successes := a.successes + 1)
    else if m.AgentDone? then a.(failures := a.failures + 1)
    else a
  }

  function Next(c: Counters, m: Mark): Counters {
    c.(tools :=
         if ConcernsTool(m) then
           c.tools[m.tool := NextStats(if m.tool in c.tools then c.tools[m.tool] else NO_STATS, m)]
         else c.tools,
       compaction := NextCompaction(c.compaction, m),
       agents := NextAgents(c.agents, m),
       interventions := c.interventions + (if m.Intervened? then 1 else 0),
       byCategory := if m.Intervened? then Bump(c.byCategory, m.category, 1) else c.byCategory,
       saves := c.saves + (if m.CredentialSaved? then 1 else 0),
       clears := c.clears + if m.CredentialCleared? then 1 else 0)
  }

  function Touched(c: Counters, t: int): Counters {
    c.(earliest := if c.earliest.None? || t < c.earliest.value then Some(t) else c.earliest,
       latest := if c.latest.None? || t > c.latest.value then Some(t) else c.latest)
  }

  lemma StatsMove(marks: seq<Mark>, m: Mark, t: string)
    ensures var s := StatsOf(marks, t);
            StatsOf(marks + [m], t) == if ConcernsTool(m) && m.tool == t then NextStats(s, m) else s
    ensures Count(About(t), marks + [m]) ==
              Count(About(t), marks) + if ConcernsTool(m) && m.tool == t then 1 else 0
  {
    assert (marks + [m])[..|marks|] == marks;
  }

  lemma ToolMoves(c: Counters, h: History, m: Mark, t: string)
    requires Right(c, h, ToolCounter(t))
    ensures Right(Next(c, m), h.(marks := h.marks + [m]), ToolCounter(t))
  {
    StatsMove(h.marks, m, t);
    if t !in c.tools {
      UnknownToolsCountNothing(h.marks, t);
    }
  }

  lemma RatiosMove(marks: seq<Mark>, m: Mark)
    ensures RatiosIn(marks + [m]) == RatiosIn(marks) + if Answers(m, Ratios) then m.ratio.value else 0.0
  {
    assert (marks + [m])[..|marks|] == marks;
  }

  function CompactionOf(marks: seq<Mark>): Compaction {
    Compaction(Count(Compactions, marks), RatiosIn(marks), Count(Ratios, marks))
  }

  function AgentsOf(marks: seq<Mark>): Agents {
    Agents(Count(Spawns, marks), Count(AgentsDone(true), marks), Count(AgentsDone(false), marks))
  }

  lemma CompactionMoves(marks: seq<Mark>, m: Mark)
    ensures CompactionOf(marks + [m]) == NextCompaction(CompactionOf(marks), m)
  {
    hide Count, RatiosIn;
    CountSnoc(Compactions, marks, m);
    CountSnoc(Ratios, marks, m);
    RatiosMove(marks, m);
  }

  lemma AgentsMove(marks: seq<Mark>, m: Mark)
    ensures AgentsOf(marks + [m]) == NextAgents(AgentsOf(marks), m)
  {
    hide Count;
    CountSnoc(Spawns, marks, m);
    CountSnoc(AgentsDone(true), marks, m);
    CountSnoc(AgentsDone(false), marks, m);
  }

  lemma OtherMoves(c: Counters, h: History, m: Mark, which: Counter)
    requires Right(c, h, which) && !which.ToolCounter?
    ensures Right(Next(c, m), h.(marks := h.marks + [m]), which)
  {
    hide Count, RatiosIn, NextStats, NextCompaction, NextAgents;
    var marks := h.marks;
    match which {
      case CategoryCounter(k) => CountSnoc(InCategory(k), marks, m);
      case CompactionCounter => CompactionMoves(marks, m);
      case AgentCounter => AgentsMove(marks, m);
      case InterventionCounter => CountSnoc(Interventions, marks, m);
      case SaveCounter => CountSnoc(Saves, marks, m);
      case ClearCounter => CountSnoc(Clears, marks, m);
      case _ =>
    }
  }

  /** One more record moves every counter as counting it anew would. */
  lemma CountersMove(c: Counters, h: History, m: Mark)
    requires AllRight(c, h)
    ensures AllRight(Next(c, m), h.(marks := h.marks + [m]))
  {
    forall which
      ensures Right(Next(c, m), h.(marks := h.marks + [m]), which)
    {
      assert Right(c, h, which);
      if which.ToolCounter? {
        ToolMoves(c, h, m, which.t);
      } else {
        OtherMoves(c, h, m, which);
      }
    }
  }

  lemma TimesMove(c: Counters, h: History, t: int)
    requires AllRight(c, h)
    ensures AllRight(Touched(c, t), WithTime(h, Some(t)))
  {
    forall which
      ensures Right(Touched(c, t), WithTime(h, Some(t)), which)
    {
      assert Right(c, h, which);
      assert WithTime(h, Some(t)).times[|h.times|] == t;
    }
  }

  lemma LinesMove(c: Counters, h: History, parsed: nat)
    requires AllRight(c, h) && parsed <= 1
    ensures AllRight(c.(totalLines := c.totalLines + 1, parsedLines := c.parsedLines + parsed),
                     h.(lines := h.lines + 1, parsed := h.parsed + parsed))
  {
    var next := c.(totalLines := c.totalLines + 1, parsedLines := c.parsedLines + parsed);
    var later := h.(lines := h.lines + 1, parsed := h.parsed + parsed);
    forall which
      ensures Right(next, later, which)
    {
      assert Right(c, h, which);
    }
  }

  datatype Call = Call(name: string, elapsed: Option<nat>)

  /** The entry for `id` is the call still open before block `n`. */
  ghost predicate PendingAs(pending: map<string, Call>, blocks: seq<Block>, n: nat, id: string)
    requires n <= |blocks|
  {
    match OpenAt(blocks, n, id)
    case None => id !in pending
    case Some(i) => id in pending && pending[id] == Call(blocks[i].name, blocks[i].elapsed)
  }

  ghost predicate IsPending(pending: map<string, Call>, blocks: seq<Block>, n: nat)
    requires n <= |blocks|
  {
    forall id :: PendingAs(pending, blocks, n, id)
  }

  /** The map of open calls behind one more block. */
  function Behind(pending: map<string, Call>, b: Block): map<string, Call> {
    match b
    case Use(id, name, elapsed) => if id == "" then pending else pending[id := Call(name, elapsed)]
    case Reply(id, _) => pending - {id}
    case OtherBlock => pending
  }

  lemma PendingMoves(pending: map<string, Call>, blocks: seq<Block>, n: nat)
    requires n < |blocks| && IsPending(pending, blocks, n)
    ensures IsPending(Behind(pending, blocks[n]), blocks, n + 1)
    ensures VerdictAt(blocks, n) ==
              if blocks[n].Reply? && blocks[n].id in pending then
                var call := pending[blocks[n].id]; Some(Judged(call.name, call.elapsed, !blocks[n].isError))
              else None
  {
    var next, k := Behind(pending, blocks[n]), n + 1;
    forall id
      ensures PendingAs(next, blocks, k, id)
    {
      assert PendingAs(pending, blocks, n, id);
    }
    if blocks[n].Reply? {
      assert PendingAs(pending, blocks, n, blocks[n].id);
    }
  }

  class Rollup {
    var earliest: Option<int>
    var latest: Option<int>
    var tools: map<string, ToolStats>
    var compaction: Compaction
    var agents: Agents
    var interventions: nat
    var byCategory: map<string, nat>
    var saves: nat
    var clears: nat
    var totalLines: nat
    var parsedLines: nat
    ghost var history: History

    function Values(): Counters
      reads this
    {
      Counters(
        tools, compaction, agents, interventions, byCategory, saves, clears,
        earliest, latest, totalLines, parsedLines)
    }

    /** Every counter is what the history adds up to. */
    ghost predicate Valid()
      reads this
    {
      AllRight(Values(), history)
    }

    constructor ()
      ensures Valid() && history == NOTHING_READ
    {
      earliest, latest := None, None;
      tools, byCategory := map[], map[];
      compaction, agents := Compaction(0, 0.0, 0), Agents(0, 0, 0);
      interventions, saves, clears, totalLines, parsedLines := 0, 0, 0, 0, 0;
      history := NOTHING_READ;
    }

    method TouchTs(t: int)
      requires Valid()
      modifies this
      ensures Valid() && history == WithTime(old(history), Some(t))
    {
      TimesMove(Values(), history, t);
      if earliest.None? || t < earliest.value {
        earliest := Some(t);
      }
      if latest.None? || t > latest.value {
        latest := Some(t);
      }
      history := WithTime(history, Some(t));
    }

    /** Adds one record to the counters. */
    method Record(m: Mark)
      requires Valid()
      modifies this
      ensures Valid() && history == old(history).(marks := old(history.marks) + [m])
    {
      CountersMove(Values(), history, m);
      Add(m);
      history := history.(marks := history.marks + [m]);
    }

    method Add(m: Mark)
      modifies this
      ensures Values() == Next(old(Values()), m) && history == old(history)
    {
      hide AddTime, AddVerdict;
      match m {
        case Compacted(ratio) =>
          compaction := compaction.(events := compaction.events + 1);
          if ratio.Some? {
            compaction := compaction.(ratioSum := compaction.ratioSum + ratio.value,
                                      ratioSamples := compaction.ratioSamples + 1);
          }
        case Spawned =>
          agents := agents.(spawns := agents.spawns + 1);
        case AgentDone(ok) =>
          agents := if ok then agents.(successes := agents.successes + 1) else agents.(failures := agents.failures + 1);
        case Intervened(category) =>
          interventions := interventions + 1;
          byCategory := Bump(byCategory, category, 1);
        case CredentialSaved =>
          saves := saves + 1;
        case CredentialCleared =>
          clears := clears + 1;
        case _ =>
          tools := tools[m.tool := NextStats(if m.tool in tools then tools[m.tool] else NO_STATS, m)];
      }
    }

    /** One more line was read. */
    method CountLine(parsed: nat)
      requires Valid() && parsed <= 1
      modifies this
      ensures Valid()
      ensures history == old(history).(lines := old(history.lines) + 1, parsed := old(history.parsed) + parsed)
    {
      LinesMove(Values(), history, parsed);
      totalLines := totalLines + 1;
      parsedLines := parsedLines + parsed;
      history := history.(lines := history.lines + 1, parsed := history.parsed + parsed);
    }

    /** One JSON object a line; the two kinds of log differ in the events they
        know. */
    method ReadLog(source: Source, lines: seq<Line>, since: Option<int>)
      requires Valid()
      modifies this
      ensures Valid() && history == WithLog(old(history), source, lines, since)
    {
      for i := 0 to |lines|
        invariant Valid() && history == WithLog(old(history), source, lines[..i], since)
      {
        assert lines[..i + 1][..i] == lines[..i];
        ReadLine(source, lines[i], since);
      }
      assert lines[..|lines|] == lines;
    }

    method ReadLine(source: Source, line: Line, since: Option<int>)
      requires Valid()
      modifies this
      ensures Valid() && history == WithLine(old(history), source, line, since)
    {
      if !Kept(line, since) {
        CountLine(0);
        return;
      }
      CountLine(1);
      if line.event.ts.Some? {
        TouchTs(line.event.ts.value);
      }
      var mark := MarkOf(source, line.event);
      if mark.Some? {
        Record(mark.value);
      }
    }

    method ReadSession(file: SessionFile, since: Option<int>)
      requires Valid()
      modifies this
      ensures Valid() && history == WithSession(old(history), file, since)
    {
      if file.Unreadable? {
        return;
      }
      CountLine(if file.NotJson? then 0 else 1);
      if file.NotJson? || CutOff(file.ts, since) {
        return;
      }
      if file.ts.Some? {
        TouchTs(file.ts.value);
      }
      assert old(history).times + [] == old(history).times;
      ReadCalls(file.messages);
      ReadCompactions(file.messages);
    }

    /** Pairs results with calls through the map of calls still open. */
    method ReadCalls(messages: seq<Message>)
      requires Valid()
      modifies this
      ensures Valid() && history == WithVerdicts(old(history), Blocks(messages), |Blocks(messages)|)
    {
      ghost var before, all, n := history, Blocks(messages), 0;
      var pending: map<string, Call> := map[];
      for i := 0 to |messages|
        invariant n == |Blocks(messages[..i])| <= |all| && IsPending(pending, all, n)
        invariant Valid() && history == WithVerdicts(before, all, n)
      {
        BlocksOf(messages, i);
        pending := ReadMessage(messages[i].blocks, pending, before, all, n);
        n := n + |messages[i].blocks|;
      }
      assert messages[..|messages|] == messages;
    }

    method ReadMessage(blocks: seq<Block>, pending: map<string, Call>,
                       ghost before: History, ghost all: seq<Block>, ghost n: nat)
      returns (next: map<string, Call>)
      requires n + |blocks| <= |all| && all[n..n + |blocks|] == blocks && IsPending(pending, all, n)
      requires Valid() && history == WithVerdicts(before, all, n)
      modifies this
      ensures IsPending(next, all, n + |blocks|)
      ensures Valid() && history == WithVerdicts(before, all, n + |blocks|)
    {
      next := pending;
      for j := 0 to |blocks|
        invariant IsPending(next, all, n + j)
        invariant Valid() && history == WithVerdicts(before, all, n + j)
      {
        assert blocks[j] == all[n..n + |blocks|][j] == all[n + j];
        next := ReadBlock(blocks[j], next, before, all, n + j);
      }
    }

    method ReadBlock(block: Block, pending: map<string, Call>,
                     ghost before: History, ghost all: seq<Block>, ghost n: nat)
      returns (next: map<string, Call>)
      requires n < |all| && all[n] == block && IsPending(pending, all, n)
      requires Valid() && history == WithVerdicts(before, all, n)
      modifies this
      ensures IsPending(next, all, n + 1)
      ensures Valid() && history == WithVerdicts(before, all, n + 1)
    {
      PendingMoves(pending, all, n);
      next := pending;
      match block {
        case Use(id, name, elapsed) =>
          if id != "" {
            next := pending[id := Call(name, elapsed)];
          }
        case Reply(id, isError) =>
          if id in pending {
            Record(Judged(pending[id].name, pending[id].elapsed, !isError));
          }
          next := pending - {id};
        case OtherBlock =>
      }
    }

    method ReadCompactions(messages: seq<Message>)
      requires Valid()
      modifies this
      ensures Valid() && history == WithCompactings(old(history), messages)
    {
      for i := 0 to |messages|
        invariant Valid() && history == WithCompactings(old(history), messages[..i])
      {
        assert messages[..i + 1][..i] == messages[..i];
        if messages[i].compaction.Some? {
          Record(Compacted(messages[i].compaction.value));
        }
      }
      assert messages[..|messages|] == messages;
    }
  }

  /** Where the blocks of message `i` are. */
  lemma {:induction false} BlocksOf(messages: seq<Message>, i: nat)
    requires i < |messages|
    ensures var n, own := |Blocks(messages[..i])|, messages[i].blocks;
            && |Blocks(messages[..i + 1])| == n + |own| <= |Blocks(messages)|
            && Blocks(messages)[n..n + |own|] == own
  {
    var last := |messages| - 1;
    if i < last {
      BlocksOf(messages[..last], i);
      assert messages[..last][..i] == messages[..i] && messages[..last][..i + 1] == messages[..i + 1];
    } else {
      assert messages[..i + 1] == messages;
    }
  }

  // ------------------------------------------------------------- what it means

  function CallsBy(tools: map<string, ToolStats>): map<string, nat> {
    map t | t in tools :: tools[t].calls
  }

  /** Whatever was read, in whatever order: the categories add up to the
      interventions, the tools to the calls, the extremes are extremes, and no
      sample is counted without its event. */
  lemma RollupAddsUp(c: Counters, h: History)
    requires AllRight(c, h)
    ensures Sum(c.byCategory) == c.interventions
    ensures Sum(CallsBy(c.tools)) == Count(AllCalls, h.marks)
    ensures c.compaction.ratioSamples <= c.compaction.events
    ensures c.parsedLines <= c.totalLines
    ensures IsMinimum(c.earliest, h.times) && IsMaximum(c.latest, h.times)
  {
    forall k
      ensures k in c.byCategory <==> Count(InCategory(k), h.marks) > 0
      ensures k in c.byCategory ==> c.byCategory[k] == Count(InCategory(k), h.marks)
    {
      assert Right(c, h, CategoryCounter(k));
    }
    GroupsAddUp(ByCategory, c.byCategory, h.marks);
    assert Right(c, h, InterventionCounter) && Right(c, h, CompactionCounter) && Right(c, h, LineCounter);
    assert Right(c, h, EarliestTime) && Right(c, h, LatestTime);
    RatiosWithinCompactions(h.marks);
    forall t
      ensures t in c.tools <==> Count(About(t), h.marks) > 0
      ensures t in c.tools ==> c.tools[t].calls == Count(CallsOf(t), h.marks)
    {
      assert Right(c, h, ToolCounter(t));
    }
    GroupsAddUp(ByTool, CallsBy(c.tools), h.marks);
  }

  /** A tool's books balance exactly when its starts match its ends. */
  lemma ToolBalancesIff(c: Counters, h: History, t: string)
    requires AllRight(c, h) && t in c.tools
    ensures var s := c.tools[t];
            s.calls == s.autoApproved + s.prompted + s.successes + s.failures
            <==> Count(StartsOf(t), h.marks) == Count(EndsOf(t), h.marks)
  {
    assert Right(c, h, ToolCounter(t));
    CallsBalance(h.marks, t);
  }

  /** After any audit logs and session files, in any order, the calls of every
      tool are its approvals, prompts, successes and failures together. */
  lemma WithoutRuntimeLogsToolsBalance(c: Counters, inputs: seq<Input>, since: Option<int>, t: string)
    requires forall i | 0 <= i < |inputs| :: inputs[i].LogInput? ==> inputs[i].source == AuditLog
    requires AllRight(c, WithInputs(NOTHING_READ, inputs, since)) && t in c.tools
    ensures var s := c.tools[t]; s.calls == s.autoApproved + s.prompted + s.successes + s.failures
  {
    NoRuntimeLogNoLooseEnds(inputs, since, t);
    ToolBalancesIff(c, WithInputs(NOTHING_READ, inputs, since), t);
  }

  /** A runtime log alone can break the balance. */
  lemma RuntimeLogUnbalances()
    ensures var started := Entry(Event(None, "tool.started", Some("shell"), None, None, None, None));
            var h := WithLog(NOTHING_READ, RuntimeLog, [started], None);
            var s := StatsOf(h.marks, "shell");
            s.calls == 1 && s.autoApproved + s.prompted + s.successes + s.failures == 0
  {
    var started := Entry(Event(None, "tool.started", Some("shell"), None, None, None, None));
    assert [started][..0] == [];
    assert WithLog(NOTHING_READ, RuntimeLog, [], None) == NOTHING_READ;
    assert WithLog(NOTHING_READ, RuntimeLog, [started], None).marks == [] + [Started("shell")];
    StatsMove([], Started("shell"), "shell");
    assert StatsOf([], "shell") == NO_STATS;
  }
}
