/** The cached bridge slot under any number of concurrent callers: lookup,
    spawn, publish, use, invalidate and shut down, in any interleaving. A
    bridge lives while the slot or a caller refers to it; dropping the last
    reference kills its child process. */
module BridgeSlot {
  import opened Wrappers

  type Bridge = nat
  type Caller = nat

  /** What a caller is doing; `since` is the epoch its spawn began in. */
  datatype Activity =
    | Spawning(since: nat)
    | Spawned(bridge: Bridge)
    | Holding(bridge: Bridge)
    | Using(bridge: Bridge)
    | Stopping(bridge: Bridge)

  /** A bridge handed out by `acquire_stdio_bridge`, and in which epoch. */
  datatype Return = Return(epoch: nat, bridge: Bridge)

  datatype State = State(
    slot: Option<Bridge>,
    callers: map<Caller, Activity>,
    bridges: nat,             // how many were ever spawned; ids are below
    killed: set<Bridge>,
    // history
    epoch: nat,               // how often the slot was cleared
    born: map<Bridge, nat>,   // the epoch each bridge's spawn began in
    published: set<Bridge>,
    stopped: set<Bridge>,     // taken by a shutdown
    returned: seq<Return>
  )

  const INITIAL := State(None, map[], 0, {}, 0, map[], {}, {}, [])

  datatype Action =
    | Lookup(caller: Caller)
    | SpawnFails(caller: Caller, child: bool)
    | Spawn(caller: Caller)
    | Publish(caller: Caller)
    | Lock(caller: Caller)
    | Unlock(caller: Caller)
    | Release(caller: Caller)
    | Invalidate
    | ShutdownTake(caller: Caller)
    | ShutdownKill(caller: Caller)

  predicate IsSpawning(a: Activity) {
    a.Spawning? || a.Spawned?
  }

  predicate RefersTo(a: Activity, b: Bridge) {
    !a.Spawning? && a.bridge == b
  }

  predicate Referenced(s: State, b: Bridge) {
    s.slot == Some(b) || exists c | c in s.callers :: RefersTo(s.callers[c], b)
  }

  predicate InUse(s: State, b: Bridge) {
    exists c | c in s.callers :: s.callers[c] == Using(b)
  }

  /** After a reference to `b` is gone: the last one takes the child along. */
  function Dropped(s: State, b: Bridge): State {
    if Referenced(s, b) then s else s.(killed := s.killed + {b})
  }

  function ClearSlot(s: State): State {
    s.(slot := None, epoch := s.epoch + 1)
  }

  function HandOut(s: State, c: Caller, b: Bridge): State {
    s.(callers := s.callers[c := Holding(b)], returned := s.returned + [Return(s.epoch, b)])
  }

  predicate Enabled(s: State, a: Action) {
    match a
    case Lookup(c) => c !in s.callers
    case SpawnFails(c, _) => c in s.callers && s.callers[c].Spawning?
    case Spawn(c) => c in s.callers && s.callers[c].Spawning?
    case Publish(c) => c in s.callers && s.callers[c].Spawned?
    case Lock(c) => c in s.callers && s.callers[c].Holding? && !InUse(s, s.callers[c].bridge)
    case Unlock(c) => c in s.callers && s.callers[c].Using?
    case Release(c) => c in s.callers && s.callers[c].Holding?
    case Invalidate => true
    case ShutdownTake(c) => c !in s.callers
    case ShutdownKill(c) => c in s.callers && s.callers[c].Stopping? && !InUse(s, s.callers[c].bridge)
  }

  function Step(s: State, a: Action): State
    requires Enabled(s, a)
  {
    match a
    case Lookup(c) =>
      if s.slot.Some? then HandOut(s, c, s.slot.value) else s.(callers := s.callers[c := Spawning(s.epoch)])
    case SpawnFails(c, child) =>
      var gone := s.(callers := s.callers - {c});
      if child then
        gone.(bridges := s.bridges + 1, born := s.born[s.bridges := s.callers[c].since],
            killed := s.killed + {s.bridges})
      else gone
    case Spawn(c) =>
      s.(bridges := s.bridges + 1, born := s.born[s.bridges := s.callers[c].since],
         callers := s.callers[c := Spawned(s.bridges)])
    case Publish(c) =>
      var own := s.callers[c].bridge;
      if s.slot.Some? then
        Dropped(HandOut(s, c, s.slot.value), own)
      else
        HandOut(s, c, own).(slot := Some(own), published := s.published + {own})
    case Lock(c) => s.(callers := s.callers[c := Using(s.callers[c].bridge)])
    case Unlock(c) => s.(callers := s.callers[c := Holding(s.callers[c].bridge)])
    case Release(c) => Dropped(s.(callers := s.callers - {c}), s.callers[c].bridge)
    case Invalidate =>
      if s.slot.Some? then Dropped(ClearSlot(s), s.slot.value) else ClearSlot(s)
    case ShutdownTake(c) =>
      if s.slot.Some? then
        ClearSlot(s).(callers := s.callers[c := Stopping(s.slot.value)], stopped := s.stopped + {s.slot.value})
      else s
    case ShutdownKill(c) =>
      s.(callers := s.callers - {c}, killed := s.killed + {s.callers[c].bridge})
  }

  ghost predicate Runs(s: State, actions: seq<Action>, t: State)
    decreases |actions|
  {
    if actions == [] then s == t
    else Enabled(s, actions[0]) && Runs(Step(s, actions[0]), actions[1..], t)
  }

  // --------------------------------------------------------------- invariant

  /** References name spawned bridges. */
  ghost predicate IdsAreSpawned(s: State) {
    && (forall c | c in s.callers && !s.callers[c].Spawning? :: s.callers[c].bridge < s.bridges)
    && (forall b | b in s.published :: b < s.bridges)
    && (forall b | b in s.killed :: b < s.bridges)
  }

  /** What is cached or in hand was published; what was just spawned was not. */
  ghost predicate PublishedIsKnown(s: State) {
    && (s.slot.Some? ==> s.slot.value in s.published)
    && (forall c | c in s.callers && s.callers[c].Spawned? :: s.callers[c].bridge !in s.published)
    && (forall c | c in s.callers && !IsSpawning(s.callers[c]) :: s.callers[c].bridge in s.published)
  }

  /** A bridge just spawned is its caller's alone. */
  ghost predicate SpawnedIsPrivate(s: State) {
    forall c, d | c in s.callers && d in s.callers && c != d && s.callers[c].Spawned? ::
      !RefersTo(s.callers[d], s.callers[c].bridge)
  }

  ghost predicate ReferencesAreSound(s: State) {
    IdsAreSpawned(s) && PublishedIsKnown(s) && SpawnedIsPrivate(s)
  }

  ghost predicate ReturnsAgree(s: State) {
    && (forall i | 0 <= i < |s.returned| :: s.returned[i].epoch <= s.epoch && s.returned[i].bridge in s.published)
    && (forall i | 0 <= i < |s.returned| && s.returned[i].epoch == s.epoch :: s.slot == Some(s.returned[i].bridge))
    && (forall i, j | 0 <= i < |s.returned| && 0 <= j < |s.returned| && s.returned[i].epoch == s.returned[j].epoch ::
          s.returned[i].bridge == s.returned[j].bridge)
  }

  /** Every child is killed or still referred to; one killed while referred to
      was stopped by a shutdown. */
  ghost predicate ChildrenAreAccounted(s: State) {
    && (forall b: nat | b < s.bridges :: b in s.killed || Referenced(s, b))
    && (forall b | b in s.killed && Referenced(s, b) :: b in s.stopped)
    && (forall c | c in s.callers && s.callers[c].Stopping? :: s.callers[c].bridge in s.stopped)
    && (s.slot.Some? ==> s.slot.value !in s.stopped)
    && (forall b | b in s.stopped :: b in s.published)
  }

  ghost predicate Invariant(s: State) {
    ReferencesAreSound(s) && ReturnsAgree(s) && ChildrenAreAccounted(s)
  }

  lemma StepKeepsIds(s: State, a: Action)
    requires ReferencesAreSound(s) && Enabled(s, a)
    ensures IdsAreSpawned(Step(s, a))
  {
    hide Referenced, InUse, SpawnedIsPrivate;
  }

  lemma StepKeepsPublished(s: State, a: Action)
    requires ReferencesAreSound(s) && Enabled(s, a)
    ensures PublishedIsKnown(Step(s, a))
  {
    hide Referenced, InUse;
  }

  lemma StepKeepsPrivate(s: State, a: Action)
    requires ReferencesAreSound(s) && Enabled(s, a)
    ensures SpawnedIsPrivate(Step(s, a))
  {
    hide Referenced, InUse;
  }

  lemma StepKeepsReferences(s: State, a: Action)
    requires ReferencesAreSound(s) && Enabled(s, a)
    ensures ReferencesAreSound(Step(s, a))
  {
    hide Step, IdsAreSpawned, PublishedIsKnown, SpawnedIsPrivate;
    StepKeepsIds(s, a);
    StepKeepsPublished(s, a);
    StepKeepsPrivate(s, a);
  }

  lemma StepKeepsReturns(s: State, a: Action)
    requires ReferencesAreSound(s) && ReturnsAgree(s) && Enabled(s, a)
    ensures ReturnsAgree(Step(s, a))
  {
    hide Referenced, InUse;
  }

  /** A child stays accounted for: a step either keeps one of its references
      or kills it along with the last. */
  lemma NoChildIsLeaked(s: State, a: Action, b: Bridge)
    requires Invariant(s) && Enabled(s, a) && b < Step(s, a).bridges
    ensures b in Step(s, a).killed || Referenced(Step(s, a), b)
  {
    var t := Step(s, a);
    if b in s.killed {
      assert b in t.killed;
    } else if b == s.bridges {
      assert a.Spawn? ==> RefersTo(t.callers[a.caller], b);
    } else if s.slot == Some(b) {
      if a.ShutdownTake? {
        assert RefersTo(t.callers[a.caller], b);
      }
    } else {
      var c :| c in s.callers && RefersTo(s.callers[c], b);
      if c in t.callers && RefersTo(t.callers[c], b) {
        assert Referenced(t, b);
      }
    }
  }

  lemma StepKeepsChildren(s: State, a: Action)
    requires Invariant(s) && Enabled(s, a)
    ensures ChildrenAreAccounted(Step(s, a))
  {
    forall b: nat | b < Step(s, a).bridges
      ensures b in Step(s, a).killed || Referenced(Step(s, a), b)
    {
      NoChildIsLeaked(s, a, b);
    }
  }

  lemma {:induction false} RunKeeps(s: State, actions: seq<Action>, t: State)
    requires Invariant(s) && Runs(s, actions, t)
    ensures Invariant(t)
    decreases |actions|
  {
    if actions != [] {
      StepKeepsReferences(s, actions[0]);
      StepKeepsReturns(s, actions[0]);
      StepKeepsChildren(s, actions[0]);
      RunKeeps(Step(s, actions[0]), actions[1..], t);
    }
  }

  // ---------------------------------------------------------------- promises

  ghost predicate Reachable(s: State) {
    exists actions :: Runs(INITIAL, actions, s)
  }

  lemma ReachableInvariant(s: State)
    requires Reachable(s)
    ensures Invariant(s)
  {
    var actions :| Runs(INITIAL, actions, s);
    RunKeeps(INITIAL, actions, s);
  }

  /** Callers agree: every bridge handed out between two clearings of the slot
      is the same one, and until the next clearing it is the slot's. */
  lemma CallersAgree(s: State, i: nat, j: nat)
    requires Reachable(s) && i < |s.returned| && j < |s.returned|
    requires s.returned[i].epoch == s.returned[j].epoch
    ensures s.returned[i].bridge == s.returned[j].bridge
    ensures s.returned[i].epoch == s.epoch ==> s.slot == Some(s.returned[i].bridge)
  {
    ReachableInvariant(s);
  }

  /** The bridge of a caller that loses the race is killed at once, in that
      step, having been handed out to nobody. */
  lemma LosingSpawnIsDropped(s: State, c: Caller)
    requires Reachable(s) && Enabled(s, Publish(c)) && s.slot.Some?
    ensures var own := s.callers[c].bridge;
            var t := Step(s, Publish(c));
            && t.callers[c] == Holding(s.slot.value) && own != s.slot.value
            && own in t.killed
            && own !in t.published
            && forall i | 0 <= i < |t.returned| :: t.returned[i].bridge != own
  {
    ReachableInvariant(s);
    var own := s.callers[c].bridge;
    var t := Step(s, Publish(c));
    StepKeepsReferences(s, Publish(c));
    StepKeepsReturns(s, Publish(c));
    assert !Referenced(HandOut(s, c, s.slot.value), own);
  }

  /** Once killed, a bridge that was never published is handed out to nobody,
      however the run goes on. */
  lemma {:induction false} DeadUnpublishedStaysOut(s: State, actions: seq<Action>, t: State, b: Bridge)
    requires Invariant(s) && b in s.killed && b !in s.published && Runs(s, actions, t)
    ensures b in t.killed && b !in t.published
    ensures forall i | 0 <= i < |t.returned| :: t.returned[i].bridge != b
    decreases |actions|
  {
    if actions != [] {
      var a := actions[0];
      StepKeepsReferences(s, a);
      StepKeepsReturns(s, a);
      StepKeepsChildren(s, a);
      DeadUnpublishedStaysOut(Step(s, a), actions[1..], t, b);
    }
  }

  /** No step kills a bridge that a turn is using: not an invalidation, not a
      shutdown, not a caller letting go. */
  lemma TurnsKeepTheirBridge(s: State, a: Action, b: Bridge)
    requires Reachable(s) && Enabled(s, a) && InUse(s, b)
    ensures b in Step(s, a).killed ==> b in s.killed
  {
    ReachableInvariant(s);
    var c :| c in s.callers && s.callers[c] == Using(b);
    assert RefersTo(s.callers[c], b);
    var t := Step(s, a);
    assert c in t.callers && RefersTo(t.callers[c], b);
  }

  /** No child leaks and, shutdowns apart, none dies early: a bridge is dead
      exactly when nobody refers to it. */
  lemma DeadIffUnreferenced(s: State, b: Bridge)
    requires Reachable(s) && b < s.bridges && b !in s.stopped
    ensures b in s.killed <==> !Referenced(s, b)
  {
    ReachableInvariant(s);
  }

  /** The cached bridge itself is always alive. */
  lemma CachedBridgeIsAlive(s: State)
    requires Reachable(s) && s.slot.Some?
    ensures s.slot.value !in s.killed
  {
    ReachableInvariant(s);
    if s.slot.value in s.killed {
      assert Referenced(s, s.slot.value);
    }
  }

  // ---------------------------------------------------------------- acquiring

  /** An acquire that finds a cached bridge hands it out at once. */
  lemma LookupTakesTheCached(s: State, c: Caller, b: Bridge)
    requires Enabled(s, Lookup(c)) && s.slot == Some(b)
    ensures var t := Step(s, Lookup(c));
            && t.callers == s.callers[c := Holding(b)] && t.returned == s.returned + [Return(s.epoch, b)]
            && t.bridges == s.bridges && t.slot == s.slot && t.killed == s.killed && t.epoch == s.epoch
  {
  }

  /** One that finds none hands out nothing and begins a spawn. */
  lemma LookupOfNothingSpawns(s: State, c: Caller)
    requires Enabled(s, Lookup(c)) && s.slot.None?
    ensures var t := Step(s, Lookup(c));
            && t.callers == s.callers[c := Spawning(s.epoch)] && t.returned == s.returned
            && t.bridges == s.bridges && t.slot == s.slot && t.killed == s.killed && t.epoch == s.epoch
  {
  }

  /** The first spawn to be published is cached and handed out. */
  lemma FirstPublishIsCached(s: State, c: Caller)
    requires Enabled(s, Publish(c)) && s.slot.None?
    ensures var own := s.callers[c].bridge;
            var t := Step(s, Publish(c));
            && t.slot == Some(own) && t.callers == s.callers[c := Holding(own)]
            && t.returned == s.returned + [Return(s.epoch, own)] && t.killed == s.killed && t.epoch == s.epoch
  {
  }

  /** A caller has its bridge or, having let go of it, none. */
  predicate HasOnly(s: State, c: Caller, b: Bridge) {
    c in s.callers ==> s.callers[c] == Holding(b) || s.callers[c] == Using(b)
  }

  predicate StartsAnew(a: Action, c: Caller) {
    a == Lookup(c) || a == ShutdownTake(c)
  }

  lemma StepKeepsOnly(s: State, a: Action, c: Caller, b: Bridge)
    requires HasOnly(s, c, b) && Enabled(s, a) && !StartsAnew(a, c)
    ensures HasOnly(Step(s, a), c, b)
    ensures a != Spawn(c) && a != Publish(c) && forall child :: a != SpawnFails(c, child)
  {
    hide Referenced, InUse;
  }

  lemma {:induction false} RunKeepsOnly(s: State, actions: seq<Action>, t: State, c: Caller, b: Bridge)
    requires HasOnly(s, c, b) && Runs(s, actions, t) && forall a | a in actions :: !StartsAnew(a, c)
    ensures HasOnly(t, c, b)
    ensures Spawn(c) !in actions && Publish(c) !in actions && forall child :: SpawnFails(c, child) !in actions
    decreases |actions|
  {
    hide Enabled, Step, HasOnly;
    if actions != [] {
      assert actions == [actions[0]] + actions[1..];
      assert actions[0] in actions;
      StepKeepsOnly(s, actions[0], c, b);
      RunKeepsOnly(Step(s, actions[0]), actions[1..], t, c, b);
    }
  }

  /** Every acquire that begins with a full slot returns the cached bridge: in
      no continuation does that caller spawn, publish or fail before it asks
      again, and as long as it holds a bridge it is that one. */
  lemma CachedBridgeIsUsed(s: State, c: Caller, b: Bridge, actions: seq<Action>, t: State)
    requires Enabled(s, Lookup(c)) && s.slot == Some(b)
    requires Runs(Step(s, Lookup(c)), actions, t) && forall a | a in actions :: !StartsAnew(a, c)
    ensures Return(s.epoch, b) == Step(s, Lookup(c)).returned[|s.returned|]
    ensures c in t.callers ==> t.callers[c] == Holding(b) || t.callers[c] == Using(b)
    ensures Spawn(c) !in actions && Publish(c) !in actions && forall child :: SpawnFails(c, child) !in actions
  {
    LookupTakesTheCached(s, c, b);
    RunKeepsOnly(Step(s, Lookup(c)), actions, t, c, b);
  }

  // -------------------------------------------------------------- the mutex

  ghost predicate OneUser(s: State) {
    forall c, d, b | c in s.callers && d in s.callers && s.callers[c] == Using(b) && s.callers[d] == Using(b) :: c == d
  }

  lemma StepKeepsOneUser(s: State, a: Action)
    requires OneUser(s) && Enabled(s, a)
    ensures OneUser(Step(s, a))
  {
    hide Referenced;
  }

  lemma {:induction false} RunKeepsOneUser(s: State, actions: seq<Action>, t: State)
    requires OneUser(s) && Runs(s, actions, t)
    ensures OneUser(t)
    decreases |actions|
  {
    if actions != [] {
      StepKeepsOneUser(s, actions[0]);
      RunKeepsOneUser(Step(s, actions[0]), actions[1..], t);
    }
  }

  /** A bridge runs one turn at a time. */
  lemma OneTurnAtATime(s: State, c: Caller, d: Caller, b: Bridge)
    requires Reachable(s) && c in s.callers && d in s.callers
    requires s.callers[c] == Using(b) && s.callers[d] == Using(b)
    ensures c == d
  {
    var actions :| Runs(INITIAL, actions, s);
    RunKeepsOneUser(INITIAL, actions, s);
  }

  /** A shutdown takes the cached bridge out of the slot and keeps it alive; it
      kills it only once no turn is using it, and then for good. */
  lemma ShutdownWaitsThenKills(s: State, c: Caller, b: Bridge)
    ensures Enabled(s, ShutdownTake(c)) && s.slot == Some(b) ==>
              var t := Step(s, ShutdownTake(c));
              t.slot.None? && t.callers == s.callers[c := Stopping(b)] && t.killed == s.killed
    ensures c in s.callers && s.callers[c] == Stopping(b) ==>
              && (Enabled(s, ShutdownKill(c)) <==> !InUse(s, b))
              && (Enabled(s, ShutdownKill(c)) ==>
                    var t := Step(s, ShutdownKill(c)); b in t.killed && c !in t.callers && t.slot == s.slot)
  {
  }

  /** A failed spawn leaves nothing behind: no child lives, nobody's bridge and
      not the slot has changed, and the caller may ask again. */
  lemma FailedSpawnLeavesNothing(s: State, c: Caller, child: bool)
    requires Enabled(s, SpawnFails(c, child))
    ensures var t := Step(s, SpawnFails(c, child));
            && t.callers == s.callers - {c} && t.slot == s.slot && t.returned == s.returned && t.epoch == s.epoch
            && Enabled(t, Lookup(c))
            && (forall b | s.bridges <= b < t.bridges :: b in t.killed)
            && (forall b | b < s.bridges :: b in t.killed <==> b in s.killed)
  {
  }

  /** A turn leaves no trace on the slot: locking a bridge and unlocking it again
      is as if it had not been, and in between nobody else can lock it. */
  lemma TurnLeavesNoTrace(s: State, c: Caller)
    requires Enabled(s, Lock(c))
    ensures var b, t := s.callers[c].bridge, Step(s, Lock(c));
            && t == s.(callers := s.callers[c := Using(b)])
            && (forall d | d in t.callers && t.callers[d] == Holding(b) :: !Enabled(t, Lock(d)))
            && Enabled(t, Unlock(c)) && Step(t, Unlock(c)) == s
  {
    var b, t := s.callers[c].bridge, Step(s, Lock(c));
    assert t.callers[c] == Using(b);
    assert InUse(t, b);
    assert Step(t, Unlock(c)).callers == s.callers;
  }

  /** An invalidation empties the slot, takes a bridge from nobody, and kills the
      cached one exactly if nobody holds it. */
  lemma InvalidateOnlyEmptiesTheSlot(s: State)
    ensures var t := Step(s, Invalidate);
            && t.slot.None? && t.callers == s.callers && t.returned == s.returned && t.bridges == s.bridges
            && forall b :: b in t.killed <==>
                 b in s.killed || (s.slot == Some(b) && forall c | c in s.callers :: !RefersTo(s.callers[c], b))
  {
  }

  // --------------------------------------------------------------- freshness

  /** A step that clears the slot: a shutdown does so only if it is full. */
  predicate Clears(s: State, a: Action) {
    a.Invalidate? || (a.ShutdownTake? && s.slot.Some?)
  }

  predicate NobodySpawns(s: State) {
    forall c | c in s.callers :: !IsSpawning(s.callers[c])
  }

  /** The cached bridge, if any, was spawned after the slot was last cleared. */
  predicate IsFresh(s: State) {
    s.slot.Some? ==> s.slot.value in s.born && s.born[s.slot.value] == s.epoch
  }

  /** A run in which the slot is never cleared. */
  ghost predicate NeverClears(s: State, actions: seq<Action>)
    decreases |actions|
  {
    actions != [] && Enabled(s, actions[0]) ==>
      !Clears(s, actions[0]) && NeverClears(Step(s, actions[0]), actions[1..])
  }

  /** Spawns began in the past. */
  ghost predicate BirthsArePast(s: State) {
    && (forall b | b in s.born :: b < s.bridges && s.born[b] <= s.epoch)
    && (forall c | c in s.callers && s.callers[c].Spawning? :: s.callers[c].since <= s.epoch)
    && (forall c | c in s.callers && s.callers[c].Spawned? :: s.callers[c].bridge in s.born)
  }

  lemma StepKeepsBirths(s: State, a: Action)
    requires BirthsArePast(s) && Enabled(s, a)
    ensures BirthsArePast(Step(s, a))
  {
    hide Referenced, InUse;
  }

  lemma {:induction false} RunKeepsBirths(s: State, actions: seq<Action>, t: State)
    requires BirthsArePast(s) && Runs(s, actions, t)
    ensures BirthsArePast(t)
    decreases |actions|
  {
    if actions != [] {
      StepKeepsBirths(s, actions[0]);
      RunKeepsBirths(Step(s, actions[0]), actions[1..], t);
    }
  }

  /** How a spawn goes on to be cached. */
  function PublishesNext(s: State, c: Caller): seq<Action>
    requires c in s.callers
  {
    if s.callers[c].Spawning? then [Spawn(c), Publish(c)] else [Publish(c)]
  }

  /** Into an empty slot a spawn is published whatever epoch it began in. */
  lemma SpawnIsPublished(s: State, c: Caller) returns (t: State)
    requires BirthsArePast(s) && s.slot.None? && c in s.callers && IsSpawning(s.callers[c])
    ensures var actions := PublishesNext(s, c); Runs(s, actions, t) && NeverClears(s, actions)
    ensures t.epoch == s.epoch && t.slot.Some? && t.slot.value in t.born
    ensures t.born[t.slot.value] ==
              match s.callers[c] case Spawning(since) => since case Spawned(b) => s.born[b]
  {
    var actions := PublishesNext(s, c);
    if s.callers[c].Spawning? {
      var u := Step(s, Spawn(c));
      t := Step(u, Publish(c));
      assert actions[1..] == [Publish(c)] && actions[1..][1..] == [];
      assert Runs(t, [], t) && Runs(u, actions[1..], t);
    } else {
      t := Step(s, Publish(c));
      assert actions[1..] == [] && Runs(t, [], t);
    }
  }

  lemma ReachableBirths(s: State)
    requires Reachable(s)
    ensures BirthsArePast(s)
  {
    var actions :| Runs(INITIAL, actions, s);
    RunKeepsBirths(INITIAL, actions, s);
  }

  /** Every spawn that a clearing overtakes, an invalidation or a shutdown, can
      be cached after it all the same: the slot then holds a bridge older than
      the clearing. */
  lemma OvertakenSpawnIsCachedStale(s: State, a: Action, c: Caller) returns (t: State)
    requires Reachable(s) && Enabled(s, a) && Clears(s, a)
    requires c in s.callers && IsSpawning(s.callers[c])
    ensures var u := Step(s, a);
            && c in u.callers && IsSpawning(u.callers[c])
            && Runs(u, PublishesNext(u, c), t) && NeverClears(u, PublishesNext(u, c))
    ensures t.slot.Some? && t.slot.value in t.born && t.born[t.slot.value] < t.epoch
  {
    ReachableBirths(s);
    StepKeepsBirths(s, a);
    var u := Step(s, a);
    assert u.slot.None? && u.epoch == s.epoch + 1 && u.callers[c] == s.callers[c] && u.born == s.born;
    t := SpawnIsPublished(u, c);
  }

  ghost predicate SpawnsAreCurrent(s: State) {
    && (forall c | c in s.callers && s.callers[c].Spawning? :: s.callers[c].since == s.epoch)
    && (forall c | c in s.callers && s.callers[c].Spawned? ::
          s.callers[c].bridge in s.born && s.born[s.callers[c].bridge] == s.epoch)
    && IsFresh(s)
  }

  lemma StepStaysCurrent(s: State, a: Action)
    requires ReferencesAreSound(s) && SpawnsAreCurrent(s) && Enabled(s, a)
    requires Clears(s, a) ==> NobodySpawns(s)
    ensures SpawnsAreCurrent(Step(s, a))
  {
    hide Referenced, InUse;
  }

  /** A run in which the slot is cleared only while nobody is spawning. */
  ghost predicate ClearsBetweenSpawns(s: State, actions: seq<Action>)
    decreases |actions|
  {
    actions != [] && Enabled(s, actions[0]) ==>
      && (Clears(s, actions[0]) ==> NobodySpawns(s))
      && ClearsBetweenSpawns(Step(s, actions[0]), actions[1..])
  }

  lemma {:induction false} RunStaysCurrent(s: State, actions: seq<Action>, t: State)
    requires Invariant(s) && SpawnsAreCurrent(s) && ClearsBetweenSpawns(s, actions) && Runs(s, actions, t)
    ensures SpawnsAreCurrent(t)
    decreases |actions|
  {
    if actions != [] {
      var a := actions[0];
      StepKeepsReferences(s, a);
      StepKeepsReturns(s, a);
      StepKeepsChildren(s, a);
      StepStaysCurrent(s, a);
      RunStaysCurrent(Step(s, a), actions[1..], t);
    }
  }

  lemma {:induction false} NeverClearingIsBetweenSpawns(s: State, actions: seq<Action>)
    requires NeverClears(s, actions)
    ensures ClearsBetweenSpawns(s, actions)
    decreases |actions|
  {
    if actions != [] && Enabled(s, actions[0]) {
      NeverClearingIsBetweenSpawns(Step(s, actions[0]), actions[1..]);
    }
  }

  /** Until the next clearing, whatever is cached is fresh. */
  ghost predicate StaysFresh(s: State) {
    forall actions, t | Runs(s, actions, t) && NeverClears(s, actions) :: IsFresh(t)
  }

  /** After an invalidation or a shutdown every cached bridge is fresh, in
      every continuation up to the next clearing, exactly when no caller was
      spawning at that step. */
  lemma FreshAfterClearingIff(s: State, a: Action)
    requires Reachable(s) && Enabled(s, a) && Clears(s, a)
    ensures StaysFresh(Step(s, a)) <==> NobodySpawns(s)
  {
    var u := Step(s, a);
    if NobodySpawns(s) {
      ClearedIsCurrent(s, a);
      forall actions, t | Runs(u, actions, t) && NeverClears(u, actions)
        ensures IsFresh(t)
      {
        NeverClearingIsBetweenSpawns(u, actions);
        RunStaysCurrent(u, actions, t);
      }
    } else {
      var c :| c in s.callers && IsSpawning(s.callers[c]);
      var t := OvertakenSpawnIsCachedStale(s, a, c);
      assert !IsFresh(t);
    }
  }

  lemma ClearedIsCurrent(s: State, a: Action)
    requires Reachable(s) && Enabled(s, a) && Clears(s, a) && NobodySpawns(s)
    ensures Invariant(Step(s, a)) && SpawnsAreCurrent(Step(s, a))
  {
    hide Referenced, InUse;
    ReachableInvariant(s);
    StepKeepsReferences(s, a);
    StepKeepsReturns(s, a);
    StepKeepsChildren(s, a);
  }

  /** When no clearing overtakes a spawn, the cached bridge was always spawned
      after the last clearing. */
  lemma CachedBridgeIsFresh(actions: seq<Action>, s: State)
    requires Runs(INITIAL, actions, s) && ClearsBetweenSpawns(INITIAL, actions)
    ensures IsFresh(s)
  {
    RunStaysCurrent(INITIAL, actions, s);
  }
}
