// The build-model reload loop: triggers are debounced, at most one import runs at a time, and
// a trigger that arrives during an import is served by another round after it.
module ReloadLoop {
  import opened Seqs

  const DEFAULT_RELOAD_DEBOUNCE: nat := 900

  datatype Capability = Unsupported | Supported
  datatype ReloadState = Unmanaged | Idle | Debouncing | Importing | Failed
  type Tool = nat

  datatype Status = Status(capability: Capability, detectedTool: Option<Tool>, reloadState: ReloadState, generation: nat, failed: bool)

  datatype Round = Round(generation: nat, startedAt: nat)

  // The loop's locals and published status at the head of the loop; `rounds`, `lastTrigger`
  // and `applied` are history.
  datatype State = State(
    now: nat,
    generation: nat,
    dirty: bool,
    debounce: Option<nat>,
    inFlight: Option<nat>,
    status: Status,
    lastTrigger: nat,
    rounds: seq<Round>,
    applied: seq<nat>)

  const INITIAL_STATUS := Status(Unsupported, None, Unmanaged, 0, false)
  const INIT := State(0, 0, false, None, None, INITIAL_STATUS, 0, [], [])

  datatype Outcome = Applied(tool: Tool) | ApplyFailed | ImportFailed

  // `took` is the time an arm of the select spends awaiting.
  datatype Event =
    | Tick(elapsed: nat)
    | Trigger
    | DebounceOver(detected: Option<Tool>, fallbackIndexed: bool, took: nat)
    | ImportDone(outcome: Outcome, took: nat)

  predicate Enabled(s: State, e: Event) {
    match e
    case Tick(_) => true
    case Trigger => true
    case DebounceOver(_, _, _) => s.debounce.Some? && s.inFlight.None? && s.now >= s.debounce.value
    case ImportDone(_, _) => s.inFlight.Some?
  }

  function Next(s: State, e: Event): State
    requires Enabled(s, e)
  {
    match e
    case Tick(elapsed) => s.(now := s.now + elapsed)
    case Trigger =>
      s.(dirty := true, debounce := Some(s.now + DEFAULT_RELOAD_DEBOUNCE), lastTrigger := s.now,
         status := s.status.(reloadState := if s.inFlight.Some? then Importing else Debouncing))
    case DebounceOver(detected, fallbackIndexed, took) =>
      if !s.dirty then s.(debounce := None)
      else
        var t := s.(dirty := false, debounce := None, generation := s.generation + 1, now := s.now + took,
                    rounds := s.rounds + [Round(s.generation + 1, s.now)]);
        if detected.None?
        then t.(status := Status(Unsupported, None, if fallbackIndexed then Unmanaged else Failed, s.status.generation, !fallbackIndexed))
        else t.(status := Status(Supported, detected, Importing, s.status.generation, false), inFlight := Some(s.generation + 1))
    case ImportDone(outcome, took) =>
      var now := s.now + took;
      var t := s.(inFlight := None, now := now);
      var done :=
        match outcome
        case Applied(tool) =>
          t.(status := Status(Supported, Some(tool), if s.dirty then Debouncing else Idle, s.inFlight.value, false),
             applied := s.applied + [s.inFlight.value])
        case _ => t.(status := s.status.(reloadState := Failed, failed := true));
      if s.dirty
      then done.(debounce := Some(now + DEFAULT_RELOAD_DEBOUNCE), status := done.status.(reloadState := Debouncing))
      else done
  }

  class Service {
    var now: nat
    var generation: nat
    var dirty: bool
    var debounce: Option<nat>
    var inFlight: Option<nat>
    var status: Status
    ghost var lastTrigger: nat
    ghost var rounds: seq<Round>
    ghost var applied: seq<nat>

    ghost function Current(): State
      reads this
    {
      State(now, generation, dirty, debounce, inFlight, status, lastTrigger, rounds, applied)
    }

    constructor ()
      ensures Current() == INIT
    {
      now, generation, dirty, debounce, inFlight := 0, 0, false, None, None;
      status := INITIAL_STATUS;
      lastTrigger, rounds, applied := 0, [], [];
    }

    method OnTrigger()
      modifies this
      ensures Current() == Next(old(Current()), Trigger)
    {
      dirty := true;
      debounce := Some(now + DEFAULT_RELOAD_DEBOUNCE);
      status := status.(reloadState := if inFlight.Some? then Importing else Debouncing);
      lastTrigger := now;
    }

    method OnDebounceOver(detected: Option<Tool>, fallbackIndexed: bool, took: nat)
      requires Enabled(Current(), DebounceOver(detected, fallbackIndexed, took))
      modifies this
      ensures Current() == Next(old(Current()), DebounceOver(detected, fallbackIndexed, took))
    {
      if !dirty {
        debounce := None;
        return;
      }
      dirty, debounce := false, None;
      generation := generation + 1;
      rounds := rounds + [Round(generation, now)];
      status := status.(detectedTool := detected, capability := if detected.Some? then Supported else Unsupported);
      now := now + took;
      if detected.None? {
        status := status.(reloadState := Unmanaged, failed := false);
        if !fallbackIndexed {
          status := status.(reloadState := Failed, failed := true);
        }
        return;
      }
      status := status.(reloadState := Importing, failed := false);
      inFlight := Some(generation);
    }

    method OnImportDone(outcome: Outcome, took: nat)
      requires Enabled(Current(), ImportDone(outcome, took))
      modifies this
      ensures Current() == Next(old(Current()), ImportDone(outcome, took))
    {
      var imported := inFlight.value;
      inFlight := None;
      now := now + took;
      match outcome {
        case Applied(tool) =>
          status := Status(Supported, Some(tool), if dirty then Debouncing else Idle, imported, false);
          applied := applied + [imported];
        case ApplyFailed => status := status.(reloadState := Failed, failed := true);
        case ImportFailed => status := status.(reloadState := Failed, failed := true);
      }
      if dirty {
        debounce := Some(now + DEFAULT_RELOAD_DEBOUNCE);
        status := status.(reloadState := Debouncing);
      }
    }
  }

  // ---- runs

  ghost predicate Runs(s: State, events: seq<Event>)
    decreases |events|, 0
  {
    events == [] || (Runs(s, Front(events)) && Enabled(After(s, Front(events)), Last(events)))
  }

  ghost function After(s: State, events: seq<Event>): State
    requires Runs(s, events)
    decreases |events|, 1
  {
    if events == [] then s else Next(After(s, Front(events)), Last(events))
  }

  // What the published status and the loop's locals say about each other at the loop head.
  ghost predicate LoopHead(s: State) {
    && (s.dirty <==> s.debounce.Some?)
    && (s.status.reloadState == Importing <==> s.inFlight.Some?)
    && (s.status.reloadState == Debouncing <==> s.dirty && s.inFlight.None?)
    && (s.inFlight.Some? ==> s.inFlight.value == s.generation > 0)
    && s.lastTrigger <= s.now
    && (s.dirty ==> s.debounce.value >= s.lastTrigger + 900)
  }

  ghost predicate RoundsInStep(s: State) {
    && |s.rounds| == s.generation
    && (forall i :: 0 <= i < |s.rounds| ==> s.rounds[i].generation == i + 1)
  }

  // Applied generations strictly increase and the status shows the last of them.
  ghost predicate AppliedInStep(s: State) {
    && (forall i, j :: 0 <= i < j < |s.applied| ==> s.applied[i] < s.applied[j])
    && (forall i :: 0 <= i < |s.applied| ==> 0 < s.applied[i] <= s.generation)
    && (s.inFlight.Some? ==> forall i :: 0 <= i < |s.applied| ==> s.applied[i] < s.inFlight.value)
    && s.status.generation == if s.applied == [] then 0 else Last(s.applied)
  }

  lemma {:induction false} ReachableLoopHeads(events: seq<Event>)
    requires Runs(INIT, events)
    ensures LoopHead(After(INIT, events)) && RoundsInStep(After(INIT, events)) && AppliedInStep(After(INIT, events))
  {
    if events != [] {
      ReachableLoopHeads(Front(events));
      StepKeepsLoopHead(After(INIT, Front(events)), Last(events));
    }
  }

  lemma {:induction false} StepKeepsHead(s: State, e: Event)
    requires LoopHead(s) && Enabled(s, e)
    ensures LoopHead(Next(s, e))
  {
  }

  lemma {:induction false} StepKeepsRounds(s: State, e: Event)
    requires RoundsInStep(s) && Enabled(s, e)
    ensures RoundsInStep(Next(s, e))
  {
  }

  lemma {:induction false} StepKeepsApplied(s: State, e: Event)
    requires LoopHead(s) && AppliedInStep(s) && Enabled(s, e)
    ensures AppliedInStep(Next(s, e))
  {
  }

  lemma {:induction false} StepKeepsLoopHead(s: State, e: Event)
    requires LoopHead(s) && RoundsInStep(s) && AppliedInStep(s) && Enabled(s, e)
    ensures LoopHead(Next(s, e)) && RoundsInStep(Next(s, e)) && AppliedInStep(Next(s, e))
  {
    StepKeepsHead(s, e);
    StepKeepsRounds(s, e);
    StepKeepsApplied(s, e);
  }

  // ---- what the status tells

  // The last event that ended a debounce or an import, if any.
  ghost function LastEffort(events: seq<Event>): Option<Event> {
    if events == [] then None
    else if Last(events).DebounceOver? || Last(events).ImportDone? then Some(Last(events))
    else LastEffort(Front(events))
  }

  // The tool last detected or applied; an import that fails does not touch it.
  ghost function LastTool(events: seq<Event>): Option<Tool> {
    if events == [] then None
    else match Last(events)
      case DebounceOver(detected, _, _) => detected
      case ImportDone(Applied(tool), _) => Some(tool)
      case _ => LastTool(Front(events))
  }

  ghost predicate Tells(status: Status, effort: Option<Event>, tool: Option<Tool>, dirty: bool) {
    && status.detectedTool == tool && (status.capability == Supported <==> tool.Some?)
    && match effort
       case None => !status.failed && (!dirty ==> status.reloadState == Unmanaged)
       case Some(DebounceOver(None, indexed, _)) =>
         status.failed == !indexed && (!dirty ==> status.reloadState == if indexed then Unmanaged else Failed)
       case Some(DebounceOver(Some(_), _, _)) => !status.failed && status.reloadState == Importing
       case Some(ImportDone(Applied(_), _)) => !status.failed && (!dirty ==> status.reloadState == Idle)
       case Some(ImportDone(_, _)) => status.failed && tool.Some? && (!dirty ==> status.reloadState == Failed)
       case Some(_) => false
  }

  lemma {:induction false} StepTells(s: State, e: Event, effort: Option<Event>, tool: Option<Tool>)
    requires LoopHead(s) && Enabled(s, e) && Tells(s.status, effort, tool, s.dirty)
    requires s.inFlight.Some? <==> effort.Some? && effort.value.DebounceOver? && effort.value.detected.Some?
    requires s.inFlight.Some? ==> tool.Some?
    ensures var t := Next(s, e);
      var effort' := if e.DebounceOver? || e.ImportDone? then Some(e) else effort;
      var tool' := if e.DebounceOver? then e.detected else if e.ImportDone? && e.outcome.Applied? then Some(e.outcome.tool) else tool;
      && Tells(t.status, effort', tool', t.dirty)
      && (t.inFlight.Some? <==> effort'.Some? && effort'.value.DebounceOver? && effort'.value.detected.Some?)
      && (t.inFlight.Some? ==> tool'.Some?)
  {
  }

  // In every reachable state the status shows how the last debounce or import ended: whether it
  // failed, which tool is in charge, and, with no trigger pending, the state it left behind.
  lemma {:induction false} StatusTellsLastEffort(events: seq<Event>)
    requires Runs(INIT, events)
    ensures var s := After(INIT, events);
      && Tells(s.status, LastEffort(events), LastTool(events), s.dirty)
      && (s.inFlight.Some? <==> LastEffort(events).Some? && LastEffort(events).value.DebounceOver? && LastEffort(events).value.detected.Some?)
      && (s.inFlight.Some? ==> LastTool(events).Some?)
  {
    if events != [] {
      StatusTellsLastEffort(Front(events));
      ReachableLoopHeads(Front(events));
      StepTells(After(INIT, Front(events)), Last(events), LastEffort(Front(events)), LastTool(Front(events)));
    }
  }

  // When the debounce was last started: by a trigger, or anew at the end of an import.
  ghost function Restarted(events: seq<Event>): nat
    requires Runs(INIT, events)
  {
    if events == [] then 0
    else match Last(events)
      case Trigger => After(INIT, Front(events)).now
      case ImportDone(_, _) => After(INIT, events).now
      case _ => Restarted(Front(events))
  }

  lemma {:induction false} StepKeepsDeadline(s: State, e: Event)
    requires LoopHead(s) && Enabled(s, e)
    ensures var t := Next(s, e);
      t.debounce == match e
        case Trigger => Some(s.now + 900)
        case ImportDone(_, _) => if s.dirty then Some(t.now + 900) else None
        case DebounceOver(_, _, _) => None
        case Tick(_) => s.debounce
  {
  }

  // A pending trigger waits for exactly the debounce period since then.
  lemma {:induction false} DeadlineExactly(events: seq<Event>)
    requires Runs(INIT, events)
    ensures var s := After(INIT, events);
      s.debounce == if s.dirty then Some(Restarted(events) + 900) else None
  {
    if events != [] {
      DeadlineExactly(Front(events));
      ReachableLoopHeads(Front(events));
      ReachableLoopHeads(events);
      StepKeepsDeadline(After(INIT, Front(events)), Last(events));
    }
  }

  // How a state t relates to an earlier state s with a trigger pending: still pending, or the
  // next round has a larger generation and kept the debounce distance.
  ghost predicate ServedSince(s: State, t: State) {
    && t.lastTrigger >= s.lastTrigger
    && |t.rounds| >= |s.rounds|
    && (|t.rounds| == |s.rounds| ==> t.dirty)
    && (|t.rounds| > |s.rounds| ==>
         && t.rounds[|s.rounds|].generation > s.generation
         && t.rounds[|s.rounds|].startedAt >= s.lastTrigger + 900)
  }

  lemma {:induction false} StepKeepsServing(s: State, t: State, e: Event)
    requires ServedSince(s, t) && LoopHead(t) && Enabled(t, e)
    requires |s.rounds| == s.generation && |t.rounds| == t.generation
    ensures ServedSince(s, Next(t, e))
  {
  }

  // Every trigger is followed by another round before the loop can come to rest.
  lemma {:induction false} TriggerIsServed(s: State, events: seq<Event>)
    requires LoopHead(s) && RoundsInStep(s) && s.dirty && Runs(s, events)
    ensures ServedSince(s, After(s, events))
    ensures LoopHead(After(s, events)) && RoundsInStep(After(s, events))
  {
    if events != [] {
      TriggerIsServed(s, Front(events));
      StepKeepsHead(After(s, Front(events)), Last(events));
      StepKeepsRounds(After(s, Front(events)), Last(events));
      StepKeepsServing(s, After(s, Front(events)), Last(events));
    }
  }

  ghost predicate Quiescent(s: State) {
    !s.dirty && s.inFlight.None?
  }

  ghost function Measure(s: State): nat {
    (if s.dirty then 2 else 0) + (if s.inFlight.Some? then 1 else 0)
  }

  ghost function Work(events: seq<Event>): nat {
    if events == [] then 0
    else Work(Front(events)) + (if Last(events).DebounceOver? || Last(events).ImportDone? then 1 else 0)
  }

  // Once triggers stop, every round started and every import finished lowers the measure ...
  lemma {:induction false} WorkRunsOut(s: State, events: seq<Event>)
    requires LoopHead(s) && Runs(s, events)
    requires forall e :: e in events ==> !e.Trigger?
    ensures LoopHead(After(s, events))
    ensures Measure(After(s, events)) + Work(events) <= Measure(s) <= 3
  {
    if events != [] {
      assert events == Front(events) + [Last(events)];
      WorkRunsOut(s, Front(events));
      StepKeepsHead(After(s, Front(events)), Last(events));
    }
  }

  // ... and a loop with work left can always do some of it once time has passed, so a loop that
  // nothing but time can move is quiescent.
  lemma {:induction false} NotStuck(s: State)
    requires LoopHead(s)
    ensures Quiescent(s) <==> Measure(s) == 0
    ensures !Quiescent(s) ==> exists wait: nat, e: Event ::
      (e.DebounceOver? || e.ImportDone?) && Enabled(Next(s, Tick(wait)), e)
  {
    if s.inFlight.Some? {
      assert Enabled(Next(s, Tick(0)), ImportDone(ImportFailed, 0));
    } else if s.dirty {
      assert Enabled(Next(s, Tick(s.debounce.value)), DebounceOver(None, true, 0));
    }
  }
}
