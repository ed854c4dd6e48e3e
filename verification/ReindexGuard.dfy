// Overlap detection between full reindexes and filesystem applies: a counter of reindexes in
// progress and a serial bumped at both ends of each, read around every apply. Any number of
// each may be under way; every shared access is one step, and the clock numbers the steps.
module ReindexGuard {
  import opened Seqs

  type ReindexId = nat
  type ApplyId = nat

  datatype Reindex = Reindex(
    countedAt: nat,
    announcedAt: Option<nat>,
    scannedAt: Option<nat>,
    publishedAt: Option<nat>,
    bumpedAt: Option<nat>,
    doneAt: Option<nat>)

  datatype Apply = Apply(
    idleSeen: bool,
    firstRead: Option<nat>,
    firstSerial: nat,
    idleAtFirstRead: bool,
    quietAtFirstRead: bool,
    beganAt: Option<nat>,
    updatedAt: set<nat>,
    endedAt: Option<nat>,
    secondRead: Option<nat>,
    secondSerial: nat)

  // What follows an apply that noticed a reindex, once it has waited a second time.
  datatype Rescan = Rescan(beganAt: Option<nat>, endedAt: Option<nat>)

  datatype State = State(
    clock: nat,
    inProgress: nat,
    serial: nat,
    reindexes: map<ReindexId, Reindex>,
    applies: map<ApplyId, Apply>,
    rescans: map<ApplyId, Rescan>)

  const INIT := State(0, 0, 0, map[], map[], map[])
  const NEW_APPLY := Apply(false, None, 0, false, false, None, {}, None, None, 0)

  datatype Step =
    // begin_full_reindex, then the body, then the guard's drop
    | Count(r: ReindexId)
    | Announce(r: ReindexId)
    | Scan(r: ReindexId)
    | Publish(r: ReindexId)
    | BumpOnDrop(r: ReindexId)
    | Uncount(r: ReindexId)
    // apply_workspace_changes
    | SeeIdle(a: ApplyId)
    | ReadFirstSerial(a: ApplyId)
    | Begin(a: ApplyId)
    | UpdateIndex(a: ApplyId)
    | End(a: ApplyId)
    | ReadSecondSerial(a: ApplyId)
    | SeeIdleAgain(a: ApplyId)
    | BeginRescan(a: ApplyId)
    | EndRescan(a: ApplyId)

  predicate Enabled(s: State, step: Step) {
    match step
    case Count(r) => r !in s.reindexes
    case Announce(r) => r in s.reindexes && s.reindexes[r].announcedAt.None?
    case Scan(r) => r in s.reindexes && s.reindexes[r].announcedAt.Some? && s.reindexes[r].scannedAt.None? && s.reindexes[r].bumpedAt.None?
    case Publish(r) => r in s.reindexes && s.reindexes[r].scannedAt.Some? && s.reindexes[r].publishedAt.None? && s.reindexes[r].bumpedAt.None?
    // an error drops the guard without publishing
    case BumpOnDrop(r) => r in s.reindexes && s.reindexes[r].announcedAt.Some? && s.reindexes[r].bumpedAt.None?
    case Uncount(r) => r in s.reindexes && s.reindexes[r].bumpedAt.Some? && s.reindexes[r].doneAt.None? && s.inProgress > 0
    case SeeIdle(a) => a !in s.applies && s.inProgress == 0
    case ReadFirstSerial(a) => a in s.applies && s.applies[a].firstRead.None?
    case Begin(a) => a in s.applies && s.applies[a].firstRead.Some? && s.applies[a].beganAt.None?
    case UpdateIndex(a) => a in s.applies && s.applies[a].beganAt.Some? && s.applies[a].endedAt.None?
    case End(a) => a in s.applies && s.applies[a].beganAt.Some? && s.applies[a].endedAt.None?
    case ReadSecondSerial(a) => a in s.applies && s.applies[a].endedAt.Some? && s.applies[a].secondRead.None?
    // only when the serials differ; nothing is read after the rescan
    case SeeIdleAgain(a) =>
      && a in s.applies && s.applies[a].secondRead.Some? && s.applies[a].secondSerial != s.applies[a].firstSerial
      && a !in s.rescans && s.inProgress == 0
    case BeginRescan(a) => a in s.rescans && s.rescans[a].beganAt.None?
    case EndRescan(a) => a in s.rescans && s.rescans[a].beganAt.Some? && s.rescans[a].endedAt.None?
  }

  // Announced, and still able to replace the index.
  predicate Looming(r: Reindex) {
    r.announcedAt.Some? && r.publishedAt.None? && r.bumpedAt.None?
  }

  predicate Quiet(reindexes: map<ReindexId, Reindex>) {
    forall r :: r in reindexes ==> !Looming(reindexes[r])
  }

  function Next(s0: State, step: Step): State
    requires Enabled(s0, step)
  {
    var now := s0.clock + 1;
    var s := s0.(clock := now);
    match step
    case Count(r) => s.(inProgress := s.inProgress + 1, reindexes := s.reindexes[r := Reindex(now, None, None, None, None, None)])
    case Announce(r) => s.(serial := s.serial + 1, reindexes := s.reindexes[r := s.reindexes[r].(announcedAt := Some(now))])
    case Scan(r) => s.(reindexes := s.reindexes[r := s.reindexes[r].(scannedAt := Some(now))])
    case Publish(r) => s.(reindexes := s.reindexes[r := s.reindexes[r].(publishedAt := Some(now))])
    case BumpOnDrop(r) => s.(serial := s.serial + 1, reindexes := s.reindexes[r := s.reindexes[r].(bumpedAt := Some(now))])
    case Uncount(r) => s.(inProgress := s.inProgress - 1, reindexes := s.reindexes[r := s.reindexes[r].(doneAt := Some(now))])
    case SeeIdle(a) => s.(applies := s.applies[a := NEW_APPLY.(idleSeen := true)])
    case ReadFirstSerial(a) =>
      s.(applies := s.applies[a := s.applies[a].(firstRead := Some(now), firstSerial := s.serial, idleAtFirstRead := s.inProgress == 0,
        quietAtFirstRead := Quiet(s.reindexes))])
    case Begin(a) => s.(applies := s.applies[a := s.applies[a].(beganAt := Some(now))])
    case UpdateIndex(a) => s.(applies := s.applies[a := s.applies[a].(updatedAt := s.applies[a].updatedAt + {now})])
    case End(a) => s.(applies := s.applies[a := s.applies[a].(endedAt := Some(now))])
    case ReadSecondSerial(a) => s.(applies := s.applies[a := s.applies[a].(secondRead := Some(now), secondSerial := s.serial)])
    case SeeIdleAgain(a) => s.(rescans := s.rescans[a := Rescan(None, None)])
    case BeginRescan(a) => s.(rescans := s.rescans[a := s.rescans[a].(beganAt := Some(now))])
    case EndRescan(a) => s.(rescans := s.rescans[a := s.rescans[a].(endedAt := Some(now))])
  }

  ghost predicate Runs(steps: seq<Step>)
    decreases |steps|, 0
  {
    steps == [] || (Runs(Front(steps)) && Enabled(After(Front(steps)), Last(steps)))
  }

  ghost function After(steps: seq<Step>): State
    requires Runs(steps)
    decreases |steps|, 1
  {
    if steps == [] then INIT else Next(After(Front(steps)), Last(steps))
  }

  // The apply finished without noticing a reindex.
  ghost predicate Undetected(a: Apply) {
    a.secondRead.Some? && a.secondSerial == a.firstSerial
  }

  // The reindex read the disk before the apply was over and replaced the index after it began.
  ghost predicate Overlaps(r: Reindex, a: Apply)
    requires a.beganAt.Some? && a.endedAt.Some?
  {
    && r.scannedAt.Some? && r.scannedAt.value < a.endedAt.value
    && r.publishedAt.Some? && r.publishedAt.value > a.beganAt.value
  }

  ghost function Active(reindexes: map<ReindexId, Reindex>): set<ReindexId> {
    set r | r in reindexes && reindexes[r].doneAt.None?
  }

  ghost predicate Before(x: Option<nat>, y: Option<nat>) {
    y.Some? ==> x.Some? && x.value < y.value
  }

  ghost predicate ReindexOk(s: State, r: Reindex) {
    && r.countedAt <= s.clock
    && Before(Some(r.countedAt), r.announcedAt)
    && Before(r.announcedAt, r.scannedAt) && Before(r.scannedAt, r.publishedAt)
    && Before(r.announcedAt, r.bumpedAt) && Before(r.bumpedAt, r.doneAt)
    && (r.publishedAt.Some? && r.bumpedAt.Some? ==> r.publishedAt.value < r.bumpedAt.value)
    && (r.announcedAt.Some? ==> r.announcedAt.value <= s.clock)
    && (r.scannedAt.Some? ==> r.scannedAt.value <= s.clock)
    && (r.publishedAt.Some? ==> r.publishedAt.value <= s.clock)
    && (r.bumpedAt.Some? ==> r.bumpedAt.value <= s.clock)
    && (r.doneAt.Some? ==> r.doneAt.value <= s.clock)
  }

  ghost predicate ApplyOk(s: State, a: Apply) {
    && Before(a.firstRead, a.beganAt) && Before(a.beganAt, a.endedAt) && Before(a.endedAt, a.secondRead)
    && (a.firstRead.Some? ==> a.firstRead.value <= s.clock && a.firstSerial <= s.serial)
    && (a.idleAtFirstRead ==> a.quietAtFirstRead)
    && (a.beganAt.Some? ==> a.beganAt.value <= s.clock)
    && (a.endedAt.Some? ==> a.endedAt.value <= s.clock)
    && (a.secondRead.Some? ==> a.secondRead.value <= s.clock)
    && (forall u :: u in a.updatedAt ==> a.beganAt.Some? && a.beganAt.value < u)
  }

  // Published by then, or dropped without publishing.
  ghost predicate Spent(r: Reindex, time: nat) {
    (r.publishedAt.Some? && r.publishedAt.value <= time) || (r.publishedAt.None? && r.bumpedAt.Some?)
  }

  // What the first read establishes about a reindex and no later step can undo.
  ghost predicate Separated(s: State, r: Reindex, a: Apply) {
    a.firstRead.Some? ==>
      && (a.quietAtFirstRead && r.announcedAt.Some? && r.announcedAt.value <= a.firstRead.value ==> Spent(r, a.firstRead.value))
      && (r.announcedAt.Some? && r.announcedAt.value > a.firstRead.value ==>
           && s.serial > a.firstSerial
           && (Undetected(a) ==> r.announcedAt.value > a.secondRead.value))
  }

  ghost predicate Inv(s: State) {
    && s.inProgress == |Active(s.reindexes)|
    && (forall r :: r in s.reindexes ==> ReindexOk(s, s.reindexes[r]))
    && (forall a :: a in s.applies ==> ApplyOk(s, s.applies[a]))
    && (forall r, a :: r in s.reindexes && a in s.applies ==> Separated(s, s.reindexes[r], s.applies[a]))
  }

  lemma {:induction false} ActiveAfter(m: map<ReindexId, Reindex>, r: ReindexId, x: Reindex)
    ensures Active(m[r := x]) == if x.doneAt.None? then Active(m) + {r} else Active(m) - {r}
  {
  }

  predicate OfReindex(step: Step) {
    step.Count? || step.Announce? || step.Scan? || step.Publish? || step.BumpOnDrop? || step.Uncount?
  }

  lemma {:induction false} CounterAfter(s: State, step: Step)
    requires Enabled(s, step)
    ensures var t := Next(s, step);
      t.inProgress == s.inProgress + (if step.Count? then 1 else if step.Uncount? then -1 else 0)
    ensures var t := Next(s, step);
      if OfReindex(step) then step.r in t.reindexes && t.reindexes == s.reindexes[step.r := t.reindexes[step.r]] else t.reindexes == s.reindexes
    ensures OfReindex(step) ==> (step.r in s.reindexes <==> !step.Count?)
  {
    hide Quiet;
  }

  lemma {:induction false} DoneAfter(s: State, step: Step)
    requires Inv(s) && Enabled(s, step) && OfReindex(step)
    ensures step.r in Next(s, step).reindexes && (Next(s, step).reindexes[step.r].doneAt.Some? <==> step.Uncount?)
    ensures step.r in s.reindexes ==> s.reindexes[step.r].doneAt.None?
  {
    hide Inv, Quiet;
    if step.r in s.reindexes {
      InvReindex(s, step.r);
    }
  }

  lemma {:induction false} ActiveCounted(s: State, step: Step)
    requires Inv(s) && Enabled(s, step)
    ensures Next(s, step).inProgress == |Active(Next(s, step).reindexes)|
  {
    hide Separated, ApplyOk, ReindexOk, Next, Enabled;
    var t := Next(s, step);
    CounterAfter(s, step);
    if OfReindex(step) {
      DoneAfter(s, step);
      ActiveAfter(s.reindexes, step.r, t.reindexes[step.r]);
      assert step.r in Active(s.reindexes) <==> !step.Count?;
      if step.r in Active(s.reindexes) && !step.Uncount? {
        assert Active(t.reindexes) == Active(s.reindexes);
      }
    }
  }

  lemma {:induction false} IdleIsQuiet(s: State)
    requires Inv(s) && s.inProgress == 0
    ensures Quiet(s.reindexes)
  {
    forall r | r in s.reindexes ensures !Looming(s.reindexes[r]) {
      assert r !in Active(s.reindexes);
      assert ReindexOk(s, s.reindexes[r]);
    }
  }

  lemma {:induction false} LaterKeepsReindex(s: State, t: State, r: Reindex)
    requires ReindexOk(s, r) && s.clock <= t.clock
    ensures ReindexOk(t, r)
  {
  }

  lemma {:induction false} ReindexesStayOk(s: State, step: Step, r: ReindexId)
    requires Inv(s) && Enabled(s, step) && r in Next(s, step).reindexes
    ensures ReindexOk(Next(s, step), Next(s, step).reindexes[r])
  {
    hide Inv, Separated, ApplyOk;
    var t := Next(s, step);
    if r in s.reindexes {
      InvReindex(s, r);
      if t.reindexes[r] == s.reindexes[r] {
        hide Next, Enabled;
        LaterKeepsReindex(s, t, s.reindexes[r]);
      }
    }
  }

  lemma {:induction false} InvReindex(s: State, r: ReindexId)
    requires Inv(s) && r in s.reindexes
    ensures ReindexOk(s, s.reindexes[r])
  {
  }

  lemma {:induction false} InvApply(s: State, a: ApplyId)
    requires Inv(s) && a in s.applies
    ensures ApplyOk(s, s.applies[a])
  {
  }

  lemma InvSeparated(s: State, r: ReindexId, a: ApplyId)
    requires Inv(s) && r in s.reindexes && a in s.applies
    ensures Separated(s, s.reindexes[r], s.applies[a])
  {
  }

  lemma {:induction false} LaterKeepsApply(s: State, t: State, a: Apply)
    requires ApplyOk(s, a) && s.clock <= t.clock && s.serial <= t.serial
    ensures ApplyOk(t, a)
  {
  }

  lemma {:induction false} AppliesStayOk(s: State, step: Step, a: ApplyId)
    requires Inv(s) && Enabled(s, step) && a in Next(s, step).applies
    ensures ApplyOk(Next(s, step), Next(s, step).applies[a])
  {
    hide Inv, Separated, ReindexOk;
    var t := Next(s, step);
    if step.ReadFirstSerial? && s.inProgress == 0 {
      IdleIsQuiet(s);
    }
    if a in s.applies {
      InvApply(s, a);
      if t.applies[a] == s.applies[a] {
        LaterKeepsApply(s, t, s.applies[a]);
      }
    }
  }

  lemma {:induction false} ReindexStepSeparates(s: State, step: Step, r: ReindexId, a: ApplyId)
    requires Inv(s) && Enabled(s, step) && OfReindex(step)
    requires r in Next(s, step).reindexes && a in s.applies
    ensures Separated(Next(s, step), Next(s, step).reindexes[r], s.applies[a])
  {
    hide Inv;
    InvApply(s, a);
    if r in s.reindexes {
      InvReindex(s, r);
      InvSeparated(s, r, a);
    }
  }

  lemma {:induction false} ApplyStepSeparates(s: State, step: Step, r: ReindexId, a: ApplyId)
    requires Inv(s) && Enabled(s, step) && !OfReindex(step)
    requires r in s.reindexes && a in Next(s, step).applies
    ensures Separated(Next(s, step), s.reindexes[r], Next(s, step).applies[a])
  {
    hide Inv;
    InvReindex(s, r);
    if a in s.applies {
      InvApply(s, a);
      InvSeparated(s, r, a);
    }
  }

  lemma {:induction false} StaysSeparated(s: State, step: Step, r: ReindexId, a: ApplyId)
    requires Inv(s) && Enabled(s, step)
    requires r in Next(s, step).reindexes && a in Next(s, step).applies
    ensures Separated(Next(s, step), Next(s, step).reindexes[r], Next(s, step).applies[a])
  {
    if OfReindex(step) {
      ReindexStepSeparates(s, step, r, a);
    } else {
      ApplyStepSeparates(s, step, r, a);
    }
  }

  lemma {:induction false} InvHolds(steps: seq<Step>)
    requires Runs(steps)
    ensures Inv(After(steps))
  {
    if steps != [] {
      var s := After(Front(steps));
      InvHolds(Front(steps));
      ActiveCounted(s, Last(steps));
      var t := Next(s, Last(steps));
      forall r | r in t.reindexes ensures ReindexOk(t, t.reindexes[r]) {
        ReindexesStayOk(s, Last(steps), r);
      }
      forall a | a in t.applies ensures ApplyOk(t, t.applies[a]) {
        AppliesStayOk(s, Last(steps), a);
      }
      forall r, a | r in t.reindexes && a in t.applies ensures Separated(t, t.reindexes[r], t.applies[a]) {
        StaysSeparated(s, Last(steps), r, a);
      }
    } else {
      assert Active(INIT.reindexes) == {};
    }
  }

  // In every run: when no reindex loomed at the first serial read and both reads agree, no
  // reindex overlaps the apply, neither then nor later.
  lemma {:induction false} NoUndetectedOverlap(steps: seq<Step>, r: ReindexId, a: ApplyId)
    requires Runs(steps) && r in After(steps).reindexes && a in After(steps).applies
    requires After(steps).applies[a].quietAtFirstRead && Undetected(After(steps).applies[a])
    ensures After(steps).applies[a].beganAt.Some? && After(steps).applies[a].endedAt.Some?
    ensures !Overlaps(After(steps).reindexes[r], After(steps).applies[a])
  {
    InvHolds(steps);
    var s := After(steps);
    assert Separated(s, s.reindexes[r], s.applies[a]);
    assert ReindexOk(s, s.reindexes[r]) && ApplyOk(s, s.applies[a]);
  }

  // A caller can check the counter instead: at zero nothing looms.
  lemma {:induction false} IdleMeansQuiet(steps: seq<Step>)
    requires Runs(steps) && After(steps).inProgress == 0
    ensures Quiet(After(steps).reindexes)
  {
    InvHolds(steps);
    IdleIsQuiet(After(steps));
  }

  // So whichever reindex replaces the index an update went to has scanned the disk after the apply.
  lemma {:induction false} UpdatesAreRescanned(steps: seq<Step>, r: ReindexId, a: ApplyId, u: nat)
    requires Runs(steps) && r in After(steps).reindexes && a in After(steps).applies
    requires After(steps).applies[a].quietAtFirstRead && Undetected(After(steps).applies[a])
    requires u in After(steps).applies[a].updatedAt
    requires After(steps).reindexes[r].publishedAt.Some? && After(steps).reindexes[r].publishedAt.value > u
    ensures After(steps).applies[a].endedAt.Some? && After(steps).reindexes[r].scannedAt.Some?
    ensures After(steps).reindexes[r].scannedAt.value >= After(steps).applies[a].endedAt.value
  {
    InvHolds(steps);
    NoUndetectedOverlap(steps, r, a);
    assert ReindexOk(After(steps), After(steps).reindexes[r]) && ApplyOk(After(steps), After(steps).applies[a]);
  }

  lemma {:induction false} Extend(steps: seq<Step>, step: Step) returns (longer: seq<Step>)
    requires Runs(steps) && Enabled(After(steps), step)
    ensures longer == steps + [step] && Runs(longer) && After(longer) == Next(After(steps), step)
  {
    longer := steps + [step];
    assert Front(longer) == steps;
  }

  // The apply went unnoticed past a reindex that overlaps it.
  ghost predicate SlipsPast(s: State, a: ApplyId) {
    && a in s.applies && Undetected(s.applies[a]) && s.applies[a].beganAt.Some? && s.applies[a].endedAt.Some?
    && exists r :: r in s.reindexes && Overlaps(s.reindexes[r], s.applies[a])
  }

  ghost predicate Continues(steps: seq<Step>, longer: seq<Step>) {
    Runs(longer) && |steps| <= |longer| && longer[..|steps|] == steps
  }

  ghost predicate CanSlip(steps: seq<Step>, a: ApplyId) {
    exists longer :: Continues(steps, longer) && SlipsPast(After(longer), a)
  }

  lemma {:induction false} StepKeepsReads(s: State, step: Step, a: ApplyId)
    requires Enabled(s, step) && a in s.applies
    ensures a in Next(s, step).applies
    ensures Next(s, step).applies[a].idleSeen == s.applies[a].idleSeen
    ensures s.applies[a].firstRead.Some? ==>
      Next(s, step).applies[a].firstRead.Some? && Next(s, step).applies[a].quietAtFirstRead == s.applies[a].quietAtFirstRead
  {
  }

  lemma {:induction false} ReadsStay(steps: seq<Step>, longer: seq<Step>, a: ApplyId)
    requires Runs(steps) && Continues(steps, longer) && a in After(steps).applies
    ensures a in After(longer).applies
    ensures After(longer).applies[a].idleSeen == After(steps).applies[a].idleSeen
    ensures After(steps).applies[a].firstRead.Some? ==>
      After(longer).applies[a].firstRead.Some? && After(longer).applies[a].quietAtFirstRead == After(steps).applies[a].quietAtFirstRead
  {
    hide Next, Enabled;
    if |longer| == |steps| {
      assert longer == steps;
    } else {
      assert Front(longer)[..|steps|] == steps;
      ReadsStay(steps, Front(longer), a);
      StepKeepsReads(After(Front(longer)), Last(longer), a);
    }
  }

  // Begun after the first read, with a reindex that has scanned and not yet published.
  ghost predicate HalfSlipped(s: State, a: ApplyId, r: ReindexId) {
    && a in s.applies && r in s.reindexes
    && s.applies[a].firstRead.Some? && s.applies[a].beganAt.Some? && s.applies[a].endedAt.None? && s.applies[a].secondRead.None?
    && s.applies[a].firstSerial == s.serial
    && s.reindexes[r].scannedAt.Some? && s.reindexes[r].publishedAt.None? && s.reindexes[r].bumpedAt.None?
    && s.applies[a].beganAt.value <= s.clock && s.reindexes[r].scannedAt.value <= s.clock
  }

  lemma {:induction false} BeginsBeside(s: State, a: ApplyId, r: ReindexId)
    requires Inv(s) && Enabled(s, ReadFirstSerial(a)) && r in s.reindexes && Looming(s.reindexes[r])
    ensures var read := Next(s, ReadFirstSerial(a));
      && Enabled(read, Begin(a))
      && var begun := Next(read, Begin(a));
         if s.reindexes[r].scannedAt.Some? then HalfSlipped(begun, a, r)
         else Enabled(begun, Scan(r)) && HalfSlipped(Next(begun, Scan(r)), a, r)
  {
    InvApply(s, a);
    InvReindex(s, r);
    hide Inv, Quiet;
  }

  lemma {:induction false} HalfSlips(steps: seq<Step>, a: ApplyId, r: ReindexId) returns (longer: seq<Step>)
    requires Runs(steps) && Enabled(After(steps), ReadFirstSerial(a))
    requires r in After(steps).reindexes && Looming(After(steps).reindexes[r])
    ensures Continues(steps + [ReadFirstSerial(a)], longer) && HalfSlipped(After(longer), a, r)
  {
    InvHolds(steps);
    BeginsBeside(After(steps), a, r);
    hide Inv, Enabled, Next, Runs, After, Looming, HalfSlipped;
    longer := Extend(steps, ReadFirstSerial(a));
    longer := Extend(longer, Begin(a));
    if After(steps).reindexes[r].scannedAt.None? {
      longer := Extend(longer, Scan(r));
    }
  }

  lemma {:induction false} SlipsOn(steps: seq<Step>, a: ApplyId, r: ReindexId) returns (longer: seq<Step>)
    requires Runs(steps) && HalfSlipped(After(steps), a, r)
    ensures Continues(steps, longer) && SlipsPast(After(longer), a)
  {
    longer := Extend(steps, Publish(r));
    longer := Extend(longer, End(a));
    longer := Extend(longer, ReadSecondSerial(a));
    assert Overlaps(After(longer).reindexes[r], After(longer).applies[a]);
  }

  // A looming reindex can scan before the apply ends, publish after it began, and stay unnoticed.
  lemma {:induction false} LoomingSlips(steps: seq<Step>, a: ApplyId, r: ReindexId) returns (longer: seq<Step>)
    requires Runs(steps) && Enabled(After(steps), ReadFirstSerial(a))
    requires r in After(steps).reindexes && Looming(After(steps).reindexes[r])
    ensures Continues(steps + [ReadFirstSerial(a)], longer) && SlipsPast(After(longer), a)
  {
    hide After, Runs, Enabled, Looming, HalfSlipped, SlipsPast;
    var half := HalfSlips(steps, a, r);
    longer := SlipsOn(half, a, r);
  }

  // The exact condition, at the moment of the first serial read: the apply can still slip past
  // an overlapping reindex if and only if some reindex looms.
  lemma {:induction false} SlipsExactlyWhenLooming(steps: seq<Step>, a: ApplyId)
    requires Runs(steps) && Enabled(After(steps), ReadFirstSerial(a))
    ensures CanSlip(steps + [ReadFirstSerial(a)], a) <==> !Quiet(After(steps).reindexes)
  {
    var read := Extend(steps, ReadFirstSerial(a));
    if !Quiet(After(steps).reindexes) {
      var r :| r in After(steps).reindexes && Looming(After(steps).reindexes[r]);
      var longer := LoomingSlips(steps, a, r);
    } else if CanSlip(read, a) {
      var longer :| Continues(read, longer) && SlipsPast(After(longer), a);
      ReadsStay(read, longer, a);
      var r :| r in After(longer).reindexes && Overlaps(After(longer).reindexes[r], After(longer).applies[a]);
      NoUndetectedOverlap(longer, r, a);
    }
  }

  // The wait and the first read are separate accesses, and seeing an idle counter in the wait is
  // not enough: a reindex that begins between them can slip through.
  lemma IdleWaitIsNotEnough()
    ensures exists steps :: Runs(steps) && 0 in After(steps).applies && After(steps).applies[0].idleSeen && SlipsPast(After(steps), 0)
  {
    var run := Extend([], SeeIdle(0));
    run := Extend(run, Count(0));
    run := Extend(run, Announce(0));
    assert Looming(After(run).reindexes[0]);
    var longer := LoomingSlips(run, 0, 0);
    ReadsStay(run + [ReadFirstSerial(0)], longer, 0);
  }

  // A counted reindex that has not been announced does not loom.
  lemma CountedIsQuiet()
    ensures exists steps :: Runs(steps) && After(steps).inProgress > 0 && Quiet(After(steps).reindexes)
  {
    var run := Extend([], Count(0));
  }

  // ---- what the counter and the serial count

  ghost function Announced(steps: seq<Step>): nat {
    if steps == [] then 0 else Announced(Front(steps)) + (if Last(steps).Announce? || Last(steps).BumpOnDrop? then 1 else 0)
  }

  ghost function Begun(steps: seq<Step>): int {
    if steps == [] then 0 else Begun(Front(steps)) + (if Last(steps).Count? then 1 else if Last(steps).Uncount? then -1 else 0)
  }

  lemma {:induction false} SerialAfter(s: State, step: Step)
    requires Enabled(s, step)
    ensures Next(s, step).serial == s.serial + (if step.Announce? || step.BumpOnDrop? then 1 else 0)
  {
    hide Quiet;
  }

  // The serial counts the beginnings and the ends of reindexes, published or not, and nothing else.
  lemma {:induction false} SerialCounts(steps: seq<Step>)
    requires Runs(steps)
    ensures After(steps).serial == Announced(steps) && After(steps).inProgress == Begun(steps)
  {
    if steps != [] {
      hide Next, Enabled;
      SerialCounts(Front(steps));
      SerialAfter(After(Front(steps)), Last(steps));
      CounterAfter(After(Front(steps)), Last(steps));
    }
  }

  // So an apply notices a reindex that is announced or dropped between its two reads.
  lemma {:induction false} EndsAreNoticed(steps: seq<Step>, longer: seq<Step>)
    requires Runs(steps) && Continues(steps, longer)
    requires exists i :: |steps| <= i < |longer| && (longer[i].Announce? || longer[i].BumpOnDrop?)
    ensures After(longer).serial > After(steps).serial
  {
    SerialCounts(steps);
    SerialCounts(longer);
    AnnouncedGrows(steps, longer);
  }

  lemma {:induction false} AnnouncedGrows(steps: seq<Step>, longer: seq<Step>)
    requires |steps| <= |longer| && longer[..|steps|] == steps
    ensures Announced(longer) >= Announced(steps)
    ensures (exists i :: |steps| <= i < |longer| && (longer[i].Announce? || longer[i].BumpOnDrop?)) ==> Announced(longer) > Announced(steps)
  {
    if |longer| == |steps| {
      assert longer == steps;
    } else {
      assert Front(longer)[..|steps|] == steps;
      AnnouncedGrows(steps, Front(longer));
      if exists i :: |steps| <= i < |longer| && (longer[i].Announce? || longer[i].BumpOnDrop?) {
        var i :| |steps| <= i < |longer| && (longer[i].Announce? || longer[i].BumpOnDrop?);
        assert i < |longer| - 1 ==> Front(longer)[i] == longer[i];
      }
    }
  }

  lemma {:induction false} NewApplies(s: State, step: Step, a: ApplyId)
    requires Enabled(s, step)
    ensures a in Next(s, step).applies && a !in s.applies ==> step == SeeIdle(a) && s.inProgress == 0
    ensures a in Next(s, step).rescans && a !in s.rescans ==> step == SeeIdleAgain(a) && s.inProgress == 0
  {
    hide Quiet;
  }

  ghost predicate SawIdle(steps: seq<Step>, step: Step, i: nat)
    requires Runs(steps)
  {
    i < |steps| && steps[i] == step && Runs(steps[..i]) && After(steps[..i]).inProgress == 0
  }

  // No apply and no rescan begins before its wait has seen the counter at zero.
  lemma {:induction false} WaitedForIdle(steps: seq<Step>, a: ApplyId)
    requires Runs(steps)
    ensures a in After(steps).applies ==> exists i: nat :: SawIdle(steps, SeeIdle(a), i)
    ensures a in After(steps).rescans ==> exists i: nat :: SawIdle(steps, SeeIdleAgain(a), i)
  {
    if steps != [] {
      hide Next, Enabled;
      var front := Front(steps);
      WaitedForIdle(front, a);
      NewApplies(After(front), Last(steps), a);
      assert steps[..|steps| - 1] == front;
      forall i: nat, step | SawIdle(front, step, i) ensures SawIdle(steps, step, i) {
        assert front[..i] == steps[..i];
      }
      assert Last(steps) == SeeIdle(a) && After(front).inProgress == 0 ==> SawIdle(steps, SeeIdle(a), |front|);
      assert Last(steps) == SeeIdleAgain(a) && After(front).inProgress == 0 ==> SawIdle(steps, SeeIdleAgain(a), |front|);
    }
  }

  // ---- the rescan after an overlap that was noticed

  // The reindex read the disk before the rescan was over and replaces the index after it began.
  ghost predicate Discards(r: Reindex, q: Rescan) {
    && q.beganAt.Some? && q.endedAt.Some?
    && r.scannedAt.Some? && r.scannedAt.value < q.endedAt.value
    && r.publishedAt.Some? && r.publishedAt.value > q.beganAt.value
  }

  ghost predicate Lost(s: State, a: ApplyId) {
    a in s.rescans && exists r :: r in s.reindexes && Discards(s.reindexes[r], s.rescans[a])
  }

  ghost predicate CanBeLost(steps: seq<Step>, a: ApplyId) {
    exists longer :: Continues(steps, longer) && Lost(After(longer), a)
  }

  // It has discarded the finished rescan, or has scanned too early and still looms.
  ghost predicate Threatens(r: Reindex, q: Rescan) {
    q.endedAt.Some? && (Discards(r, q) || (Looming(r) && r.scannedAt.Some? && r.scannedAt.value < q.endedAt.value))
  }

  ghost predicate Threatened(s: State, a: ApplyId)
    requires a in s.rescans
  {
    exists r :: r in s.reindexes && Threatens(s.reindexes[r], s.rescans[a])
  }

  ghost predicate RescanOk(s: State, q: Rescan) {
    Before(q.beganAt, q.endedAt) && (q.beganAt.Some? ==> q.beganAt.value <= s.clock) && (q.endedAt.Some? ==> q.endedAt.value <= s.clock)
  }

  lemma {:induction false} RescanStepOk(s: State, step: Step, a: ApplyId)
    requires Enabled(s, step) && a in Next(s, step).rescans
    requires a in s.rescans ==> RescanOk(s, s.rescans[a])
    ensures RescanOk(Next(s, step), Next(s, step).rescans[a])
  {
    hide Quiet;
  }

  lemma {:induction false} RescansOk(steps: seq<Step>, a: ApplyId)
    requires Runs(steps) && a in After(steps).rescans
    ensures RescanOk(After(steps), After(steps).rescans[a])
  {
    if steps != [] {
      hide Enabled, Next, RescanOk;
      var s := After(Front(steps));
      if a in s.rescans {
        RescansOk(Front(steps), a);
      }
      RescanStepOk(s, Last(steps), a);
    }
  }

  lemma {:induction false} NoNewThreat(s: State, step: Step, r: ReindexId, q: Rescan)
    requires Inv(s) && Enabled(s, step) && OfReindex(step) && r in Next(s, step).reindexes
    requires RescanOk(s, q) && q.endedAt.Some? && (r in s.reindexes ==> !Threatens(s.reindexes[r], q))
    ensures !Threatens(Next(s, step).reindexes[r], q)
  {
    hide Inv, Quiet;
    if r in s.reindexes {
      InvReindex(s, r);
      assert ReindexOk(s, s.reindexes[r]);
    }
  }

  lemma {:induction false} RescanStays(s: State, step: Step, a: ApplyId)
    requires Enabled(s, step) && a in s.rescans && s.rescans[a].endedAt.Some? && RescanOk(s, s.rescans[a])
    ensures a in Next(s, step).rescans && Next(s, step).rescans[a] == s.rescans[a]
  {
    hide Quiet;
  }

  lemma {:induction false} UnthreatenedStep(s: State, step: Step, a: ApplyId)
    requires Inv(s) && Enabled(s, step)
    requires a in s.rescans && RescanOk(s, s.rescans[a]) && s.rescans[a].endedAt.Some? && !Threatened(s, a)
    ensures var t := Next(s, step); a in t.rescans && t.rescans[a] == s.rescans[a] && !Threatened(t, a)
  {
    hide Inv, Next, Enabled, Threatens, RescanOk;
    var t, q := Next(s, step), s.rescans[a];
    RescanStays(s, step, a);
    CounterAfter(s, step);
    forall r | r in t.reindexes ensures !Threatens(t.reindexes[r], q) {
      if OfReindex(step) {
        NoNewThreat(s, step, r, q);
      }
    }
  }

  lemma {:induction false} UnthreatenedStays(steps: seq<Step>, longer: seq<Step>, a: ApplyId)
    requires Runs(steps) && Continues(steps, longer)
    requires a in After(steps).rescans && After(steps).rescans[a].endedAt.Some? && !Threatened(After(steps), a)
    ensures a in After(longer).rescans && After(longer).rescans[a] == After(steps).rescans[a] && !Threatened(After(longer), a)
  {
    hide Next, Enabled, Threatened;
    if |longer| == |steps| {
      assert longer == steps;
    } else {
      assert Front(longer)[..|steps|] == steps;
      UnthreatenedStays(steps, Front(longer), a);
      InvHolds(Front(longer));
      RescansOk(Front(longer), a);
      UnthreatenedStep(After(Front(longer)), Last(longer), a);
    }
  }

  lemma {:induction false} UpperBound(ids: set<nat>) returns (bound: nat)
    ensures forall id :: id in ids ==> id < bound
  {
    if ids == {} {
      bound := 0;
    } else {
      var id :| id in ids;
      var rest := UpperBound(ids - {id});
      bound := if id < rest then rest else id + 1;
      forall x | x in ids ensures x < bound {
        assert x == id || x in ids - {id};
      }
    }
  }

  // A reindex that begins during a rescan can scan before its end and publish after it.
  lemma {:induction false} ScansBeside(steps: seq<Step>, r: ReindexId) returns (longer: seq<Step>)
    requires Runs(steps) && r !in After(steps).reindexes
    ensures Continues(steps, longer) && After(longer).rescans == After(steps).rescans && After(longer).clock > After(steps).clock
    ensures r in After(longer).reindexes
    ensures var x := After(longer).reindexes[r];
      x.scannedAt == Some(After(longer).clock) && x.publishedAt.None? && x.bumpedAt.None?
  {
    hide Quiet;
    longer := Extend(steps, Count(r));
    longer := Extend(longer, Announce(r));
    longer := Extend(longer, Scan(r));
  }

  lemma {:induction false} OpenRescanIsLost(steps: seq<Step>, a: ApplyId) returns (longer: seq<Step>)
    requires Runs(steps) && a in After(steps).rescans && After(steps).rescans[a].beganAt.Some? && After(steps).rescans[a].endedAt.None?
    ensures Continues(steps, longer) && Lost(After(longer), a)
  {
    RescansOk(steps, a);
    hide Quiet;
    var r := UpperBound(After(steps).reindexes.Keys);
    assert r !in After(steps).reindexes;
    var scanned := ScansBeside(steps, r);
    longer := Extend(scanned, EndRescan(a));
    longer := Extend(longer, Publish(r));
    assert longer[..|steps|] == longer[..|scanned|][..|steps|];
    assert Discards(After(longer).reindexes[r], After(longer).rescans[a]);
  }

  // The exact condition at any moment: until it ends a rescan can always be lost; afterwards only
  // to a reindex that has discarded it already, or has scanned before its end and still looms.
  lemma {:induction false} LostExactlyWhen(steps: seq<Step>, a: ApplyId)
    requires Runs(steps) && a in After(steps).rescans
    ensures CanBeLost(steps, a) <==> After(steps).rescans[a].endedAt.None? || Threatened(After(steps), a)
  {
    var s := After(steps);
    RescansOk(steps, a);
    if s.rescans[a].endedAt.None? {
      if s.rescans[a].beganAt.None? {
        var begun := Extend(steps, BeginRescan(a));
        var longer := OpenRescanIsLost(begun, a);
        assert longer[..|steps|] == longer[..|begun|][..|steps|];
      } else {
        var longer := OpenRescanIsLost(steps, a);
      }
    } else if Threatened(s, a) {
      var r :| r in s.reindexes && Threatens(s.reindexes[r], s.rescans[a]);
      if Discards(s.reindexes[r], s.rescans[a]) {
        assert Continues(steps, steps);
      } else {
        var longer := Extend(steps, Publish(r));
        assert Discards(After(longer).reindexes[r], After(longer).rescans[a]);
      }
    } else if CanBeLost(steps, a) {
      var longer :| Continues(steps, longer) && Lost(After(longer), a);
      UnthreatenedStays(steps, longer, a);
    }
  }

  lemma NoticedRun() returns (run: seq<Step>)
    ensures Runs(run) && 0 in After(run).applies && 0 !in After(run).rescans && After(run).inProgress == 0
    ensures var a := After(run).applies[0]; a.firstRead.Some? && a.secondRead.Some? && !Undetected(a)
  {
    hide Quiet;
    run := Extend([], SeeIdle(0));
    run := Extend(run, ReadFirstSerial(0));
    run := Extend(run, Begin(0));
    run := Extend(run, Count(0));
    run := Extend(run, Announce(0));
    run := Extend(run, End(0));
    run := Extend(run, ReadSecondSerial(0));
    run := Extend(run, BumpOnDrop(0));
    run := Extend(run, Uncount(0));
  }

  // An apply that noticed a reindex and waited for it, whose rescan is lost to another one that
  // begins after the wait.
  lemma NoticedAndLost()
    ensures exists steps :: Runs(steps) && 0 in After(steps).applies && !Undetected(After(steps).applies[0]) && Lost(After(steps), 0)
  {
    var run := NoticedRun();
    run := Extend(run, SeeIdleAgain(0));
    LostExactlyWhen(run, 0);
    var longer :| Continues(run, longer) && Lost(After(longer), 0);
    SecondReadStays(run, longer, 0);
  }

  lemma {:induction false} SecondReadStep(s: State, step: Step, a: ApplyId)
    requires Enabled(s, step) && a in s.applies && s.applies[a].secondRead.Some? && s.applies[a].firstRead.Some?
    ensures a in Next(s, step).applies && Next(s, step).applies[a].secondRead.Some? && Next(s, step).applies[a].firstRead.Some?
    ensures Undetected(Next(s, step).applies[a]) <==> Undetected(s.applies[a])
  {
    hide Quiet;
  }

  lemma {:induction false} SecondReadStays(steps: seq<Step>, longer: seq<Step>, a: ApplyId)
    requires Runs(steps) && Continues(steps, longer)
    requires a in After(steps).applies && After(steps).applies[a].secondRead.Some? && After(steps).applies[a].firstRead.Some?
    ensures a in After(longer).applies && After(longer).applies[a].secondRead.Some? && After(longer).applies[a].firstRead.Some?
    ensures Undetected(After(longer).applies[a]) <==> Undetected(After(steps).applies[a])
  {
    hide Next, Enabled, Undetected;
    if |longer| == |steps| {
      assert longer == steps;
    } else {
      assert Front(longer)[..|steps|] == steps;
      SecondReadStays(steps, Front(longer), a);
      SecondReadStep(After(Front(longer)), Last(longer), a);
    }
  }
}
