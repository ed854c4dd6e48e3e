// The version-tagged scope cache, raced by readers and mutators. Every shared access is one
// step of its own: a mutator changes a cell, clears the cache, bumps the version; a reader
// reads the version, looks the key up, builds piece by piece, re-reads the version, inserts.
// A snapshot's name table is read from live buckets later still, once, by whoever asks first.
module ScopeCache {
  import opened Seqs

  type Mutation = nat
  type Reader = nat
  type SnapshotId = nat
  type Key = nat

  // Module tables, the dependency graph and the JDK slot are topology; class content is in buckets.
  datatype Cell = Topology(piece: nat) | Bucket(bucket: nat)

  // What each cell held when it was read.
  type Reading = map<Cell, set<Mutation>>

  datatype Snapshot = Snapshot(key: Key, pieces: Reading, table: Reading, tableBuilt: bool)

  datatype Phase =
    | Idle
    | Started
    | Building(pieces: Reading)
    | Assembled(snapshot: SnapshotId)
    | Rechecked(snapshot: SnapshotId)
    | Holding(snapshot: SnapshotId)

  // `before` records, for the statement only, which bumps had happened at the version read.
  datatype ReaderState = ReaderState(key: Key, version: nat, before: set<Mutation>, phase: Phase)

  datatype MutatorPhase = Changed | Cleared | Bumped

  datatype State = State(
    cellOf: map<Mutation, Cell>,
    mutators: map<Mutation, MutatorPhase>,
    version: nat,
    bumpedTo: map<Mutation, nat>,
    cache: map<Key, (nat, SnapshotId)>,
    snapshots: map<SnapshotId, Snapshot>,
    readers: map<Reader, ReaderState>)

  const INIT := State(map[], map[], 0, map[], map[], map[], map[])

  datatype Step =
    | Change(m: Mutation, cell: Cell)
    | ClearCache(m: Mutation)
    | Bump(m: Mutation)
    | ClearAnalysisCaches
    | ReadVersion(r: Reader, key: Key)
    | LookUp(r: Reader)
    | ReadPiece(r: Reader, cell: Cell)
    | Assemble(r: Reader, id: SnapshotId)
    | Recheck(r: Reader)
    | Insert(r: Reader)
    | ReadTable(id: SnapshotId, cell: Cell)
    | FinishTable(id: SnapshotId)

  // Which cells a build must still read, given what it has read; and which buckets a name table reads.
  datatype Layout = Layout(needs: (Key, Reading) -> set<Cell>, tableNeeds: Reading -> set<Cell>)

  function Content(s: State, cell: Cell): set<Mutation> {
    set m | m in s.cellOf && s.cellOf[m] == cell
  }

  predicate Enabled(l: Layout, s: State, step: Step) {
    match step
    case Change(m, _) => m !in s.cellOf && m !in s.mutators
    case ClearCache(m) => m in s.mutators && s.mutators[m].Changed?
    case Bump(m) => m in s.mutators && s.mutators[m].Cleared?
    case ClearAnalysisCaches => true
    case ReadVersion(r, _) => r in s.readers ==> s.readers[r].phase.Idle? || s.readers[r].phase.Holding?
    case LookUp(r) => r in s.readers && s.readers[r].phase.Started?
    case ReadPiece(r, cell) =>
      && r in s.readers && s.readers[r].phase.Building?
      && cell !in s.readers[r].phase.pieces && cell in l.needs(s.readers[r].key, s.readers[r].phase.pieces)
    case Assemble(r, id) =>
      && r in s.readers && s.readers[r].phase.Building? && id !in s.snapshots
      && l.needs(s.readers[r].key, s.readers[r].phase.pieces) <= s.readers[r].phase.pieces.Keys
    case Recheck(r) => r in s.readers && s.readers[r].phase.Assembled?
    case Insert(r) => r in s.readers && s.readers[r].phase.Rechecked?
    case ReadTable(id, cell) =>
      && id in s.snapshots && !s.snapshots[id].tableBuilt && cell !in s.snapshots[id].table
      && cell in l.tableNeeds(s.snapshots[id].pieces)
    case FinishTable(id) =>
      && id in s.snapshots && !s.snapshots[id].tableBuilt
      && l.tableNeeds(s.snapshots[id].pieces) <= s.snapshots[id].table.Keys
  }

  function WithPhase(s: State, r: Reader, phase: Phase): State
    requires r in s.readers
  {
    s.(readers := s.readers[r := s.readers[r].(phase := phase)])
  }

  function Apply(l: Layout, s: State, step: Step): State
    requires Enabled(l, s, step)
  {
    match step
    case Change(m, cell) => s.(cellOf := s.cellOf[m := cell], mutators := s.mutators[m := Changed])
    case ClearCache(m) => s.(cache := map[], mutators := s.mutators[m := Cleared])
    case Bump(m) => s.(version := s.version + 1, bumpedTo := s.bumpedTo[m := s.version + 1], mutators := s.mutators[m := Bumped])
    case ClearAnalysisCaches => s.(cache := map[])
    case ReadVersion(r, key) => s.(readers := s.readers[r := ReaderState(key, s.version, s.bumpedTo.Keys, Started)])
    case LookUp(r) =>
      var reader := s.readers[r];
      if reader.key in s.cache && s.cache[reader.key].0 == reader.version
      then WithPhase(s, r, Holding(s.cache[reader.key].1))
      else WithPhase(s, r, Building(map[]))
    case ReadPiece(r, cell) => WithPhase(s, r, Building(s.readers[r].phase.pieces[cell := Content(s, cell)]))
    case Assemble(r, id) =>
      WithPhase(s.(snapshots := s.snapshots[id := Snapshot(s.readers[r].key, s.readers[r].phase.pieces, map[], false)]), r, Assembled(id))
    case Recheck(r) =>
      WithPhase(s, r, if s.version == s.readers[r].version then Rechecked(s.readers[r].phase.snapshot)
                      else Holding(s.readers[r].phase.snapshot))
    case Insert(r) =>
      var reader := s.readers[r];
      WithPhase(s.(cache := s.cache[reader.key := (reader.version, reader.phase.snapshot)]), r, Holding(reader.phase.snapshot))
    case ReadTable(id, cell) =>
      s.(snapshots := s.snapshots[id := s.snapshots[id].(table := s.snapshots[id].table[cell := Content(s, cell)])])
    case FinishTable(id) =>
      s.(snapshots := s.snapshots[id := s.snapshots[id].(tableBuilt := true)])
  }

  ghost predicate Runs(l: Layout, steps: seq<Step>)
    decreases |steps|, 0
  {
    steps == [] || (Runs(l, Front(steps)) && Enabled(l, After(l, Front(steps)), Last(steps)))
  }

  ghost function After(l: Layout, steps: seq<Step>): State
    requires Runs(l, steps)
    decreases |steps|, 1
  {
    if steps == [] then INIT else Apply(l, After(l, Front(steps)), Last(steps))
  }

  // Every cell of a reading shows all mutations of that cell whose bump the version covers.
  ghost predicate Covers(s: State, reading: Reading, version: nat) {
    forall c, m :: c in reading && m in s.bumpedTo && m in s.cellOf && s.cellOf[m] == c && s.bumpedTo[m] <= version ==> m in reading[c]
  }

  ghost predicate SnapshotCovers(l: Layout, s: State, id: SnapshotId, key: Key, version: nat) {
    && id in s.snapshots
    && s.snapshots[id].key == key
    && l.needs(key, s.snapshots[id].pieces) <= s.snapshots[id].pieces.Keys
    && Covers(s, s.snapshots[id].pieces, version)
    && Covers(s, s.snapshots[id].table, version)
    && (s.snapshots[id].tableBuilt ==> l.tableNeeds(s.snapshots[id].pieces) <= s.snapshots[id].table.Keys)
  }

  ghost predicate ReaderOk(l: Layout, s: State, reader: ReaderState) {
    && reader.version <= s.version
    && (forall m :: m in reader.before <==> m in s.bumpedTo && s.bumpedTo[m] <= reader.version)
    && match reader.phase
       case Idle => true
       case Started => true
       case Building(pieces) => Covers(s, pieces, reader.version)
       case Assembled(id) => SnapshotCovers(l, s, id, reader.key, reader.version)
       case Rechecked(id) => SnapshotCovers(l, s, id, reader.key, reader.version)
       case Holding(id) => SnapshotCovers(l, s, id, reader.key, reader.version)
  }

  ghost predicate MutatorsOk(s: State) {
    && (forall m :: m in s.bumpedTo ==> m in s.cellOf && m in s.mutators && s.mutators[m].Bumped? && s.bumpedTo[m] <= s.version)
    && (forall m :: m in s.mutators ==> m in s.cellOf)
  }

  ghost predicate CacheOk(l: Layout, s: State) {
    forall k :: k in s.cache ==> s.cache[k].0 <= s.version && SnapshotCovers(l, s, s.cache[k].1, k, s.cache[k].0)
  }

  ghost predicate ReadersOk(l: Layout, s: State) {
    forall r :: r in s.readers ==> ReaderOk(l, s, s.readers[r])
  }

  ghost predicate Inv(l: Layout, s: State) {
    MutatorsOk(s) && CacheOk(l, s) && ReadersOk(l, s)
  }

  // What any step may do behind the back of someone holding a reading, a snapshot or a version.
  ghost predicate Later(l: Layout, s: State, t: State) {
    && s.version <= t.version
    && (forall m :: m in s.cellOf ==> m in t.cellOf && t.cellOf[m] == s.cellOf[m])
    && (forall m :: m in s.bumpedTo ==> m in t.bumpedTo && t.bumpedTo[m] == s.bumpedTo[m])
    && (forall m :: m in t.bumpedTo ==> m in s.cellOf && (m in s.bumpedTo || t.bumpedTo[m] > s.version))
    && (forall id :: id in s.snapshots ==> id in t.snapshots && SnapshotLater(l, s, s.snapshots[id], t.snapshots[id]))
  }

  ghost predicate SnapshotLater(l: Layout, s: State, a: Snapshot, b: Snapshot) {
    && b.key == a.key && b.pieces == a.pieces
    && (forall c :: c in b.table ==> (c in a.table && b.table[c] == a.table[c]) || b.table[c] == Content(s, c))
    && (b.tableBuilt ==> l.tableNeeds(b.pieces) <= b.table.Keys || (a.tableBuilt && a.table == b.table))
  }

  lemma {:induction false} CoversStays(l: Layout, s: State, t: State, reading: Reading, version: nat)
    requires Later(l, s, t) && Covers(s, reading, version) && version <= s.version
    ensures Covers(t, reading, version)
  {
  }

  lemma {:induction false} SnapshotStays(l: Layout, s: State, t: State, id: SnapshotId, key: Key, version: nat)
    requires Later(l, s, t) && SnapshotCovers(l, s, id, key, version) && version <= s.version
    ensures SnapshotCovers(l, t, id, key, version)
  {
    var a, b := s.snapshots[id], t.snapshots[id];
    assert SnapshotLater(l, s, a, b);
    CoversStays(l, s, t, a.pieces, version);
    CoversStays(l, s, t, a.table, version);
    forall c, m | c in b.table && m in t.bumpedTo && m in t.cellOf && t.cellOf[m] == c && t.bumpedTo[m] <= version
      ensures m in b.table[c]
    {
      assert m in s.bumpedTo && s.cellOf[m] == c;
    }
  }

  lemma {:induction false} ReaderStays(l: Layout, s: State, t: State, reader: ReaderState)
    requires Later(l, s, t) && ReaderOk(l, s, reader)
    ensures ReaderOk(l, t, reader)
  {
    match reader.phase
    case Idle =>
    case Started =>
    case Building(pieces) => CoversStays(l, s, t, pieces, reader.version);
    case Assembled(id) => SnapshotStays(l, s, t, id, reader.key, reader.version);
    case Rechecked(id) => SnapshotStays(l, s, t, id, reader.key, reader.version);
    case Holding(id) => SnapshotStays(l, s, t, id, reader.key, reader.version);
  }

  // Nobody is disturbed by a step that only makes the state later.
  lemma {:induction false} OthersStay(l: Layout, s: State, t: State)
    requires Inv(l, s) && Later(l, s, t)
    ensures forall r :: r in s.readers ==> ReaderOk(l, t, s.readers[r])
    ensures forall k :: k in s.cache ==> s.cache[k].0 <= t.version && SnapshotCovers(l, t, s.cache[k].1, k, s.cache[k].0)
  {
    forall r | r in s.readers ensures ReaderOk(l, t, s.readers[r]) {
      ReaderStays(l, s, t, s.readers[r]);
    }
    forall k | k in s.cache ensures SnapshotCovers(l, t, s.cache[k].1, k, s.cache[k].0) {
      SnapshotStays(l, s, t, s.cache[k].1, k, s.cache[k].0);
    }
  }

  // A step that changes no cell, no version and no earlier snapshot.
  lemma {:induction false} UnchangedIsLater(l: Layout, s: State, t: State)
    requires MutatorsOk(s)
    requires t.cellOf == s.cellOf && t.mutators == s.mutators && t.version == s.version && t.bumpedTo == s.bumpedTo
    requires forall id :: id in s.snapshots ==> id in t.snapshots && t.snapshots[id] == s.snapshots[id]
    ensures Later(l, s, t) && MutatorsOk(t)
  {
  }

  lemma {:induction false} ChangeIsLater(l: Layout, s: State, step: Step)
    requires MutatorsOk(s) && Enabled(l, s, step) && step.Change?
    ensures Later(l, s, Apply(l, s, step)) && MutatorsOk(Apply(l, s, step))
  {
  }

  lemma {:induction false} BumpIsLater(l: Layout, s: State, step: Step)
    requires MutatorsOk(s) && Enabled(l, s, step) && step.Bump?
    ensures Later(l, s, Apply(l, s, step)) && MutatorsOk(Apply(l, s, step))
  {
    assert step.m !in s.bumpedTo;
  }

  lemma {:induction false} ClearIsLater(l: Layout, s: State, step: Step)
    requires MutatorsOk(s) && Enabled(l, s, step) && (step.ClearCache? || step.ClearAnalysisCaches?)
    ensures Later(l, s, Apply(l, s, step)) && MutatorsOk(Apply(l, s, step))
  {
  }

  predicate ByReader(step: Step) {
    step.ReadVersion? || step.LookUp? || step.ReadPiece? || step.Assemble? || step.Recheck? || step.Insert?
  }

  lemma {:induction false} ReaderStepIsLater(l: Layout, s: State, step: Step)
    requires Inv(l, s) && Enabled(l, s, step) && ByReader(step)
    ensures Later(l, s, Apply(l, s, step)) && MutatorsOk(Apply(l, s, step))
  {
    hide Later, MutatorsOk, CacheOk, ReadersOk, Content;
    UnchangedIsLater(l, s, Apply(l, s, step));
  }

  lemma {:induction false} OwnReaderOnly(l: Layout, s: State, step: Step)
    requires Enabled(l, s, step)
    ensures var t := Apply(l, s, step);
      if ByReader(step) then step.r in t.readers && t.readers == s.readers[step.r := t.readers[step.r]] else t.readers == s.readers
  {
    hide Content;
  }

  lemma {:induction false} TableStepIsLater(l: Layout, s: State, step: Step)
    requires Inv(l, s) && Enabled(l, s, step)
    requires step.ReadTable? || step.FinishTable?
    ensures Later(l, s, Apply(l, s, step)) && MutatorsOk(Apply(l, s, step))
  {
  }

  lemma {:induction false} StepIsLater(l: Layout, s: State, step: Step)
    requires Inv(l, s) && Enabled(l, s, step)
    ensures Later(l, s, Apply(l, s, step)) && MutatorsOk(Apply(l, s, step))
  {
    hide Later, CacheOk, ReadersOk, MutatorsOk, Apply, Enabled;
    if step.Change? {
      ChangeIsLater(l, s, step);
    } else if step.Bump? {
      BumpIsLater(l, s, step);
    } else if step.ClearCache? || step.ClearAnalysisCaches? {
      ClearIsLater(l, s, step);
    } else if step.ReadTable? || step.FinishTable? {
      TableStepIsLater(l, s, step);
    } else {
      ReaderStepIsLater(l, s, step);
    }
  }

  lemma {:induction false} StepKeepsCache(l: Layout, s: State, step: Step)
    requires Inv(l, s) && Enabled(l, s, step)
    ensures CacheOk(l, Apply(l, s, step))
  {
    hide Later, SnapshotCovers, MutatorsOk, Content;
    StepIsLater(l, s, step);
    OthersStay(l, s, Apply(l, s, step));
    if step.Insert? {
      SnapshotStays(l, s, Apply(l, s, step), s.readers[step.r].phase.snapshot, s.readers[step.r].key, s.readers[step.r].version);
    }
  }

  lemma {:induction false} BuildingReaderOk(l: Layout, s: State, step: Step)
    requires Inv(l, s) && Enabled(l, s, step) && (step.ReadPiece? || step.Assemble?)
    ensures ReaderOk(l, Apply(l, s, step), Apply(l, s, step).readers[step.r])
  {
    var t := Apply(l, s, step);
    StepIsLater(l, s, step);
    ReaderStays(l, s, t, s.readers[step.r]);
    if step.ReadPiece? {
      assert Covers(t, t.readers[step.r].phase.pieces, t.readers[step.r].version);
    } else {
      assert SnapshotCovers(l, t, step.id, t.readers[step.r].key, t.readers[step.r].version);
    }
  }

  lemma {:induction false} StartedReaderOk(l: Layout, s: State, step: Step)
    requires MutatorsOk(s) && Enabled(l, s, step) && step.ReadVersion?
    ensures ReaderOk(l, Apply(l, s, step), Apply(l, s, step).readers[step.r])
  {
  }

  lemma {:induction false} LookedUpReaderOk(l: Layout, s: State, step: Step)
    requires Inv(l, s) && Enabled(l, s, step) && step.LookUp?
    ensures ReaderOk(l, Apply(l, s, step), Apply(l, s, step).readers[step.r])
  {
    hide Later, SnapshotCovers, MutatorsOk;
    StepIsLater(l, s, step);
    OthersStay(l, s, Apply(l, s, step));
  }

  lemma {:induction false} CheckedReaderOk(l: Layout, s: State, step: Step)
    requires Inv(l, s) && Enabled(l, s, step) && (step.Recheck? || step.Insert?)
    ensures ReaderOk(l, Apply(l, s, step), Apply(l, s, step).readers[step.r])
  {
    hide Later, SnapshotCovers, MutatorsOk, CacheOk;
    StepIsLater(l, s, step);
    ReaderStays(l, s, Apply(l, s, step), s.readers[step.r]);
  }

  lemma {:induction false} StepKeepsReaders(l: Layout, s: State, step: Step)
    requires Inv(l, s) && Enabled(l, s, step)
    ensures ReadersOk(l, Apply(l, s, step))
  {
    hide Apply, Enabled, Later, MutatorsOk, CacheOk, ReaderOk;
    var t := Apply(l, s, step);
    StepIsLater(l, s, step);
    OwnReaderOnly(l, s, step);
    OthersStay(l, s, t);
    if step.ReadPiece? || step.Assemble? {
      BuildingReaderOk(l, s, step);
    } else if step.ReadVersion? {
      StartedReaderOk(l, s, step);
    } else if step.LookUp? {
      LookedUpReaderOk(l, s, step);
    } else if ByReader(step) {
      CheckedReaderOk(l, s, step);
    }
  }

  lemma {:induction false} InvHolds(l: Layout, steps: seq<Step>)
    requires Runs(l, steps)
    ensures Inv(l, After(l, steps))
  {
    if steps != [] {
      InvHolds(l, Front(steps));
      StepIsLater(l, After(l, Front(steps)), Last(steps));
      StepKeepsCache(l, After(l, Front(steps)), Last(steps));
      StepKeepsReaders(l, After(l, Front(steps)), Last(steps));
    }
  }

  // In every interleaving, the snapshot a reader ends up with is complete and shows every
  // mutation bumped before that reader read the version, in its layers and in its name table.
  lemma {:induction false} ReadersSeeEarlierBumps(l: Layout, steps: seq<Step>, r: Reader, m: Mutation)
    requires Runs(l, steps)
    requires r in After(l, steps).readers && After(l, steps).readers[r].phase.Holding?
    requires m in After(l, steps).readers[r].before
    ensures var s := After(l, steps);
      var id := s.readers[r].phase.snapshot;
      && id in s.snapshots && m in s.cellOf
      && l.needs(s.readers[r].key, s.snapshots[id].pieces) <= s.snapshots[id].pieces.Keys
      && (s.cellOf[m] in s.snapshots[id].pieces ==> m in s.snapshots[id].pieces[s.cellOf[m]])
      && (s.cellOf[m] in s.snapshots[id].table ==> m in s.snapshots[id].table[s.cellOf[m]])
      && (s.snapshots[id].tableBuilt ==> l.tableNeeds(s.snapshots[id].pieces) <= s.snapshots[id].table.Keys)
  {
    InvHolds(l, steps);
  }

  // A reader that sees another version when it checks again keeps its snapshot to itself, and only
  // a snapshot of the version asked for is taken from the cache.
  lemma {:induction false} StaleIsNotShared(l: Layout, s: State, r: Reader)
    ensures Enabled(l, s, Recheck(r)) ==>
      && Apply(l, s, Recheck(r)).cache == s.cache
      && (Apply(l, s, Recheck(r)).readers[r].phase.Rechecked? <==> s.version == s.readers[r].version)
    ensures Enabled(l, s, LookUp(r)) ==>
      var reader := s.readers[r];
      if exists id :: reader.key in s.cache && s.cache[reader.key] == (reader.version, id)
      then Apply(l, s, LookUp(r)).readers[r].phase == Holding(s.cache[reader.key].1)
      else Apply(l, s, LookUp(r)).readers[r].phase == Building(map[])
  {
    hide Content;
    if Enabled(l, s, LookUp(r)) {
      var reader := s.readers[r];
      assert reader.key in s.cache && s.cache[reader.key].0 == reader.version ==>
        s.cache[reader.key] == (reader.version, s.cache[reader.key].1);
    }
  }
}
