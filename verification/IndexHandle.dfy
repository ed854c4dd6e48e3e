// The published workspace index and model: one swappable pair, readers load it without a
// lock, writers load, modify and store it under one. Writers may be interrupted anywhere.
module IndexHandle {
  import opened Seqs

  type Thread = nat
  type IndexId = nat
  type Model = Option<nat>

  // An index is shared: updates recorded against it are seen by whoever holds it.
  datatype Published = Published(index: IndexId, model: Model)
  datatype Memory = Memory(current: Published, contents: map<IndexId, seq<nat>>)

  datatype Op =
    | Update(change: nat)
    | Replace(index: IndexId, model: Model)
    | ReplaceModel(model: Model)
    | UpdateModel(f: Model -> Model)

  // What an operation does when nothing runs beside it.
  function Record(contents: map<IndexId, seq<nat>>, index: IndexId, change: nat): map<IndexId, seq<nat>> {
    contents[index := (if index in contents then contents[index] else []) + [change]]
  }

  function Serially(m: Memory, op: Op): Memory {
    match op
    case Update(change) => m.(contents := Record(m.contents, m.current.index, change))
    case Replace(index, model) => m.(current := Published(index, model))
    case ReplaceModel(model) => m.(current := Published(m.current.index, model))
    case UpdateModel(f) => m.(current := Published(m.current.index, f(m.current.model)))
  }

  function InOrder(m: Memory, ops: seq<Op>): Memory {
    if ops == [] then m else Serially(InOrder(m, Front(ops)), Last(ops))
  }

  datatype Stage = Locked | Loaded(seen: Published) | Computed(seen: Published, model: Model) | Stored

  datatype Writer = Free | Held(thread: Thread, op: Op, stage: Stage)

  // What a reader got, and after how many committed operations.
  datatype Snapshot = Snapshot(pair: Published, after: nat)

  // `committed` lists the operations in the order their writes took effect, `snapshots` the loads
  // of readers in the order they happened.
  datatype State = State(memory: Memory, writer: Writer, committed: seq<Op>, snapshots: seq<Snapshot>)

  // Readers take no lock: a snapshot can be loaded between any two steps of a writer.
  datatype Step = Lock(t: Thread, op: Op) | Load | Compute | Write | Unlock | TakeSnapshot

  predicate Enabled(s: State, step: Step) {
    match step
    case Lock(_, _) => s.writer.Free?
    case Load => s.writer.Held? && s.writer.stage.Locked? && !s.writer.op.Replace?
    case Compute => s.writer.Held? && s.writer.stage.Loaded? && s.writer.op.UpdateModel?
    case Write => s.writer.Held? &&
      (match s.writer.op
       case Replace(_, _) => s.writer.stage.Locked?
       case UpdateModel(_) => s.writer.stage.Computed?
       case _ => s.writer.stage.Loaded?)
    case Unlock => s.writer.Held? && s.writer.stage.Stored?
    case TakeSnapshot => true
  }

  function Written(m: Memory, w: Writer): Memory
    requires w.Held?
  {
    match w.op
    case Update(change) => if w.stage.Loaded? then m.(contents := Record(m.contents, w.stage.seen.index, change)) else m
    case Replace(index, model) => m.(current := Published(index, model))
    case ReplaceModel(model) => if w.stage.Loaded? then m.(current := Published(w.stage.seen.index, model)) else m
    case UpdateModel(_) => if w.stage.Computed? then m.(current := Published(w.stage.seen.index, w.stage.model)) else m
  }

  function Next(s: State, step: Step): State
    requires Enabled(s, step)
  {
    match step
    case Lock(t, op) => s.(writer := Held(t, op, Locked))
    case Load => s.(writer := s.writer.(stage := Loaded(s.memory.current)))
    case Compute => s.(writer := s.writer.(stage := Computed(s.writer.stage.seen, s.writer.op.f(s.writer.stage.seen.model))))
    case Write =>
      s.(memory := Written(s.memory, s.writer), writer := s.writer.(stage := Stored), committed := s.committed + [s.writer.op])
    case Unlock => s.(writer := Free)
    case TakeSnapshot => s.(snapshots := s.snapshots + [Snapshot(s.memory.current, |s.committed|)])
  }

  ghost predicate Runs(start: Memory, steps: seq<Step>)
    decreases |steps|, 0
  {
    steps == [] || (Runs(start, Front(steps)) && Enabled(After(start, Front(steps)), Last(steps)))
  }

  ghost function After(start: Memory, steps: seq<Step>): State
    requires Runs(start, steps)
    decreases |steps|, 1
  {
    if steps == [] then State(start, Free, [], []) else Next(After(start, Front(steps)), Last(steps))
  }

  ghost predicate UpToDate(s: State) {
    s.writer.Held? ==>
      match s.writer.stage
      case Loaded(seen) => seen == s.memory.current
      case Computed(seen, model) => seen == s.memory.current && s.writer.op.UpdateModel? && model == s.writer.op.f(seen.model)
      case _ => true
  }

  lemma {:induction false} WriteIsSerial(s: State)
    requires UpToDate(s) && Enabled(s, Write)
    ensures Written(s.memory, s.writer) == Serially(s.memory, s.writer.op)
  {
  }

  lemma {:induction false} StaysUpToDate(s: State, step: Step)
    requires UpToDate(s) && Enabled(s, step)
    ensures UpToDate(Next(s, step))
  {
  }

  // However writers and readers interleave, memory is at every moment what the committed
  // operations leave behind one after the other: no write is lost.
  lemma {:induction false} WritesSerialise(start: Memory, steps: seq<Step>)
    requires Runs(start, steps)
    ensures After(start, steps).memory == InOrder(start, After(start, steps).committed)
    ensures UpToDate(After(start, steps))
  {
    if steps != [] {
      WritesSerialise(start, Front(steps));
      var s := After(start, Front(steps));
      StaysUpToDate(s, Last(steps));
      if Last(steps).Write? {
        WriteIsSerial(s);
        assert Front(s.committed + [s.writer.op]) == s.committed;
      }
    }
  }

  ghost predicate Consistent(start: Memory, committed: seq<Op>, snapshots: seq<Snapshot>) {
    && (forall i :: 0 <= i < |snapshots| ==>
         snapshots[i].after <= |committed| && snapshots[i].pair == InOrder(start, committed[..snapshots[i].after]).current)
    && (forall i, j :: 0 <= i < j < |snapshots| ==> snapshots[i].after <= snapshots[j].after)
  }

  lemma {:induction false} NoSnapshots(start: Memory)
    ensures Consistent(start, [], [])
  {
  }

  lemma {:induction false} CommitKeepsSnapshots(start: Memory, committed: seq<Op>, op: Op, snapshots: seq<Snapshot>)
    requires Consistent(start, committed, snapshots)
    ensures Consistent(start, committed + [op], snapshots)
  {
    forall i | 0 <= i < |snapshots| ensures (committed + [op])[..snapshots[i].after] == committed[..snapshots[i].after] {
    }
  }

  lemma {:induction false} LoadKeepsSnapshots(start: Memory, committed: seq<Op>, snapshots: seq<Snapshot>, pair: Published)
    requires Consistent(start, committed, snapshots) && pair == InOrder(start, committed).current
    ensures Consistent(start, committed, snapshots + [Snapshot(pair, |committed|)])
  {
    assert committed[..|committed|] == committed;
  }

  // Every pair a reader loads was published as a pair, by the operations committed so far, and
  // later loads never go back behind earlier ones.
  lemma {:induction false} SnapshotsAreConsistent(start: Memory, steps: seq<Step>)
    requires Runs(start, steps)
    ensures Consistent(start, After(start, steps).committed, After(start, steps).snapshots)
  {
    hide Consistent, InOrder, UpToDate, Serially;
    if steps == [] {
      NoSnapshots(start);
    } else {
      SnapshotsAreConsistent(start, Front(steps));
      var s := After(start, Front(steps));
      WritesSerialise(start, Front(steps));
      if Last(steps).Write? {
        CommitKeepsSnapshots(start, s.committed, s.writer.op, s.snapshots);
      } else if Last(steps).TakeSnapshot? {
        LoadKeepsSnapshots(start, s.committed, s.snapshots, s.memory.current);
      }
    }
  }

  // What each operation does by itself: an update touches one index's record and nothing that is
  // published, the others publish and touch no record; the model changes without the index only.
  lemma SeriallyExactly(m: Memory, op: Op)
    ensures var after := Serially(m, op);
      match op
      case Update(change) =>
        && after.current == m.current && m.current.index in after.contents
        && after.contents[m.current.index] == (if m.current.index in m.contents then m.contents[m.current.index] else []) + [change]
        && (forall i :: i != m.current.index ==> (i in after.contents <==> i in m.contents))
        && (forall i :: i != m.current.index && i in m.contents ==> after.contents[i] == m.contents[i])
      case Replace(index, model) => after.current.index == index && after.current.model == model && after.contents == m.contents
      case ReplaceModel(model) => after.current.index == m.current.index && after.current.model == model && after.contents == m.contents
      case UpdateModel(f) =>
        after.current.index == m.current.index && after.current.model == f(m.current.model) && after.contents == m.contents
  {
  }
}
