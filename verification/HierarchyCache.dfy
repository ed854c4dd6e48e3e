// The hierarchy cache of a bucket when operations are not atomic: a member collection takes the
// lock once for every class it visits and once more to store its result, and edits may come in
// between. (An update of a file is a removal followed by an addition here, as it is in the code.)
module HierarchyCache {
  import opened Seqs
  import opened ClassModel
  import opened BreadthFirst
  import opened BucketSpec
  import BucketLaws

  type Members = (seq<MethodSummary>, seq<FieldSummary>)

  // A collection under way: its queue, what it has seen, and the members it has met. `order` (the
  // classes found) and `stamp` (the clearing edits before its first visit) are for the statement only.
  datatype Collection = Collection(
    name: string,
    stamp: nat,
    queue: seq<string>,
    seen: set<string>,
    order: seq<string>,
    methods: seq<MethodSummary>,
    fields: seq<FieldSummary>)

  datatype Entry = Entry(members: Members, stamp: nat)

  datatype State = State(bucket: Abstract, edits: nat, cache: map<string, Entry>, pending: map<nat, Collection>)

  datatype Step =
    | Edit(op: BucketLaws.Op)
    | Begin(reader: nat, name: string)
    | VisitNext(reader: nat)
    | Store(reader: nat)
    | Evict(name: string)

  const INIT := State(EMPTY, 0, map[], map[])

  // Additions always clear the cache; removals and updates only when they change something.
  ghost predicate Clears(a: Abstract, op: BucketLaws.Op) {
    match op
    case Add(_, _) => true
    case AddArchive(_) => true
    case UpdateSource(origin, classes, _) => Changes(a, origin, classes)
    case RemoveByOrigin(origin) => OriginNames(a, origin) != {}
  }

  ghost predicate Enabled(s: State, step: Step) {
    match step
    case Edit(_) => true
    case Begin(reader, name) => reader !in s.pending && name !in s.cache
    case VisitNext(reader) => reader in s.pending && s.pending[reader].queue != []
    case Store(reader) => reader in s.pending && s.pending[reader].queue == []
    case Evict(name) => name in s.cache
  }

  function Stamped(edits: nat, c: Collection): Collection {
    if c.seen == {} then c.(stamp := edits) else c
  }

  // One turn of the queue loop against the classes of the moment.
  ghost function Visited(classes: map<string, ClassMetadata>, c: Collection): Collection
    requires c.queue != []
  {
    var x, rest := c.queue[0], c.queue[1..];
    if x in c.seen then c.(queue := rest)
    else if x !in classes then c.(queue := rest, seen := c.seen + {x})
    else
      c.(queue := rest + Parents(classes[x]), seen := c.seen + {x}, order := c.order + [x],
         methods := c.methods + classes[x].methods, fields := c.fields + classes[x].fields)
  }

  ghost function Collected(c: Collection): Members {
    (KeepFirst(OverrideKey, c.methods), KeepFirst(FieldName, c.fields))
  }

  ghost function Next(s: State, step: Step): State
    requires Enabled(s, step)
  {
    match step
    case Edit(op) =>
      var bucket := BucketLaws.Apply(s.bucket, op);
      if Clears(s.bucket, op) then s.(bucket := bucket, edits := s.edits + 1, cache := map[]) else s.(bucket := bucket)
    case Begin(reader, name) => s.(pending := s.pending[reader := Fresh(name, s.edits)])
    case VisitNext(reader) => s.(pending := s.pending[reader := Visited(s.bucket.classes, Stamped(s.edits, s.pending[reader]))])
    case Store(reader) =>
      var c := s.pending[reader];
      s.(cache := s.cache[c.name := Entry(Collected(c), c.stamp)], pending := s.pending - {reader})
    case Evict(name) => s.(cache := s.cache - {name})
  }

  ghost predicate Runs(steps: seq<Step>)
    decreases |steps|, 0
  {
    steps == [] || (Runs(Front(steps)) && Enabled(After(Front(steps)), Last(steps)))
  }

  ghost function After(steps: seq<Step>): State
    requires Runs(steps)
    decreases |steps|, 1
  {
    if steps == [] then INIT else Next(After(Front(steps)), Last(steps))
  }

  // A collection no clearing edit has overtaken is on its way to the current hierarchy.
  ghost predicate OnCourse(classes: map<string, ClassMetadata>, c: Collection) {
    && c.order + Walk(ParentGraph(classes), c.queue, c.seen) == Hierarchy(classes, c.name)
    && c.methods == MethodsAlong(classes, c.order)
    && c.fields == FieldsAlong(classes, c.order)
  }

  function Fresh(name: string, stamp: nat): Collection {
    Collection(name, stamp, [name], {}, [], [], [])
  }

  // Before its first visit no edit can have overtaken a collection.
  ghost predicate CollectionOk(s: State, c: Collection) {
    && c.stamp <= s.edits
    && (if c.seen == {} then c == Fresh(c.name, c.stamp) else c.name in c.seen)
    && (c.stamp == s.edits ==> OnCourse(s.bucket.classes, c))
  }

  ghost predicate EntryOk(s: State, name: string, e: Entry) {
    e.stamp <= s.edits && (e.stamp == s.edits ==> e.members == Inherited(s.bucket.classes, name))
  }

  ghost predicate Inv(s: State) {
    && (forall r :: r in s.pending ==> CollectionOk(s, s.pending[r]))
    && (forall n :: n in s.cache ==> EntryOk(s, n, s.cache[n]))
  }

  lemma {:induction false} QuietEditChangesNothing(a: Abstract, op: BucketLaws.Op)
    requires !Clears(a, op)
    ensures BucketLaws.Apply(a, op).classes == a.classes
  {
    if op.RemoveByOrigin? {
      forall n | n in a.classes ensures a.classes[n].origin != op.origin {
        assert n !in OriginNames(a, op.origin);
      }
    }
  }

  lemma {:induction false} VisitStaysOnCourse(classes: map<string, ClassMetadata>, c: Collection)
    requires OnCourse(classes, c) && c.queue != []
    ensures OnCourse(classes, Visited(classes, c))
  {
    LoopTurn(ParentGraph(classes), Hierarchy(classes, c.name), c.order, c.queue, c.seen);
    assert Front(c.order + [c.queue[0]]) == c.order;
  }

  lemma {:induction false} FinishedIsInherited(classes: map<string, ClassMetadata>, c: Collection)
    requires OnCourse(classes, c) && c.queue == []
    ensures Collected(c) == Inherited(classes, c.name)
  {
    assert c.order + [] == c.order;
  }

  lemma {:induction false} FreshIsOnCourse(classes: map<string, ClassMetadata>, name: string, stamp: nat)
    ensures OnCourse(classes, Fresh(name, stamp))
  {
    assert [] + Hierarchy(classes, name) == Hierarchy(classes, name);
  }

  lemma {:induction false} EditKeepsInv(s: State, op: BucketLaws.Op)
    requires Inv(s)
    ensures Inv(Next(s, Edit(op)))
  {
    hide OnCourse, BucketLaws.Apply, Inherited;
    if !Clears(s.bucket, op) {
      QuietEditChangesNothing(s.bucket, op);
    }
    var t := Next(s, Edit(op));
    forall r | r in t.pending ensures CollectionOk(t, t.pending[r]) {
      assert CollectionOk(s, s.pending[r]);
    }
  }

  lemma {:induction false} StepKeepsInv(s: State, step: Step)
    requires Inv(s) && Enabled(s, step)
    ensures Inv(Next(s, step))
  {
    hide OnCourse, Visited, Inherited, BucketLaws.Apply, Collected;
    match step
    case Edit(op) => EditKeepsInv(s, op);
    case Begin(reader, name) => FreshIsOnCourse(s.bucket.classes, name, s.edits);
    case VisitNext(reader) => VisitKeepsCollection(s, reader);
    case Store(reader) =>
      assert CollectionOk(s, s.pending[reader]);
      if s.pending[reader].stamp == s.edits {
        FinishedIsInherited(s.bucket.classes, s.pending[reader]);
      }
    case Evict(_) =>
  }

  lemma {:induction false} VisitKeepsCollection(s: State, reader: nat)
    requires Inv(s) && Enabled(s, VisitNext(reader))
    ensures CollectionOk(s, Next(s, VisitNext(reader)).pending[reader])
  {
    hide OnCourse;
    var c := Stamped(s.edits, s.pending[reader]);
    assert CollectionOk(s, s.pending[reader]);
    if c.stamp == s.edits {
      FreshIsOnCourse(s.bucket.classes, c.name, c.stamp);
      VisitStaysOnCourse(s.bucket.classes, c);
    }
  }

  lemma {:induction false} InvHolds(steps: seq<Step>)
    requires Runs(steps)
    ensures Inv(After(steps))
  {
    if steps != [] {
      InvHolds(Front(steps));
      StepKeepsInv(After(Front(steps)), Last(steps));
    }
  }

  // In every interleaving a cached entry is the recomputation on the current classes, unless a
  // clearing edit has come since the first visit of its collection; and so is every finished
  // collection that is about to be stored.
  lemma {:induction false} CoherentUnlessOvertaken(steps: seq<Step>)
    requires Runs(steps)
    ensures var s := After(steps);
      && (forall n :: n in s.cache && s.cache[n].stamp == s.edits ==> s.cache[n].members == Inherited(s.bucket.classes, n))
      && (forall r :: r in s.pending && s.pending[r].queue == [] && s.pending[r].stamp == s.edits ==>
           Collected(s.pending[r]) == Inherited(s.bucket.classes, s.pending[r].name))
  {
    InvHolds(steps);
    var s := After(steps);
    forall r | r in s.pending && s.pending[r].queue == [] && s.pending[r].stamp == s.edits
      ensures Collected(s.pending[r]) == Inherited(s.bucket.classes, s.pending[r].name)
    {
      assert CollectionOk(s, s.pending[r]);
      FinishedIsInherited(s.bucket.classes, s.pending[r]);
    }
  }

  // ---- what one edit can do to a collection under way

  lemma {:induction false} Extend(steps: seq<Step>, step: Step) returns (longer: seq<Step>)
    requires Runs(steps) && Enabled(After(steps), step)
    ensures longer == steps + [step] && Runs(longer) && After(longer) == Next(After(steps), step)
  {
    longer := steps + [step];
    assert Front(longer) == steps;
  }

  lemma {:induction false} RootOnly(classes: map<string, ClassMetadata>, name: string)
    requires name in classes && Parents(classes[name]) == []
    ensures Inherited(classes, name).0 == KeepFirst(OverrideKey, classes[name].methods)
  {
    var g := ParentGraph(classes);
    Turn(g, [name], {});
    assert [name][1..] + g[name] == [];
    assert Hierarchy(classes, name) == [name];
    assert MethodsAlong(classes, Front([name])) + classes[name].methods == classes[name].methods;
  }

  lemma {:induction false} AddedClass(a: Abstract, c: ClassMetadata)
    ensures BucketLaws.Apply(a, BucketLaws.Add([c], NO_DECLARATIONS)).classes == a.classes[c.internalName := c]
  {
    assert Front([c]) == [] && Last([c]) == c;
    assert InsertAll(a, Front([c]), NO_DECLARATIONS) == a;
    assert BucketLaws.Apply(a, BucketLaws.Add([c], NO_DECLARATIONS)) == Insert(a, c, NO_DECLARATIONS);
  }

  ghost predicate Stale(steps: seq<Step>, name: string) {
    && Runs(steps) && name in After(steps).cache
    && After(steps).cache[name].members != Inherited(After(steps).bucket.classes, name)
  }

  function Class(name: string, super: Option<string>, methods: seq<MethodSummary>): ClassMetadata {
    ClassMetadata(None, name, name, super, [], [], methods, [], 0, None, None, Unknown)
  }

  function Method(name: string): MethodSummary {
    MethodSummary(name, [], [], 0, false, None, None)
  }

  // ---- exactly when one edit makes a difference

  // `longer` goes on from `steps` without any further edit.
  ghost predicate ReadsOn(steps: seq<Step>, longer: seq<Step>) {
    && Runs(longer) && |steps| <= |longer| && longer[..|steps|] == steps
    && (forall i :: |steps| <= i < |longer| ==> !longer[i].Edit?)
  }

  // After this edit and no other, the reader stores an entry that is not the recomputation.
  ghost predicate StoresStale(steps: seq<Step>, r: nat, op: BucketLaws.Op, longer: seq<Step>)
    requires Runs(steps)
  {
    && Clears(After(steps).bucket, op)
    && ReadsOn(steps + [Edit(op)], longer)
    && Enabled(After(longer), Store(r))
    && Stale(longer + [Store(r)], After(longer).pending[r].name)
  }

  ghost predicate OneEditCanStale(steps: seq<Step>, r: nat)
    requires Runs(steps)
  {
    exists op, longer :: StoresStale(steps, r, op, longer)
  }

  lemma {:induction false} VisitShrinks(classes: map<string, ClassMetadata>, c: Collection)
    requires c.queue != []
    ensures var left, left' := |classes.Keys - c.seen|, |classes.Keys - Visited(classes, c).seen|;
      left' < left || (left' == left && |Visited(classes, c).queue| < |c.queue|)
  {
    var x := c.queue[0];
    if x !in c.seen && x !in classes {
      assert classes.Keys - (c.seen + {x}) == classes.Keys - c.seen;
    } else if x !in c.seen {
      assert classes.Keys - (c.seen + {x}) == (classes.Keys - c.seen) - {x};
    }
  }

  // All the visits still to come, against classes that stay as they are.
  ghost function Finished(classes: map<string, ClassMetadata>, c: Collection): (done: Collection)
    ensures done.queue == [] && done.name == c.name
    decreases |classes.Keys - c.seen|, |c.queue|
  {
    if c.queue == [] then c
    else
      VisitShrinks(classes, c);
      Finished(classes, Visited(classes, c))
  }

  // A class already seen is not read again.
  lemma {:induction false} SeenIsNotReadAgain(a: map<string, ClassMetadata>, b: map<string, ClassMetadata>, c: Collection)
    requires a.Keys == b.Keys && forall n :: n in a && n !in c.seen ==> a[n] == b[n]
    ensures Finished(a, c) == Finished(b, c)
    decreases |a.Keys - c.seen|, |c.queue|
  {
    if c.queue != [] {
      VisitShrinks(a, c);
      SeenIsNotReadAgain(a, b, Visited(a, c));
    }
  }

  lemma {:induction false} VisitStep(s: State, r: nat)
    requires r in s.pending && s.pending[r].seen != {} && s.pending[r].queue != []
    ensures var c := Visited(s.bucket.classes, s.pending[r]);
      && Enabled(s, VisitNext(r)) && Next(s, VisitNext(r)) == s.(pending := s.pending[r := c])
      && c.seen != {} && Finished(s.bucket.classes, c) == Finished(s.bucket.classes, s.pending[r])
  {
  }

  lemma {:induction false} RunToEnd(steps: seq<Step>, r: nat) returns (longer: seq<Step>)
    requires Runs(steps) && r in After(steps).pending && After(steps).pending[r].seen != {}
    ensures ReadsOn(steps, longer)
    ensures var s := After(steps); After(longer) == s.(pending := s.pending[r := Finished(s.bucket.classes, s.pending[r])])
    decreases |After(steps).bucket.classes.Keys - After(steps).pending[r].seen|, |After(steps).pending[r].queue|
  {
    hide Next, Enabled, Visited;
    var s := After(steps);
    if s.pending[r].queue == [] {
      longer := steps;
      assert s.pending == s.pending[r := s.pending[r]];
    } else {
      VisitShrinks(s.bucket.classes, s.pending[r]);
      VisitStep(s, r);
      var next := Extend(steps, VisitNext(r));
      hide After, Runs, Finished;
      longer := RunToEnd(next, r);
      assert longer[..|steps|] == longer[..|next|][..|steps|];
    }
  }

  lemma {:induction false} EditThenStore(steps: seq<Step>, r: nat, m: string) returns (op: BucketLaws.Op, longer: seq<Step>)
    requires Runs(steps) && r in After(steps).pending && After(steps).pending[r].seen != {}
    ensures Clears(After(steps).bucket, op) && ReadsOn(steps + [Edit(op)], longer) && Enabled(After(longer), Store(r))
    ensures var c := After(steps).pending[r];
      var classes := After(steps).bucket.classes[c.name := Class(c.name, None, [Method(m)])];
      && After(longer).pending[r] == Finished(classes, c)
      && Inherited(After(longer).bucket.classes, c.name).0 == [Method(m)]
  {
    var c := After(steps).pending[r];
    var added := Class(c.name, None, [Method(m)]);
    op := BucketLaws.Add([added], NO_DECLARATIONS);
    AddedClass(After(steps).bucket, added);
    var edited := Extend(steps, Edit(op));
    longer := RunToEnd(edited, r);
    RootOnly(After(longer).bucket.classes, c.name);
    OneMethod(Method(m));
  }

  lemma {:induction false} VisitedCanGoStale(steps: seq<Step>, r: nat)
    requires Runs(steps) && r in After(steps).pending && After(steps).pending[r].seen != {}
    ensures OneEditCanStale(steps, r)
  {
    var op, longer := EditThenStore(steps, r, "x");
    var op', longer' := EditThenStore(steps, r, "y");
    var c := After(steps).pending[r];
    InvHolds(steps);
    assert c.name in c.seen by {
      assert CollectionOk(After(steps), c);
    }
    SeenIsNotReadAgain(After(steps).bucket.classes[c.name := Class(c.name, None, [Method("x")])],
      After(steps).bucket.classes[c.name := Class(c.name, None, [Method("y")])], c);
    assert Method("x").name != Method("y").name;
    if Collected(After(longer).pending[r]).0 == [Method("x")] {
      StoredIsStale(longer', r);
      assert StoresStale(steps, r, op', longer');
    } else {
      StoredIsStale(longer, r);
      assert StoresStale(steps, r, op, longer);
    }
  }

  lemma {:induction false} StoredIsStale(steps: seq<Step>, r: nat)
    requires Runs(steps) && Enabled(After(steps), Store(r))
    ensures Stale(steps + [Store(r)], After(steps).pending[r].name)
      <==> Collected(After(steps).pending[r]) != Inherited(After(steps).bucket.classes, After(steps).pending[r].name)
  {
    var _ := Extend(steps, Store(r));
  }

  // Until the next edit, a collection that had visited nothing stays on course.
  lemma {:induction false} UnvisitedStaysFresh(steps: seq<Step>, longer: seq<Step>, r: nat)
    requires Runs(steps) && ReadsOn(steps, longer)
    requires r in After(steps).pending ==> After(steps).pending[r].seen == {}
    ensures r in After(longer).pending ==> After(longer).pending[r].seen == {} || After(longer).pending[r].stamp == After(longer).edits
  {
    if |longer| == |steps| {
      assert longer == steps;
    } else {
      assert Front(longer)[..|steps|] == steps;
      UnvisitedStaysFresh(steps, Front(longer), r);
    }
  }

  // In every run and for every collection under way: one edit now, and none after, can make the
  // entry it stores stale if and only if the collection has visited a class.
  lemma {:induction false} OneEditExactly(steps: seq<Step>, r: nat)
    requires Runs(steps) && r in After(steps).pending
    ensures OneEditCanStale(steps, r) <==> After(steps).pending[r].seen != {}
  {
    if After(steps).pending[r].seen != {} {
      VisitedCanGoStale(steps, r);
    } else if OneEditCanStale(steps, r) {
      var op, longer :| StoresStale(steps, r, op, longer);
      var edited := Extend(steps, Edit(op));
      UnvisitedStaysFresh(edited, longer, r);
      InvHolds(longer);
      assert CollectionOk(After(longer), After(longer).pending[r]);
      CoherentUnlessOvertaken(longer);
      StoredIsStale(longer, r);
    }
  }

  // ---- two runs in which it happens

  // The collection finds nothing, the class arrives, the empty result is stored.
  lemma EditBeforeStoreIsStale()
    ensures exists steps, name :: Stale(steps, name)
  {
    hide Inherited, BucketLaws.Apply, Clears;
    var c := Class("A", None, [Method("m")]);
    var run := Extend([], Begin(0, "A"));
    run := Extend(run, VisitNext(0));
    AddedClass(EMPTY, c);
    run := Extend(run, Edit(BucketLaws.Add([c], NO_DECLARATIONS)));
    RootOnly(After(run).bucket.classes, "A");
    OneMethod(Method("m"));
    run := Extend(run, Store(0));
    assert Stale(run, "A");
  }

  lemma {:induction false} OneMethod(m: MethodSummary)
    ensures KeepFirst(OverrideKey, [m]) == [m]
  {
    assert Front([m]) == [];
  }

  lemma {:induction false} HalfWalked(a: ClassMetadata, b: ClassMetadata) returns (run: seq<Step>)
    requires a == Class("A", Some("B"), [Method("m")]) && b == Class("B", None, [])
    ensures Runs(run) && After(run).bucket.classes == map["B" := b, "A" := a]
    ensures 0 in After(run).pending && After(run).pending[0]
      == Collection("A", After(run).edits, ["B"], {"A"}, ["A"], [Method("m")], [])
  {
    AddedClass(EMPTY, b);
    run := Extend([], Edit(BucketLaws.Add([b], NO_DECLARATIONS)));
    AddedClass(After(run).bucket, a);
    run := Extend(run, Edit(BucketLaws.Add([a], NO_DECLARATIONS)));
    run := Extend(run, Begin(0, "A"));
    assert Parents(a) == ["B"];
    run := Extend(run, VisitNext(0));
    assert ["A"][1..] + ["B"] == ["B"];
  }

  // A is read with its superclass B, then replaced by a class without one, then B is read.
  lemma EditMidWalkIsStale()
    ensures exists steps, name :: Stale(steps, name)
  {
    var a', b := Class("A", None, [Method("n")]), Class("B", None, []);
    var run := HalfWalked(Class("A", Some("B"), [Method("m")]), b);
    AddedClass(After(run).bucket, a');
    run := Extend(run, Edit(BucketLaws.Add([a'], NO_DECLARATIONS)));
    assert Parents(a') == [] && Parents(b) == [];
    RootOnly(After(run).bucket.classes, "A");
    run := Extend(run, VisitNext(0));
    assert After(run).pending[0].queue == ["B"][1..] + [];
    run := Extend(run, Store(0));
    OneMethod(Method("m"));
    OneMethod(Method("n"));
    assert Method("m").name != Method("n").name;
    assert Stale(run, "A");
  }
}
