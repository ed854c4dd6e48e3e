// The layers an analysis context sees: a module's own sources and classpath, then those of
// every module it transitively depends on, then the JDK. Buckets are named by identity; the
// iteration order of a module's source roots is whatever order its list has.
module ScopeLayers {
  import opened Seqs
  import opened BreadthFirst

  datatype ClasspathId = Main | Test

  datatype Layer = Overlay(bucket: nat) | Artifact(id: nat)

  datatype SourceRoot = SourceRoot(id: nat, classpath: ClasspathId, bucket: nat)

  predicate DistinctIds(roots: seq<SourceRoot>) {
    forall i, j :: 0 <= i < j < |roots| ==> roots[i].id != roots[j].id
  }

  // A hash map's entries, in its iteration order.
  type SourceRoots = roots: seq<SourceRoot> | DistinctIds(roots)

  datatype ModuleState = ModuleState(source: nat, classpaths: map<ClasspathId, seq<Layer>>, roots: SourceRoots)

  datatype Jdk = Jdk(artifact: Option<nat>, overlay: Option<nat>)

  // ---- the sources of one module

  function RootNamed(roots: seq<SourceRoot>, id: nat): (r: Option<SourceRoot>)
    ensures r.Some? ==> r.value in roots && r.value.id == id
    ensures r.None? ==> forall root :: root in roots ==> root.id != id
  {
    if roots == [] then None
    else if roots[0].id == id then Some(roots[0])
    else RootNamed(roots[1..], id)
  }

  function Preferred(m: ModuleState, preferred: Option<nat>): Option<SourceRoot> {
    if preferred.Some? then RootNamed(m.roots, preferred.value) else None
  }

  function Matching(roots: seq<SourceRoot>, classpath: ClasspathId, except: Option<SourceRoot>): seq<SourceRoot> {
    if roots == [] then []
    else
      Matching(Front(roots), classpath, except)
      + (if Last(roots).classpath == classpath && (except.None? || Last(roots).id != except.value.id) then [Last(roots)] else [])
  }

  function IdsOf(roots: seq<SourceRoot>): set<nat> {
    set root | root in roots :: root.id
  }

  function VisibleRoots(m: ModuleState, classpath: ClasspathId, preferred: Option<nat>): seq<SourceRoot> {
    var first := Preferred(m, preferred);
    (if first.Some? then [first.value] else [])
    + (if classpath == Test then Matching(m.roots, Test, first) else [])
    + Matching(m.roots, Main, first)
  }

  function BucketsOf(roots: seq<SourceRoot>): (buckets: seq<nat>)
    ensures |buckets| == |roots| && forall i :: 0 <= i < |roots| ==> buckets[i] == roots[i].bucket
  {
    seq(|roots|, i requires 0 <= i < |roots| => roots[i].bucket)
  }

  // The module-level bucket stands in when no root is visible.
  function VisibleSources(m: ModuleState, classpath: ClasspathId, preferred: Option<nat>): seq<nat> {
    var visible := VisibleRoots(m, classpath, preferred);
    if visible == [] then [m.source] else BucketsOf(visible)
  }

  // No root shares the module-level bucket.
  ghost predicate OwnBuckets(m: ModuleState) {
    forall root :: root in m.roots ==> root.bucket != m.source
  }

  lemma {:induction false} MatchingMembers(roots: seq<SourceRoot>, classpath: ClasspathId, except: Option<SourceRoot>, root: SourceRoot)
    ensures root in Matching(roots, classpath, except) <==>
      root in roots && root.classpath == classpath && (except.None? || root.id != except.value.id)
  {
    if roots != [] {
      assert roots == Front(roots) + [Last(roots)];
      MatchingMembers(Front(roots), classpath, except, root);
    }
  }

  lemma {:induction false} MatchingOnce(roots: seq<SourceRoot>, classpath: ClasspathId, except: Option<SourceRoot>)
    requires DistinctIds(roots)
    ensures NoDup(Matching(roots, classpath, except))
  {
    if roots != [] {
      MatchingOnce(Front(roots), classpath, except);
      MatchingMembers(Front(roots), classpath, except, Last(roots));
    }
  }

  lemma {:induction false} VisibleOnce(m: ModuleState, classpath: ClasspathId, preferred: Option<nat>)
    ensures NoDup(VisibleRoots(m, classpath, preferred))
  {
    hide Matching;
    var first := Preferred(m, preferred);
    var tests, mains := Matching(m.roots, Test, first), Matching(m.roots, Main, first);
    MatchingOnce(m.roots, Test, first);
    MatchingOnce(m.roots, Main, first);
    if first.Some? {
      MatchingMembers(m.roots, Test, first, first.value);
      MatchingMembers(m.roots, Main, first, first.value);
    }
    forall i, j | 0 <= i < |tests| && 0 <= j < |mains| ensures tests[i] != mains[j] {
      MatchingMembers(m.roots, Test, first, tests[i]);
      MatchingMembers(m.roots, Main, first, tests[i]);
      assert tests[i] in tests && mains[j] in mains;
    }
  }

  // Visible are exactly the preferred root and the roots on a classpath the context sees,
  // each once, the preferred one first whatever its classpath.
  lemma {:induction false} VisibleExactly(m: ModuleState, classpath: ClasspathId, preferred: Option<nat>, root: SourceRoot)
    ensures var visible := VisibleRoots(m, classpath, preferred);
      && (root in visible <==> root in m.roots && (preferred == Some(root.id) || root.classpath == Main || classpath == Test))
      && NoDup(visible)
      && (Preferred(m, preferred).Some? ==> visible[0] == Preferred(m, preferred).value)
  {
    hide Matching;
    VisibleOnce(m, classpath, preferred);
    MatchingMembers(m.roots, Test, Preferred(m, preferred), root);
    MatchingMembers(m.roots, Main, Preferred(m, preferred), root);
  }

  lemma {:induction false} MatchingInOrder(roots: seq<SourceRoot>, classpath: ClasspathId, except: Option<SourceRoot>) returns (at: seq<nat>)
    ensures |at| == |Matching(roots, classpath, except)|
    ensures forall i :: 0 <= i < |at| ==> at[i] < |roots| && Matching(roots, classpath, except)[i] == roots[at[i]]
    ensures forall i, j :: 0 <= i < j < |at| ==> at[i] < at[j]
  {
    at := [];
    if roots != [] {
      var before := MatchingInOrder(Front(roots), classpath, except);
      var last := Last(roots);
      at := if last.classpath == classpath && (except.None? || last.id != except.value.id) then before + [|roots| - 1] else before;
    }
  }

  // Behind the preferred root no root of the tests follows a Main root, and the roots of one
  // classpath keep the table's order.
  lemma {:induction false} VisibleInOrder(m: ModuleState, classpath: ClasspathId, preferred: Option<nat>) returns (at: seq<nat>)
    ensures var visible := VisibleRoots(m, classpath, preferred);
      var first := if Preferred(m, preferred).Some? then 1 else 0;
      && |at| == |visible|
      && (forall i :: first <= i < |at| ==> at[i] < |m.roots| && visible[i] == m.roots[at[i]])
      && (forall i, j :: first <= i < j < |at| ==>
           (visible[i].classpath == visible[j].classpath && at[i] < at[j]) || (visible[i].classpath == Test && visible[j].classpath == Main))
  {
    var first := Preferred(m, preferred);
    var tests: seq<nat> := [];
    if classpath == Test {
      tests := MatchingInOrder(m.roots, Test, first);
      MatchingClasspath(m.roots, Test, first);
    }
    var mains := MatchingInOrder(m.roots, Main, first);
    MatchingClasspath(m.roots, Main, first);
    hide Matching;
    at := (if first.Some? then [0] else []) + tests + mains;
  }

  lemma {:induction false} MatchingClasspath(roots: seq<SourceRoot>, classpath: ClasspathId, except: Option<SourceRoot>)
    ensures forall i :: 0 <= i < |Matching(roots, classpath, except)| ==> Matching(roots, classpath, except)[i].classpath == classpath
  {
    forall i | 0 <= i < |Matching(roots, classpath, except)| ensures Matching(roots, classpath, except)[i].classpath == classpath {
      MatchingMembers(roots, classpath, except, Matching(roots, classpath, except)[i]);
    }
  }

  // The buckets of the visible roots in that order; the module's own only when there is none.
  lemma {:induction false} SourcesExactly(m: ModuleState, classpath: ClasspathId, preferred: Option<nat>)
    ensures var visible, sources := VisibleRoots(m, classpath, preferred), VisibleSources(m, classpath, preferred);
      if visible == [] then sources == [m.source]
      else |sources| == |visible| && forall i :: 0 <= i < |visible| ==> sources[i] == visible[i].bucket
  {
  }

  // ---- where an update of a source file goes

  function TargetBucket(m: ModuleState, sourceRoot: Option<nat>): nat {
    var root := Preferred(m, sourceRoot);
    if root.Some? then root.value.bucket else m.source
  }

  // An update is visible to a context that prefers its root, except when it fell back to the
  // module-level bucket while the context sees some source root.
  lemma {:induction false} UpdateIsVisible(m: ModuleState, classpath: ClasspathId, sourceRoot: Option<nat>)
    requires OwnBuckets(m)
    ensures TargetBucket(m, sourceRoot) in VisibleSources(m, classpath, sourceRoot) <==>
      Preferred(m, sourceRoot).Some? || forall root :: root in m.roots ==> root.classpath == Test && classpath == Main
  {
    var visible := VisibleRoots(m, classpath, sourceRoot);
    forall root: SourceRoot ensures root in visible <==>
      root in m.roots && (sourceRoot == Some(root.id) || root.classpath == Main || classpath == Test)
    {
      VisibleExactly(m, classpath, sourceRoot, root);
    }
    if Preferred(m, sourceRoot).Some? {
      VisibleExactly(m, classpath, sourceRoot, Preferred(m, sourceRoot).value);
      assert BucketsOf(visible)[0] == TargetBucket(m, sourceRoot);
    } else if visible != [] {
      assert visible[0] in visible;
      forall i | 0 <= i < |visible| ensures BucketsOf(visible)[i] != m.source {
        assert visible[i] in visible;
      }
    } else {
      forall root | root in m.roots ensures root.classpath == Test && classpath == Main {
        assert root !in visible;
      }
    }
  }

  // One Main root, and an update under a root the module does not know.
  lemma UnknownRootIsInvisible()
    ensures var m := ModuleState(0, map[], [SourceRoot(1, Main, 5)]);
      OwnBuckets(m) && TargetBucket(m, Some(2)) == 0 && forall classpath :: VisibleSources(m, classpath, Some(2)) == [5]
  {
    var m := ModuleState(0, map[], [SourceRoot(1, Main, 5)]);
    var root := m.roots[0];
    assert Preferred(m, Some(2)) == None;
    assert Front(m.roots) == [] && Last(m.roots) == root;
    assert Matching(m.roots, Main, None) == [root] && Matching(m.roots, Test, None) == [];
  }

  // ---- all modules

  function Overlays(buckets: seq<nat>): (layers: seq<Layer>)
    ensures |layers| == |buckets| && forall i :: 0 <= i < |buckets| ==> layers[i] == Overlay(buckets[i])
  {
    seq(|buckets|, i requires 0 <= i < |buckets| => Overlay(buckets[i]))
  }

  function Entries(m: ModuleState, classpath: ClasspathId): seq<Layer> {
    if classpath in m.classpaths then m.classpaths[classpath] else []
  }

  function LayersOf(m: ModuleState, classpath: ClasspathId, preferred: Option<nat>): seq<Layer> {
    Overlays(VisibleSources(m, classpath, preferred)) + Entries(m, classpath)
  }

  // At most one layer, none only without a JDK, and the overlay only without an artifact.
  function JdkLayer(jdk: Jdk): (layers: seq<Layer>)
    ensures |layers| <= 1
    ensures layers == [] <==> jdk.artifact.None? && jdk.overlay.None?
    ensures forall layer :: layer in layers ==>
      if layer.Artifact? then jdk.artifact == Some(layer.id) else jdk.artifact.None? && jdk.overlay == Some(layer.bucket)
  {
    if jdk.artifact.Some? then [Artifact(jdk.artifact.value)]
    else if jdk.overlay.Some? then [Overlay(jdk.overlay.value)]
    else []
  }

  function DepsOf(deps: map<nat, seq<nat>>, m: nat): seq<nat> {
    if m in deps then deps[m] else []
  }

  // Every module that can come up, with or without declared dependencies.
  ghost function Universe(deps: map<nat, seq<nat>>, root: nat): set<nat> {
    {root} + deps.Keys + (set k, d | k in deps && d in deps[k] :: d)
  }

  ghost function DependencyGraph(deps: map<nat, seq<nat>>, root: nat): map<nat, seq<nat>> {
    map m | m in Universe(deps, root) :: DepsOf(deps, m)
  }

  ghost function ModuleOrder(deps: map<nat, seq<nat>>, root: nat): seq<nat> {
    Walk(DependencyGraph(deps, root), [root], {})
  }

  ghost function LayersAlong(modules: map<nat, ModuleState>, order: seq<nat>): seq<Layer> {
    if order == [] then []
    else LayersAlong(modules, Front(order)) + (if Last(order) in modules then LayersOf(modules[Last(order)], Main, None) else [])
  }

  // The module's own layers, then the Main layers of each other reachable module, then the JDK.
  ghost function ScopeOf(modules: map<nat, ModuleState>, deps: map<nat, seq<nat>>, jdk: Jdk, root: nat, classpath: ClasspathId,
    preferred: Option<nat>): seq<Layer>
    requires root in modules && ModuleOrder(deps, root) != []
  {
    LayersOf(modules[root], classpath, preferred) + LayersAlong(modules, ModuleOrder(deps, root)[1..]) + JdkLayer(jdk)
  }

  lemma {:induction false} OrderStartsAtRoot(deps: map<nat, seq<nat>>, root: nat)
    ensures var g := DependencyGraph(deps, root);
      ModuleOrder(deps, root) == [root] + Walk(g, DepsOf(deps, root), {root})
  {
    var g := DependencyGraph(deps, root);
    Turn(g, [root], {});
    assert [root][1..] + g[root] == DepsOf(deps, root);
    assert {} + {root} == {root};
  }

  // Modules after the root come in breadth-first order, each once, exactly the reachable ones.
  lemma {:induction false} ScopeVisitsReachableOnce(deps: map<nat, seq<nat>>, root: nat)
    ensures ModuleOrder(deps, root) != [] && ModuleOrder(deps, root)[0] == root
    ensures NearestFirst(DependencyGraph(deps, root), root, ModuleOrder(deps, root))
    ensures root !in ModuleOrder(deps, root)[1..]
    ensures forall m :: m in ModuleOrder(deps, root)[1..] <==> m != root && Reachable(DependencyGraph(deps, root), root, m)
  {
    var g, order := DependencyGraph(deps, root), ModuleOrder(deps, root);
    OrderStartsAtRoot(deps, root);
    WalkIsNearestFirst(g, root);
    forall m ensures m in order <==> m == root || m in order[1..] {
      assert order == [root] + order[1..];
    }
    forall m | Reachable(g, root, m) ensures m in order {
      var n: nat :| m in Within(g, root, n);
    }
  }

  // Every module of the order has come into being.
  ghost predicate Present(modules: map<nat, ModuleState>, order: seq<nat>) {
    order == [] || (Last(order) in modules && Present(modules, Front(order)))
  }

  lemma {:induction false} LayersAlongGrows(modules: map<nat, ModuleState>, more: map<nat, ModuleState>, order: seq<nat>)
    requires Extends(modules, more) && Present(modules, order)
    ensures LayersAlong(more, order) == LayersAlong(modules, order) && Present(more, order)
  {
    if order != [] {
      LayersAlongGrows(modules, more, Front(order));
    }
  }

  ghost predicate Extends(before: map<nat, ModuleState>, after: map<nat, ModuleState>) {
    forall m :: m in before ==> m in after && after[m] == before[m]
  }

  ghost predicate AllKnown<T>(names: seq<nat>, table: map<nat, T>) {
    forall m :: m in names ==> m in table
  }

  lemma {:induction false} DependenciesKnown(deps: map<nat, seq<nat>>, root: nat, m: nat)
    ensures AllKnown(DepsOf(deps, m), DependencyGraph(deps, root))
  {
  }

  lemma Together<T>(a: seq<T>, b: seq<T>, c: seq<T>)
    ensures a + b + c == a + (b + c)
  {
  }

  lemma KnownTogether<T>(a: seq<nat>, b: seq<nat>, table: map<nat, T>)
    requires AllKnown(a, table) && AllKnown(b, table)
    ensures AllKnown(a + b, table)
  {
  }

  lemma {:induction false} LayersAlongSnoc(own: seq<Layer>, modules: map<nat, ModuleState>, order: seq<nat>, m: nat)
    requires m in modules && Present(modules, order)
    ensures own + LayersAlong(modules, order + [m]) == own + LayersAlong(modules, order) + LayersOf(modules[m], Main, None)
    ensures Present(modules, order + [m])
  {
    assert Front(order + [m]) == order;
  }

  // The dependencies of a module a context does not reach do not matter to it.
  lemma {:induction false} UnreachedDependencies(deps: map<nat, seq<nat>>, root: nat, id: nat, ds: seq<nat>)
    requires id !in ModuleOrder(deps, root)
    ensures ModuleOrder(deps[id := ds], root) == ModuleOrder(deps, root)
  {
    var g, h, order := DependencyGraph(deps, root), DependencyGraph(deps[id := ds], root), ModuleOrder(deps, root);
    WalkIsNearestFirst(g, root);
    forall x | x in order ensures x in h {
      ReachedStaysKnown(deps, root, id, ds, x);
    }
    forall x | x in order ensures x in g {
      var n: nat :| x in Within(g, root, n);
      WithinGrows(g, root, n, n);
    }
    SameWalk(g, h, [root], {});
  }

  lemma {:induction false} ReachedStaysKnown(deps: map<nat, seq<nat>>, root: nat, id: nat, ds: seq<nat>, x: nat)
    requires id !in ModuleOrder(deps, root) && x in ModuleOrder(deps, root)
    ensures x in DependencyGraph(deps[id := ds], root)
  {
    var g, order := DependencyGraph(deps, root), ModuleOrder(deps, root);
    WalkIsNearestFirst(g, root);
    assert Reachable(g, root, x);
    var n: nat :| x in Within(g, root, n);
    WithinStaysKnown(deps, root, id, ds, x, n);
  }

  lemma {:induction false} WithinStaysKnown(deps: map<nat, seq<nat>>, root: nat, id: nat, ds: seq<nat>, x: nat, n: nat)
    requires NearestFirst(DependencyGraph(deps, root), root, ModuleOrder(deps, root)) && id !in ModuleOrder(deps, root)
    requires x in Within(DependencyGraph(deps, root), root, n)
    ensures x in DependencyGraph(deps[id := ds], root)
  {
    var g := DependencyGraph(deps, root);
    if n > 0 && x !in Within(g, root, n - 1) {
      var q :| q in Within(g, root, n - 1) && q in g && x in g[q];
      assert q in ModuleOrder(deps, root);
      assert x in DepsOf(deps[id := ds], q);
    } else if n > 0 {
      WithinStaysKnown(deps, root, id, ds, x, n - 1);
    }
  }

  // How far the walk has come: `order` has been added, the rest is still to be walked.
  ghost predicate OnCourse(deps: map<nat, seq<nat>>, root: nat, order: seq<nat>, queue: seq<nat>, seen: set<nat>) {
    var g := DependencyGraph(deps, root);
    AllKnown(queue, g) && [root] + (order + Walk(g, queue, seen)) == ModuleOrder(deps, root)
  }

  ghost function Left(deps: map<nat, seq<nat>>, root: nat, seen: set<nat>): nat {
    |DependencyGraph(deps, root).Keys - seen|
  }

  lemma {:induction false} CourseStart(deps: map<nat, seq<nat>>, root: nat)
    ensures OnCourse(deps, root, [], DepsOf(deps, root), {root})
    ensures ModuleOrder(deps, root) != []
  {
    OrderStartsAtRoot(deps, root);
    DependenciesKnown(deps, root, root);
  }

  lemma {:induction false} CourseTurn(deps: map<nat, seq<nat>>, root: nat, order: seq<nat>, queue: seq<nat>, seen: set<nat>)
    requires OnCourse(deps, root, order, queue, seen) && queue != []
    ensures queue[0] in seen ==> OnCourse(deps, root, order, queue[1..], seen)
    ensures queue[0] !in seen ==>
      && OnCourse(deps, root, order + [queue[0]], queue[1..] + DepsOf(deps, queue[0]), seen + {queue[0]})
      && Left(deps, root, seen + {queue[0]}) < Left(deps, root, seen)
  {
    var g := DependencyGraph(deps, root);
    LoopTurn(g, order + Walk(g, queue, seen), order, queue, seen);
    DependenciesKnown(deps, root, queue[0]);
    KnownTogether(queue[1..], DepsOf(deps, queue[0]), g);
  }

  lemma {:induction false} CourseEnd(deps: map<nat, seq<nat>>, root: nat, order: seq<nat>, seen: set<nat>)
    requires OnCourse(deps, root, order, [], seen)
    ensures ModuleOrder(deps, root) != [] && ModuleOrder(deps, root)[1..] == order
  {
    assert order + [] == order;
    assert ([root] + order)[1..] == order;
  }

  class ModuleTable {
    var modules: map<nat, ModuleState>
    var deps: map<nat, seq<nat>>
    var jdk: Jdk
    var nextBucket: nat

    constructor ()
      ensures modules.Keys == {0} && deps == map[] && jdk == Jdk(None, None)
    {
      modules, deps, jdk, nextBucket := map[0 := ModuleState(0, map[], [])], map[], Jdk(None, None), 1;
    }

    // A module nobody declared comes into being empty.
    method EnsureModule(id: nat) returns (m: ModuleState)
      modifies this`modules, this`nextBucket
      ensures Extends(old(modules), modules) && modules.Keys == old(modules).Keys + {id} && m == modules[id]
      ensures id !in old(modules) ==> m == ModuleState(old(nextBucket), map[], []) && nextBucket == old(nextBucket) + 1
    {
      if id !in modules {
        modules := modules[id := ModuleState(nextBucket, map[], [])];
        nextBucket := nextBucket + 1;
      }
      m := modules[id];
    }

    // No context that does not already depend on the module sees a change.
    method SetDeps(id: nat, ds: seq<nat>)
      modifies this`deps
      ensures deps == old(deps)[id := ds]
      ensures forall root :: id !in ModuleOrder(old(deps), root) ==> ModuleOrder(deps, root) == ModuleOrder(old(deps), root)
    {
      forall root | id !in ModuleOrder(deps, root) ensures ModuleOrder(deps[id := ds], root) == ModuleOrder(deps, root) {
        UnreachedDependencies(deps, root, id, ds);
      }
      deps := deps[id := ds];
    }

    method SetClasspath(id: nat, classpath: ClasspathId, entries: seq<Layer>)
      modifies this`modules, this`nextBucket
      ensures id in modules && modules.Keys == old(modules).Keys + {id}
      ensures Entries(modules[id], classpath) == entries
      ensures forall other :: other != classpath && id in old(modules) ==> Entries(modules[id], other) == Entries(old(modules)[id], other)
      ensures id in old(modules) ==> modules[id].source == old(modules)[id].source && modules[id].roots == old(modules)[id].roots
      ensures forall m :: m in old(modules) && m != id ==> modules[m] == old(modules)[m]
    {
      var m := EnsureModule(id);
      modules := modules[id := m.(classpaths := m.classpaths[classpath := entries])];
    }

    method VisibleSourceLayers(m: ModuleState, classpath: ClasspathId, preferred: Option<nat>) returns (layers: seq<nat>)
      ensures layers == VisibleSources(m, classpath, preferred)
    {
      if m.roots == [] {
        return [m.source];
      }
      var visible: seq<SourceRoot>, seen: set<nat> := [], {};
      var first := Preferred(m, preferred);
      if first.Some? {
        visible, seen := [first.value], {first.value.id};
      }
      ghost var chosen := visible;
      if classpath == Test {
        visible, seen := PushMatching(m, Test, first, visible, seen);
      }
      ghost var tests := if classpath == Test then Matching(m.roots, Test, first) else [];
      assert visible == chosen + tests;
      OtherClasspathUnseen(m, first);
      visible, seen := PushMatching(m, Main, first, visible, seen);
      layers := if visible == [] then [m.source] else BucketsOf(visible);
    }

    // Appends the roots of one classpath that have not been seen.
    method PushMatching(m: ModuleState, requested: ClasspathId, ghost first: Option<SourceRoot>, before: seq<SourceRoot>, known: set<nat>)
      returns (visible: seq<SourceRoot>, seen: set<nat>)
      requires forall root :: root in m.roots && root.classpath == requested ==> (root.id in known <==> first.Some? && root.id == first.value.id)
      ensures visible == before + Matching(m.roots, requested, first)
      ensures seen == known + IdsOf(Matching(m.roots, requested, first))
    {
      hide Matching, IdsOf, DistinctIds;
      MatchingNone(requested, first);
      visible, seen := before, known;
      for i := 0 to |m.roots|
        invariant visible == before + Matching(m.roots[..i], requested, first)
        invariant seen == known + IdsOf(Matching(m.roots[..i], requested, first))
      {
        var root := m.roots[i];
        MatchingGrows(m, requested, first, i);
        if root.id in seen || root.classpath != requested {
          continue;
        }
        visible := visible + [root];
        seen := seen + {root.id};
      }
      assert m.roots[..|m.roots|] == m.roots;
    }

    method BuildScopeLayers(id: nat, classpath: ClasspathId, preferred: Option<nat>) returns (layers: seq<Layer>)
      modifies this`modules, this`nextBucket
      ensures Extends(old(modules), modules) && id in modules
      ensures ModuleOrder(deps, id) != [] && Present(modules, ModuleOrder(deps, id)[1..])
      ensures layers == ScopeOf(modules, deps, jdk, id, classpath, preferred)
    {
      var m := EnsureModule(id);
      var sources := VisibleSourceLayers(m, classpath, preferred);
      layers := Overlays(sources) + Entries(m, classpath);
      ghost var own := layers;
      layers := WalkDependencies(id, layers);
      layers := layers + JdkLayer(jdk);
    }

    method AddDependency(dep: nat, own: seq<Layer>, before: seq<Layer>, ghost order: seq<nat>) returns (layers: seq<Layer>)
      requires Present(modules, order) && before == own + LayersAlong(modules, order)
      modifies this`modules, this`nextBucket
      ensures Extends(old(modules), modules)
      ensures Present(modules, order + [dep]) && layers == own + LayersAlong(modules, order + [dep])
    {
      var m := EnsureModule(dep);
      LayersAlongGrows(old(modules), modules, order);
      LayersAlongSnoc(own, modules, order, dep);
      var sources := VisibleSourceLayers(m, Main, None);
      Together(before, Overlays(sources), Entries(m, Main));
      layers := before + Overlays(sources) + Entries(m, Main);
    }

    method WalkDependencies(id: nat, own: seq<Layer>) returns (layers: seq<Layer>)
      requires id in modules
      modifies this`modules, this`nextBucket
      ensures Extends(old(modules), modules)
      ensures ModuleOrder(deps, id) != [] && Present(modules, ModuleOrder(deps, id)[1..])
      ensures layers == own + LayersAlong(modules, ModuleOrder(deps, id)[1..])
    {
      ghost var order: seq<nat> := [];
      CourseStart(deps, id);
      layers := own;
      var queue, seen := DepsOf(deps, id), {id};
      while queue != []
        invariant Extends(old(modules), modules)
        invariant OnCourse(deps, id, order, queue, seen)
        invariant Present(modules, order) && layers == own + LayersAlong(modules, order)
        decreases Left(deps, id, seen), |queue|
      {
        CourseTurn(deps, id, order, queue, seen);
        var dep := queue[0];
        queue := queue[1..];
        if dep in seen {
          continue;
        }
        seen := seen + {dep};
        layers := AddDependency(dep, own, layers, order);
        queue := queue + DepsOf(deps, dep);
        order := order + [dep];
      }
      CourseEnd(deps, id, order, seen);
    }
  }

  lemma {:induction false} MatchingGrows(m: ModuleState, requested: ClasspathId, first: Option<SourceRoot>, i: nat)
    requires i < |m.roots|
    ensures var root, before, after := m.roots[i], Matching(m.roots[..i], requested, first), Matching(m.roots[..i + 1], requested, first);
      && root.id !in IdsOf(before)
      && if root.classpath == requested && (first.None? || root.id != first.value.id)
         then after == before + [root] && IdsOf(after) == IdsOf(before) + {root.id} else after == before
  {
    assert Front(m.roots[..i + 1]) == m.roots[..i];
    NotYetSeen(m, requested, first, i);
  }

  lemma MatchingNone(requested: ClasspathId, first: Option<SourceRoot>)
    ensures Matching([], requested, first) == [] && IdsOf([]) == {}
  {
  }

  lemma {:induction false} NotYetSeen(m: ModuleState, requested: ClasspathId, first: Option<SourceRoot>, i: nat)
    requires i < |m.roots|
    ensures forall root :: root in Matching(m.roots[..i], requested, first) ==> root.id != m.roots[i].id
  {
    forall root | root in Matching(m.roots[..i], requested, first) ensures root.id != m.roots[i].id {
      MatchingMembers(m.roots[..i], requested, first, root);
    }
  }

  lemma {:induction false} OtherClasspathUnseen(m: ModuleState, first: Option<SourceRoot>)
    ensures forall root, other :: root in m.roots && root.classpath == Main && other in Matching(m.roots, Test, first) ==> other.id != root.id
  {
    forall root, other | root in m.roots && root.classpath == Main && other in Matching(m.roots, Test, first)
      ensures other.id != root.id
    {
      MatchingMembers(m.roots, Test, first, other);
    }
  }
}
