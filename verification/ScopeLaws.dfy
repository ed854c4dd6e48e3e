// What a built scope contains and in which order, said of the module table itself.
module ScopeLaws {
  import opened Seqs
  import opened Rows
  import opened BreadthFirst
  import opened ScopeLayers

  // ---- the modules

  ghost function DependencyRows(deps: map<nat, seq<nat>>, order: seq<nat>): seq<seq<nat>> {
    seq(|order|, i requires 0 <= i < |order| => if order[i] in deps then deps[order[i]] else [])
  }

  lemma {:induction false} EdgesAreRows(deps: map<nat, seq<nat>>, root: nat, order: seq<nat>)
    requires forall m :: m in order ==> m in DependencyGraph(deps, root)
    ensures Edges(DependencyGraph(deps, root), order) == Flatten(DependencyRows(deps, order))
    ensures forall d :: d in Edges(DependencyGraph(deps, root), order) ==> d in DependencyGraph(deps, root)
  {
    if order != [] {
      assert order == Front(order) + [Last(order)];
      EdgesAreRows(deps, root, Front(order));
      assert Front(DependencyRows(deps, order)) == DependencyRows(deps, Front(order));
    }
  }

  lemma {:induction false} OrderIsKnown(deps: map<nat, seq<nat>>, root: nat)
    ensures forall m :: m in ModuleOrder(deps, root) ==> m in DependencyGraph(deps, root)
  {
    var g := DependencyGraph(deps, root);
    ScopeVisitsReachableOnce(deps, root);
    forall m | m in ModuleOrder(deps, root) ensures m in g {
      assert Reachable(g, root, m);
      var n: nat :| m in Within(g, root, n);
      WithinGrows(g, root, n, n);
    }
  }

  // The context's module first, then the declared dependencies of each module of the order, module
  // by module, each module where it is first met.
  lemma {:induction false} ModulesByDiscovery(deps: map<nat, seq<nat>>, root: nat)
    ensures ModuleOrder(deps, root) == KeepFirst(Itself, [root] + Flatten(DependencyRows(deps, ModuleOrder(deps, root))))
  {
    var g, order := DependencyGraph(deps, root), ModuleOrder(deps, root);
    WalkIsByDiscovery(g, root);
    OrderIsKnown(deps, root);
    EdgesAreRows(deps, root, order);
    FilterAll(Known(g), [root] + Edges(g, order));
  }

  // ---- the layers

  // A module's part of a scope: its visible source buckets, then the entries of one classpath.
  ghost predicate Contributes(m: ModuleState, classpath: ClasspathId, preferred: Option<nat>, row: seq<Layer>) {
    var sources := VisibleSources(m, classpath, preferred);
    && |row| >= |sources|
    && (forall i :: 0 <= i < |sources| ==> row[i] == Overlay(sources[i]))
    && row[|sources|..] == if classpath in m.classpaths then m.classpaths[classpath] else []
  }

  ghost predicate JdkPart(jdk: Jdk, row: seq<Layer>) {
    match (jdk.artifact, jdk.overlay)
    case (Some(artifact), _) => row == [Artifact(artifact)]
    case (None, Some(bucket)) => row == [Overlay(bucket)]
    case (None, None) => row == []
  }

  // The scope of a context: its own module's part under its classpath and preferred root, then the
  // Main part of every other module of the order, then the JDK.
  ghost predicate ScopeRows(modules: map<nat, ModuleState>, jdk: Jdk, order: seq<nat>, classpath: ClasspathId, preferred: Option<nat>,
    rows: seq<seq<Layer>>)
  {
    && order != [] && |rows| == |order| + 1 && (forall m :: m in order ==> m in modules)
    && Contributes(modules[order[0]], classpath, preferred, rows[0])
    && (forall i :: 0 < i < |order| ==> Contributes(modules[order[i]], Main, None, rows[i]))
    && JdkPart(jdk, rows[|order|])
  }

  lemma {:induction false} LayersContribute(m: ModuleState, classpath: ClasspathId, preferred: Option<nat>)
    ensures Contributes(m, classpath, preferred, LayersOf(m, classpath, preferred))
  {
  }

  ghost function MainRows(modules: map<nat, ModuleState>, order: seq<nat>): seq<seq<Layer>> {
    if order == [] then []
    else MainRows(modules, Front(order)) + [if Last(order) in modules then LayersOf(modules[Last(order)], Main, None) else []]
  }

  lemma {:induction false} MainRowsContribute(modules: map<nat, ModuleState>, order: seq<nat>)
    requires Present(modules, order)
    ensures |MainRows(modules, order)| == |order| && LayersAlong(modules, order) == Flatten(MainRows(modules, order))
    ensures forall i :: 0 <= i < |order| ==> order[i] in modules && Contributes(modules[order[i]], Main, None, MainRows(modules, order)[i])
  {
    hide Contributes, LayersOf;
    if order != [] {
      MainRowsContribute(modules, Front(order));
      LayersContribute(modules[Last(order)], Main, None);
      FlattenSnoc(MainRows(modules, Front(order)), LayersOf(modules[Last(order)], Main, None));
    }
  }

  lemma {:induction false} FlattenCons<T>(row: seq<T>, rows: seq<seq<T>>)
    ensures Flatten([row] + rows) == row + Flatten(rows)
  {
    if rows == [] {
      assert [row] + rows == [row] && Front([row]) == [];
    } else {
      assert Front([row] + rows) == [row] + Front(rows);
      FlattenCons(row, Front(rows));
    }
  }

  lemma {:induction false} ScopeContents(modules: map<nat, ModuleState>, deps: map<nat, seq<nat>>, jdk: Jdk, root: nat,
      classpath: ClasspathId, preferred: Option<nat>) returns (rows: seq<seq<Layer>>)
    requires root in modules && ModuleOrder(deps, root) != [] && Present(modules, ModuleOrder(deps, root)[1..])
    ensures ScopeRows(modules, jdk, ModuleOrder(deps, root), classpath, preferred, rows)
    ensures ScopeOf(modules, deps, jdk, root, classpath, preferred) == Flatten(rows)
  {
    var order := ModuleOrder(deps, root);
    var own, others := LayersOf(modules[root], classpath, preferred), MainRows(modules, order[1..]);
    ScopeVisitsReachableOnce(deps, root);
    LayersContribute(modules[root], classpath, preferred);
    MainRowsContribute(modules, order[1..]);
    hide Contributes, LayersOf, ModuleOrder, MainRows, Flatten, LayersAlong, Present, NearestFirst;
    RowsFit(modules, jdk, order, classpath, preferred, own, others);
    rows := [own] + others + [JdkLayer(jdk)];
    FlattenCons(own, others);
    FlattenSnoc([own] + others, JdkLayer(jdk));
  }

  lemma {:induction false} RowsFit(modules: map<nat, ModuleState>, jdk: Jdk, order: seq<nat>, classpath: ClasspathId, preferred: Option<nat>,
      own: seq<Layer>, others: seq<seq<Layer>>)
    requires order != [] && order[0] in modules && |others| == |order[1..]|
    requires Contributes(modules[order[0]], classpath, preferred, own)
    requires forall i :: 0 <= i < |order[1..]| ==> order[1..][i] in modules && Contributes(modules[order[1..][i]], Main, None, others[i])
    ensures ScopeRows(modules, jdk, order, classpath, preferred, [own] + others + [JdkLayer(jdk)])
  {
    hide Contributes;
    forall i | 0 < i < |order| ensures order[i] in modules && Contributes(modules[order[i]], Main, None, others[i - 1]) {
      assert order[i] == order[1..][i - 1];
    }
  }

  lemma {:induction false} ScopeStarts(modules: map<nat, ModuleState>, deps: map<nat, seq<nat>>, jdk: Jdk, root: nat,
      classpath: ClasspathId, preferred: Option<nat>, layers: seq<Layer>)
    requires root in modules && ModuleOrder(deps, root) != [] && Present(modules, ModuleOrder(deps, root)[1..])
    requires layers == ScopeOf(modules, deps, jdk, root, classpath, preferred)
    ensures exists n :: 0 <= n <= |layers| && Contributes(modules[root], classpath, preferred, layers[..n])
  {
    hide Contributes;
    var own := LayersOf(modules[root], classpath, preferred);
    LayersContribute(modules[root], classpath, preferred);
    assert layers[..|own|] == own;
  }

  // Entries set for the tests of a module stand directly behind its sources in a test context.
  method SetThenBuild(table: ModuleTable, id: nat, entries: seq<Layer>, preferred: Option<nat>) returns (layers: seq<Layer>)
    modifies table
    ensures id in table.modules
    ensures var sources := VisibleSources(table.modules[id], Test, preferred);
      && |sources| + |entries| <= |layers|
      && (forall i :: 0 <= i < |sources| ==> layers[i] == Overlay(sources[i]))
      && layers[|sources|..|sources| + |entries|] == entries
  {
    hide ScopeOf, Present, ModuleOrder, VisibleSources;
    table.SetClasspath(id, Test, entries);
    layers := table.BuildScopeLayers(id, Test, preferred);
    ScopeStarts(table.modules, table.deps, table.jdk, id, Test, preferred, layers);
    ghost var n :| 0 <= n <= |layers| && Contributes(table.modules[id], Test, preferred, layers[..n]);
  }
}
