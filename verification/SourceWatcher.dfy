// The workspace side of the source watcher: buckets edited in place, one file after the other.
module SourceWatcher {
  import opened Seqs
  import opened ClassModel
  import opened TextOrder
  import opened BucketSpec
  import opened Bucket
  import opened WatchSpec
  import opened WatchLaws

  lemma RemovedIs(env: Env, s: Index, p: string, after: Index)
    requires var b := env.contextOf(p);
      b in s.buckets && after == Released(
        s.(buckets := s.buckets[b := RemoveOrigin(s.buckets[b], Origin(p))], tracked := s.tracked - {p}), p)
    ensures after == Removed(env, s, p)
  {
  }

  lemma UpsertedIs(env: Env, s: Index, p: string, content: string, after: Index)
    requires var b := env.contextOf(p);
      b in s.buckets && after == Redeclared(Released(s.(
        buckets := s.buckets[b := Update(s.buckets[b], Origin(p), env.classesOf(p, content), env.rangesOf(p, content))],
        tracked := s.tracked + {p}), p), p, env.moduleOf(p, content))
    ensures after == Upserted(env, s, p, content)
  {
  }

  class Workspace {
    const buckets: map<nat, BucketIndex>
    var tracked: set<string>
    var retained: set<string>
    var modules: map<string, string>
    ghost var filed: map<nat, Abstract>

    // Contexts do not share buckets.
    ghost predicate Valid()
      reads this`filed, buckets.Values
    {
      && filed.Keys == buckets.Keys
      && (forall b :: b in buckets ==> buckets[b].Valid() && buckets[b].Contents() == filed[b])
      && (forall a, b :: a in buckets && b in buckets && a != b ==> buckets[a] != buckets[b])
    }

    ghost function Contents(): Index
      reads this`filed, this`tracked, this`retained, this`modules
    {
      Index(filed, tracked, retained, modules)
    }

    constructor (buckets: map<nat, BucketIndex>)
      requires forall b :: b in buckets ==> buckets[b].Valid()
      requires forall a, b :: a in buckets && b in buckets && a != b ==> buckets[a] != buckets[b]
      ensures Valid() && this.buckets == buckets && tracked == {} && retained == {} && modules == map[]
    {
      hide BucketIndex.Valid, BucketIndex.Contents;
      this.buckets, tracked, retained, modules := buckets, {}, {}, map[];
      filed := map b | b in buckets :: buckets[b].Contents();
    }

    method RemoveIn(b: nat, o: ClassOrigin) returns (removed: bool)
      requires Valid() && b in buckets
      modifies buckets[b], this`filed
      ensures Valid() && filed == old(filed)[b := RemoveOrigin(old(filed)[b], o)]
      ensures removed <==> OriginNames(old(filed)[b], o) != {}
    {
      hide BucketIndex.Valid, BucketIndex.Contents;
      removed := buckets[b].RemoveByOrigin(o);
      filed := filed[b := buckets[b].Contents()];
    }

    method UpdateIn(b: nat, o: ClassOrigin, cs: seq<ClassMetadata>, d: Declarations) returns (changed: bool)
      requires Valid() && b in buckets
      modifies buckets[b], this`filed
      ensures Valid() && filed == old(filed)[b := Update(old(filed)[b], o, cs, d)]
      ensures changed <==> Changes(old(filed)[b], o, cs)
    {
      hide BucketIndex.Valid, BucketIndex.Contents;
      changed := buckets[b].UpdateSource(o, cs, d);
      filed := filed[b := buckets[b].Contents()];
    }

    // Analysing a document retains its query input.
    method RetainSalsaFile(p: string)
      modifies this`retained
      ensures Contents() == old(Contents()).(retained := old(retained) + {p})
    {
      retained := retained + {p};
    }

    method RemoveSalsaFile(p: string)
      modifies this`retained, this`modules
      ensures Contents() == Released(old(Contents()), p)
    {
      if p !in retained {
        return;
      }
      retained := retained - {p};
      modules := modules - {p};
    }

    method RefreshModule(p: string, descriptor: Option<string>) returns (changed: bool)
      modifies this`modules
      ensures Contents() == Redeclared(old(Contents()), p, descriptor)
      ensures changed <==> ModuleAt(old(Contents()), p) != descriptor
    {
      match descriptor
      case Some(text) =>
        changed := p !in modules || modules[p] != text;
        modules := modules[p := text];
      case None =>
        changed := p in modules;
        modules := modules - {p};
    }

    method RemovePath(env: Env, p: string) returns (outcome: Outcome)
      requires Valid() && env.contextOf(p) in buckets
      modifies this`tracked, this`retained, this`modules, this`filed, buckets[env.contextOf(p)]
      ensures Valid() && (Contents(), outcome) == RemoveStep(env, old(Contents()), p)
    {
      hide BucketIndex.Valid, BucketIndex.Contents;
      if p in env.open {
        return SkippedOpenDocument;
      }
      ghost var s := Contents();
      var removed := RemoveIn(env.contextOf(p), Origin(p));
      tracked := tracked - {p};
      RemoveSalsaFile(p);
      RemovedIs(env, s, p, Contents());
      outcome := if removed then Applied else Unchanged;
    }

    method UpsertPath(env: Env, p: string) returns (outcome: Outcome)
      requires Valid() && env.contextOf(p) in buckets
      modifies this`tracked, this`retained, this`modules, this`filed, buckets[env.contextOf(p)]
      ensures Valid() && (Contents(), outcome) == UpsertStep(env, old(Contents()), p)
    {
      hide BucketIndex.Valid, BucketIndex.Contents, BucketIndex.All, Update, Changes, Upserted;
      if !env.hasLanguage(p) {
        return SkippedUntracked;
      }
      if p in env.open {
        return SkippedOpenDocument;
      }
      if !env.tracks(p) {
        return SkippedUntracked;
      }
      if p !in env.disk {
        outcome := RemovePath(env, p);
        return;
      }
      var content := env.disk[p];
      ghost var s := Contents();
      var changed := UpdateIn(env.contextOf(p), Origin(p), env.classesOf(p, content), env.rangesOf(p, content));
      tracked := tracked + {p};
      RemoveSalsaFile(p);
      var moduleChanged := RefreshModule(p, env.moduleOf(p, content));
      UpsertedIs(env, s, p, content, Contents());
      outcome := if changed || moduleChanged then Applied else Unchanged;
    }

    method RemovePaths(env: Env, paths: seq<string>) returns (summary: Summary)
      requires Valid() && forall p :: env.contextOf(p) in buckets
      modifies this`tracked, this`retained, this`modules, this`filed, buckets.Values
      ensures Valid() && Progress(Contents(), summary) == RemoveAll(env, Progress(old(Contents()), NOTHING), paths)
    {
      hide BucketIndex.Valid, BucketIndex.Contents;
      ghost var start := Progress(Contents(), NOTHING);
      summary := NOTHING;
      for i := 0 to |paths|
        invariant Valid() && Progress(Contents(), summary) == RemoveAll(env, start, paths[..i])
      {
        assert Front(paths[..i + 1]) == paths[..i];
        var outcome := RemovePath(env, paths[i]);
        match outcome
        case Applied => summary := summary.(applied := summary.applied + 1, removed := summary.removed + 1);
        case SkippedOpenDocument => summary := summary.(skippedOpen := summary.skippedOpen + 1);
        case _ =>
      }
      assert paths[..|paths|] == paths;
    }

    method UpsertPaths(env: Env, paths: seq<string>, before: Summary) returns (summary: Summary)
      requires Valid() && forall p :: env.contextOf(p) in buckets
      modifies this`tracked, this`retained, this`modules, this`filed, buckets.Values
      ensures Valid() && Progress(Contents(), summary) == UpsertAll(env, Progress(old(Contents()), before), paths)
    {
      hide BucketIndex.Valid, BucketIndex.Contents;
      ghost var start := Progress(Contents(), before);
      summary := before;
      for i := 0 to |paths|
        invariant Valid() && Progress(Contents(), summary) == UpsertAll(env, start, paths[..i])
      {
        assert Front(paths[..i + 1]) == paths[..i];
        var outcome := UpsertPath(env, paths[i]);
        match outcome
        case Applied => summary := summary.(applied := summary.applied + 1);
        case SkippedOpenDocument => summary := summary.(skippedOpen := summary.skippedOpen + 1);
        case _ =>
      }
      assert paths[..|paths|] == paths;
    }

    method ApplyFilesystemChanges(env: Env, changes: seq<Change>) returns (summary: Summary)
      requires Valid() && forall p :: env.contextOf(p) in buckets
      modifies this`tracked, this`retained, this`modules, this`filed, buckets.Values
      ensures Valid() && Progress(Contents(), summary) == ApplyChanges(env, old(Contents()), changes)
    {
      hide BucketIndex.Valid, BucketIndex.Contents;
      var removals: seq<string>, upserts: seq<string> := [], [];
      for i := 0 to |changes|
        invariant removals == PathsOf(changes[..i], Remove) && upserts == PathsOf(changes[..i], Upsert)
      {
        assert Front(changes[..i + 1]) == changes[..i];
        match changes[i].kind
        case Remove => removals := removals + [changes[i].path];
        case Upsert => upserts := upserts + [changes[i].path];
      }
      assert changes[..|changes|] == changes;
      removals := SortAndDedup(removals);
      upserts := SortAndDedup(upserts);
      summary := RemovePaths(env, removals);
      summary := UpsertPaths(env, upserts, summary);
    }

    // Tracked closed files under the watched roots that the scan did not find are removed, and
    // every file it found is upserted.
    method RescanWatchedRoots(env: Env, watches: string -> bool, found: set<string>) returns (summary: Summary, ghost changes: seq<Change>)
      requires Valid() && forall p :: env.contextOf(p) in buckets
      modifies this`tracked, this`retained, this`modules, this`filed, buckets.Values
      ensures Valid() && IsRescan(env, old(Contents()), watches, found, changes)
      ensures Progress(Contents(), summary) == ApplyChanges(env, old(Contents()), changes)
    {
      hide BucketIndex.Valid, BucketIndex.Contents;
      var list := RescanChanges(env, tracked, watches, found);
      changes := list;
      summary := ApplyFilesystemChanges(env, list);
    }
  }

  method SortAndDedup(paths: seq<string>) returns (sorted: seq<string>)
    ensures sorted == Sorted(paths)
  {
    var s := SortBy(PathText, paths);
    sorted := [];
    for i := 0 to |s|
      invariant sorted == Deduped(s[..i])
    {
      assert Front(s[..i + 1]) == s[..i] && Last(s[..i + 1]) == s[i];
      assert i > 0 ==> s[..i + 1][i - 1] == s[i - 1];
      if i == 0 || s[i - 1] != s[i] {
        sorted := sorted + [s[i]];
      }
    }
    assert s[..|s|] == s;
  }

  // The members of a hash set, in whatever order it gives them.
  method Enumerate(paths: set<string>) returns (list: seq<string>)
    ensures NoDup(list) && forall p :: p in list <==> p in paths
  {
    list := [];
    var rest := paths;
    while rest != {}
      invariant rest <= paths && NoDup(list)
      invariant forall p :: p in list <==> p in paths - rest
    {
      var p :| p in rest;
      assert p !in list;
      rest := rest - {p};
      list := list + [p];
    }
  }

  method ChangesFor(kind: ChangeKind, paths: seq<string>) returns (changes: seq<Change>)
    ensures |changes| == |paths| && forall i :: 0 <= i < |paths| ==> changes[i] == Change(kind, paths[i])
  {
    changes := seq(|paths|, i requires 0 <= i < |paths| => Change(kind, paths[i]));
  }

  method SortedChanges(kind: ChangeKind, paths: set<string>) returns (changes: seq<Change>)
    ensures forall change :: change in changes <==> change.kind == kind && change.path in paths
    ensures InPathOrder(changes)
  {
    var list := Enumerate(paths);
    SortBySorted(PathText, list);
    PermutedDistinct(PathText, list, SortBy(PathText, list));
    var sorted := SortBy(PathText, list);
    forall p ensures p in sorted <==> p in paths {
      assert p in multiset(sorted) <==> p in multiset(list);
    }
    changes := ChangesFor(kind, sorted);
    forall change: Change | change.kind == kind && change.path in paths ensures change in changes {
      var i :| 0 <= i < |sorted| && sorted[i] == change.path;
      assert changes[i] == change;
    }
  }

  method RescanChanges(env: Env, tracked: set<string>, watches: string -> bool, found: set<string>) returns (changes: seq<Change>)
    ensures forall p :: Change(Remove, p) in changes <==> p in tracked && p !in env.open && watches(p) && p !in found
    ensures forall p :: Change(Upsert, p) in changes <==> p in found
  {
    var gone := Enumerate(set p | p in tracked && p !in env.open && watches(p) && p !in found);
    var removals := ChangesFor(Remove, gone);
    var current := Enumerate(found);
    var upserts := ChangesFor(Upsert, current);
    changes := removals + upserts;
    forall change: Change | change in changes ensures change.path in if change.kind == Remove then gone else current {
      var i :| 0 <= i < |changes| && changes[i] == change;
      assert i < |gone| ==> change == removals[i];
      assert i >= |gone| ==> change == upserts[i - |gone|];
    }
    forall p | p in gone ensures Change(Remove, p) in changes {
      var i :| 0 <= i < |gone| && gone[i] == p;
      assert changes[i] == Change(Remove, p);
    }
    forall p | p in found ensures Change(Upsert, p) in changes {
      var i :| 0 <= i < |current| && current[i] == p;
      assert changes[|gone| + i] == Change(Upsert, p);
    }
  }

  ghost predicate InPathOrder(changes: seq<Change>) {
    forall i, j :: 0 <= i < j < |changes| ==> Le(changes[i].path, changes[j].path) && changes[i].path != changes[j].path
  }

  ghost predicate RemovalsThenUpserts(changes: seq<Change>, n: nat) {
    && n <= |changes|
    && InPathOrder(changes[..n]) && InPathOrder(changes[n..])
    && (forall i :: 0 <= i < n ==> changes[i].kind == Remove)
    && (forall i :: n <= i < |changes| ==> changes[i].kind == Upsert)
  }

  // Gone paths first, then new ones and those whose fingerprint changed, each half in path order.
  method DiffSnapshots<F(==)>(previous: map<string, F>, current: map<string, F>) returns (changes: seq<Change>)
    ensures IsDiff(previous, current, changes)
    ensures exists n: nat :: RemovalsThenUpserts(changes, n)
  {
    var removed := SortedChanges(Remove, set p | p in previous && p !in current);
    var upserts := SortedChanges(Upsert, set p | p in current && !(p in previous && previous[p] == current[p]));
    assert forall i :: 0 <= i < |removed| ==> removed[i] in removed;
    assert forall i :: 0 <= i < |upserts| ==> upserts[i] in upserts;
    changes := removed + upserts;
    assert changes[..|removed|] == removed && changes[|removed|..] == upserts;
    assert RemovalsThenUpserts(changes, |removed|);
  }
}
