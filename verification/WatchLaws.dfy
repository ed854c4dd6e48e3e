// What applying a list of file changes, a diff of two disk snapshots, or a whole rescan
// leaves in the index.
module WatchLaws {
  import opened Seqs
  import opened ClassModel
  import opened TextOrder
  import opened BucketSpec
  import opened BucketLaws
  import opened WatchSpec

  // ---- one step of either kind

  lemma {:induction false} RemoveStepEffect(env: Env, s: Index, p: string, q: string)
    requires GoodDisk(env) && Good(env, s)
    ensures var s' := RemoveStep(env, s, p).0;
      && Good(env, s')
      && (q == p && p !in env.open ==> Held(env, s', q) == {})
      && (q != p && Follows(env, q) && Settled(env, s, q) ==> Settled(env, s', q))
      && (q in env.open ==> Held(env, s', q) == Held(env, s, q))
      && Held(env, s', q) <= Held(env, s, q)
  {
    if p !in env.open {
      RemoveIsStep(env, s, p);
      StepKeepsGood(env, s, Removed(env, s, p), p);
      if q != p {
        StepKeeps(env, s, Removed(env, s, p), p, q);
      }
    }
  }

  lemma {:induction false} UpsertStepEffect(env: Env, s: Index, p: string, q: string)
    requires GoodDisk(env) && Good(env, s)
    ensures var s' := UpsertStep(env, s, p).0;
      && Good(env, s')
      && (q == p && Follows(env, p) ==> Settled(env, s', q) && ModuleSettled(env, s', q))
      && (q != p && ModuleSettled(env, s, q) ==> ModuleSettled(env, s', q))
      && (q != p && Follows(env, q) && Settled(env, s, q) ==> Settled(env, s', q))
      && (q in env.open ==> Held(env, s', q) == Held(env, s, q))
      && (q != p || !Follows(env, p) ==> Held(env, s', q) <= Held(env, s, q))
  {
    if Follows(env, p) {
      if p in env.disk {
        var s' := Upserted(env, s, p, env.disk[p]);
        UpsertIsStep(env, s, p);
        UpsertSettlesExactly(env, s, p);
        StepKeepsGood(env, s, s', p);
        if q != p {
          StepKeeps(env, s, s', p, q);
        }
      } else {
        RemoveStepEffect(env, s, p, q);
      }
    }
  }

  // ---- whole lists

  lemma {:induction false} RemoveAllEffect(env: Env, s: Progress, paths: seq<string>, q: string)
    requires GoodDisk(env) && Good(env, s.index)
    ensures var s' := RemoveAll(env, s, paths).index;
      && Good(env, s')
      && (q in paths && q !in env.open ==> Held(env, s', q) == {})
      && (q !in paths && Follows(env, q) && Settled(env, s.index, q) ==> Settled(env, s', q))
      && (q in env.open ==> Held(env, s', q) == Held(env, s.index, q))
      && Held(env, s', q) <= Held(env, s.index, q)
  {
    if paths != [] {
      assert paths == Front(paths) + [Last(paths)];
      RemoveAllEffect(env, s, Front(paths), q);
      RemoveStepEffect(env, RemoveAll(env, s, Front(paths)).index, Last(paths), q);
    }
  }

  lemma {:induction false} UpsertAllEffect(env: Env, s: Progress, paths: seq<string>, q: string)
    requires GoodDisk(env) && Good(env, s.index)
    ensures var s' := UpsertAll(env, s, paths).index;
      && Good(env, s')
      && (q in paths && Follows(env, q) ==> Settled(env, s', q) && ModuleSettled(env, s', q))
      && (q !in paths && ModuleSettled(env, s.index, q) ==> ModuleSettled(env, s', q))
      && (q !in paths && Follows(env, q) && Settled(env, s.index, q) ==> Settled(env, s', q))
      && (q in env.open ==> Held(env, s', q) == Held(env, s.index, q))
      && (q !in paths ==> Held(env, s', q) <= Held(env, s.index, q))
  {
    if paths != [] {
      assert paths == Front(paths) + [Last(paths)];
      UpsertAllEffect(env, s, Front(paths), q);
      UpsertStepEffect(env, UpsertAll(env, s, Front(paths)).index, Last(paths), q);
    }
  }

  lemma {:induction false} PathsOfMembers(changes: seq<Change>, kind: ChangeKind, p: string)
    ensures p in PathsOf(changes, kind) <==> Change(kind, p) in changes
  {
    if changes != [] {
      assert changes == Front(changes) + [Last(changes)];
      PathsOfMembers(Front(changes), kind, p);
    }
  }

  lemma {:induction false} DedupedMembers(s: seq<string>, p: string)
    ensures p in Deduped(s) <==> p in s
    ensures s != [] ==> Deduped(s) != [] && Last(Deduped(s)) == Last(s)
  {
    if s != [] {
      assert s == Front(s) + [Last(s)];
      DedupedMembers(Front(s), p);
      if |s| > 1 && s[|s| - 2] == Last(s) {
        assert Last(Front(s)) == s[|s| - 2];
        assert s[|s| - 2] in Front(s);
      }
    }
  }

  lemma {:induction false} SortedMembers(paths: seq<string>, p: string)
    ensures p in Sorted(paths) <==> p in paths
  {
    SortBySorted(PathText, paths);
    DedupedMembers(SortBy(PathText, paths), p);
    assert p in multiset(SortBy(PathText, paths)) <==> p in multiset(paths);
  }

  // A change list says something about a file when it is upserted, or removed and gone from disk.
  ghost predicate Covered(env: Env, changes: seq<Change>, p: string) {
    Change(Upsert, p) in changes || (Change(Remove, p) in changes && p !in env.disk)
  }

  ghost predicate Mentioned(changes: seq<Change>, p: string) {
    Change(Remove, p) in changes || Change(Upsert, p) in changes
  }

  // Whatever the list's order and repetitions, every file it covers ends up in step, every file
  // it does not mention stays in step, and open documents keep their classes.
  lemma {:induction false} ApplyResyncs(env: Env, s: Index, changes: seq<Change>, p: string)
    requires GoodDisk(env) && Good(env, s)
    ensures var s' := ApplyChanges(env, s, changes).index;
      && Good(env, s')
      && (Follows(env, p) && (Covered(env, changes, p) || (Settled(env, s, p) && !Mentioned(changes, p))) ==> Settled(env, s', p))
      && (Follows(env, p) && Change(Upsert, p) in changes ==> ModuleSettled(env, s', p))
      && (p in env.open ==> Held(env, s', p) == Held(env, s, p))
  {
    var removals, upserts := Sorted(PathsOf(changes, Remove)), Sorted(PathsOf(changes, Upsert));
    SortedMembers(PathsOf(changes, Remove), p);
    SortedMembers(PathsOf(changes, Upsert), p);
    PathsOfMembers(changes, Remove, p);
    PathsOfMembers(changes, Upsert, p);
    RemoveAllEffect(env, Progress(s, NOTHING), removals, p);
    UpsertAllEffect(env, RemoveAll(env, Progress(s, NOTHING), removals), upserts, p);
  }

  // ---- order and repetitions

  ghost predicate Ascending(s: seq<string>) {
    forall i, j :: 0 <= i < j < |s| ==> Le(s[i], s[j]) && s[i] != s[j]
  }

  lemma {:induction false} DedupedAscending(s: seq<string>)
    requires SortedBy(PathText, s)
    ensures Ascending(Deduped(s))
    ensures forall i :: 0 <= i < |Deduped(s)| ==> Deduped(s)[i] in s
  {
    if s != [] {
      var front := Deduped(Front(s));
      DedupedAscending(Front(s));
      if |s| == 1 || s[|s| - 2] != Last(s) {
        forall i | 0 <= i < |front| ensures Le(front[i], Last(s)) && front[i] != Last(s) {
          assert front[i] in Front(s);
          var k :| 0 <= k < |Front(s)| && Front(s)[k] == front[i];
          assert Le(PathText(s[k]), PathText(s[|s| - 1])) && Le(PathText(s[|s| - 2]), PathText(s[|s| - 1]));
          if front[i] == Last(s) {
            LeReflexive(s[|s| - 2]);
            assert k < |s| - 2 ==> Le(PathText(s[k]), PathText(s[|s| - 2]));
            LeAntisymmetric(s[|s| - 2], Last(s));
          }
        }
      }
    }
  }

  lemma {:induction false} AscendingUnique(a: seq<string>, b: seq<string>)
    requires Ascending(a) && Ascending(b) && forall p :: p in a <==> p in b
    ensures a == b
  {
    MultisetOfDistinct(a, set p | p in a);
    MultisetOfDistinct(b, set p | p in a);
    SortedUnique(PathText, a, b);
  }

  lemma {:induction false} SortedDependsOnMembers(a: seq<string>, b: seq<string>)
    requires forall p :: p in a <==> p in b
    ensures Sorted(a) == Sorted(b)
  {
    SortBySorted(PathText, a);
    SortBySorted(PathText, b);
    DedupedAscending(SortBy(PathText, a));
    DedupedAscending(SortBy(PathText, b));
    forall p ensures p in Sorted(a) <==> p in Sorted(b) {
      SortedMembers(a, p);
      SortedMembers(b, p);
    }
    AscendingUnique(Sorted(a), Sorted(b));
  }

  // Two lists with the same changes, in any order and however often repeated, do the same.
  lemma {:induction false} OrderDoesNotMatter(env: Env, s: Index, a: seq<Change>, b: seq<Change>)
    requires forall change :: change in a <==> change in b
    ensures ApplyChanges(env, s, a) == ApplyChanges(env, s, b)
  {
    forall kind, p ensures p in PathsOf(a, kind) <==> p in PathsOf(b, kind) {
      PathsOfMembers(a, kind, p);
      PathsOfMembers(b, kind, p);
    }
    SortedDependsOnMembers(PathsOf(a, Remove), PathsOf(b, Remove));
    SortedDependsOnMembers(PathsOf(a, Upsert), PathsOf(b, Upsert));
  }

  // ---- the diff of two snapshots

  ghost predicate IsDiff<F>(previous: map<string, F>, current: map<string, F>, changes: seq<Change>) {
    forall p ::
      && (Change(Remove, p) in changes <==> p in previous && p !in current)
      && (Change(Upsert, p) in changes <==> p in current && !(p in previous && previous[p] == current[p]))
  }

  // Equal fingerprints mean equal content.
  ghost predicate FingerprintsTell<F(!new)>(previous: map<string, F>, current: map<string, F>,
    contents: map<string, string>, contents': map<string, string>)
  {
    && contents.Keys == previous.Keys && contents'.Keys == current.Keys
    && forall p :: p in previous && p in current && previous[p] == current[p] ==> contents[p] == contents'[p]
  }

  // From an index in step with the previous snapshot, applying the diff gets it in step with
  // the current one on every followed file, and leaves open documents untouched.
  lemma {:induction false} DiffResyncs<F(!new)>(env: Env, s: Index, previous: map<string, F>, current: map<string, F>,
      before: map<string, string>, changes: seq<Change>, p: string)
    requires GoodDisk(env) && Good(env, s)
    requires IsDiff(previous, current, changes) && FingerprintsTell(previous, current, before, env.disk)
    requires Follows(env, p) ==> Settled(env.(disk := before), s, p)
    ensures var s' := ApplyChanges(env, s, changes).index;
      && (Follows(env, p) ==> Settled(env, s', p))
      && (p in env.open ==> Held(env, s', p) == Held(env, s, p))
  {
    ApplyResyncs(env, s, changes, p);
    if Follows(env, p) && !Covered(env, changes, p) {
      assert !Mentioned(changes, p);
      assert Kept(env, s, p) == Kept(env.(disk := before), s, p);
    }
  }

  // ---- rescanning

  // The rescan's change list: tracked closed files under the watched roots that the scan did not
  // find, on disk or not, and every file found.
  ghost predicate IsRescan(env: Env, s: Index, watches: string -> bool, found: set<string>, changes: seq<Change>) {
    forall p ::
      && (Change(Remove, p) in changes <==> p in s.tracked && p !in env.open && watches(p) && p !in found)
      && (Change(Upsert, p) in changes <==> p in found)
  }

  // No class of a followed file without the file being tracked.
  ghost predicate TrackingCovers(env: Env, s: Index, p: string) {
    Follows(env, p) && Held(env, s, p) != {} ==> p in s.tracked
  }

  lemma {:induction false} RescanResyncs(env: Env, s: Index, watches: string -> bool, found: set<string>, changes: seq<Change>, p: string)
    requires GoodDisk(env) && Good(env, s) && TrackingCovers(env, s, p)
    requires IsRescan(env, s, watches, found, changes) && found <= env.disk.Keys
    ensures var s' := ApplyChanges(env, s, changes).index;
      && (Follows(env, p) && p in found ==> Settled(env, s', p) && ModuleSettled(env, s', p))
      && (Follows(env, p) && watches(p) && p !in found ==> Held(env, s', p) == {})
      && (p in env.open ==> Held(env, s', p) == Held(env, s, p))
  {
    ApplyResyncs(env, s, changes, p);
    if Follows(env, p) && watches(p) && p !in found {
      NotFoundHoldsNothing(env, s, watches, found, changes, p);
    }
  }

  lemma {:induction false} NotFoundHoldsNothing(env: Env, s: Index, watches: string -> bool, found: set<string>, changes: seq<Change>, p: string)
    requires GoodDisk(env) && Good(env, s) && TrackingCovers(env, s, p)
    requires IsRescan(env, s, watches, found, changes) && Follows(env, p) && watches(p) && p !in found
    ensures Held(env, ApplyChanges(env, s, changes).index, p) == {}
  {
    var removals, upserts := Sorted(PathsOf(changes, Remove)), Sorted(PathsOf(changes, Upsert));
    SortedMembers(PathsOf(changes, Remove), p);
    SortedMembers(PathsOf(changes, Upsert), p);
    PathsOfMembers(changes, Remove, p);
    PathsOfMembers(changes, Upsert, p);
    RemoveAllEffect(env, Progress(s, NOTHING), removals, p);
    UpsertAllEffect(env, RemoveAll(env, Progress(s, NOTHING), removals), upserts, p);
  }

  // ---- tracking over a list

  lemma {:induction false} RemoveAllTracking(env: Env, s: Progress, paths: seq<string>, q: string)
    ensures q in RemoveAll(env, s, paths).index.tracked <==> q in s.index.tracked && (q !in paths || q in env.open)
  {
    if paths != [] {
      assert paths == Front(paths) + [Last(paths)];
      RemoveAllTracking(env, s, Front(paths), q);
    }
  }

  lemma {:induction false} UpsertAllTracking(env: Env, s: Progress, paths: seq<string>, q: string)
    ensures q in UpsertAll(env, s, paths).index.tracked <==>
      if q in paths && Follows(env, q) then q in env.disk else q in s.index.tracked
  {
    if paths != [] {
      assert paths == Front(paths) + [Last(paths)];
      UpsertAllTracking(env, s, Front(paths), q);
    }
  }

  lemma {:induction false} ApplyTracking(env: Env, s: Index, changes: seq<Change>, q: string)
    ensures q in ApplyChanges(env, s, changes).index.tracked <==>
      if Change(Upsert, q) in changes && Follows(env, q) then q in env.disk
      else q in s.tracked && (Change(Remove, q) !in changes || q in env.open)
  {
    SortedMembers(PathsOf(changes, Remove), q);
    SortedMembers(PathsOf(changes, Upsert), q);
    PathsOfMembers(changes, Remove, q);
    PathsOfMembers(changes, Upsert, q);
    var removed := RemoveAll(env, Progress(s, NOTHING), Sorted(PathsOf(changes, Remove)));
    RemoveAllTracking(env, Progress(s, NOTHING), Sorted(PathsOf(changes, Remove)), q);
    UpsertAllTracking(env, removed, Sorted(PathsOf(changes, Upsert)), q);
  }

  // Applying changes keeps every file with classes in the index tracked.
  lemma {:induction false} ApplyKeepsTracking(env: Env, s: Index, changes: seq<Change>, p: string)
    requires GoodDisk(env) && Good(env, s) && TrackingCovers(env, s, p)
    ensures TrackingCovers(env, ApplyChanges(env, s, changes).index, p)
  {
    var removals, upserts := Sorted(PathsOf(changes, Remove)), Sorted(PathsOf(changes, Upsert));
    SortedMembers(PathsOf(changes, Remove), p);
    SortedMembers(PathsOf(changes, Upsert), p);
    PathsOfMembers(changes, Remove, p);
    PathsOfMembers(changes, Upsert, p);
    RemoveAllEffect(env, Progress(s, NOTHING), removals, p);
    UpsertAllEffect(env, RemoveAll(env, Progress(s, NOTHING), removals), upserts, p);
    ApplyTracking(env, s, changes, p);
    ApplyResyncs(env, s, changes, p);
  }

  // ---- a second rescan finds nothing to do

  lemma {:induction false} NothingToUpsert(env: Env, s: Progress, paths: seq<string>)
    requires GoodDisk(env) && Good(env, s.index)
    requires forall p :: p in paths ==> p in env.disk && (Follows(env, p) ==> Settled(env, s.index, p) && ModuleSettled(env, s.index, p))
    ensures UpsertAll(env, s, paths).summary.applied == s.summary.applied
    ensures forall b :: BucketAt(UpsertAll(env, s, paths).index, b) == BucketAt(s.index, b)
  {
    if paths != [] {
      assert paths == Front(paths) + [Last(paths)];
      NothingToUpsert(env, s, Front(paths));
      var before, p := UpsertAll(env, s, Front(paths)), Last(paths);
      if Follows(env, p) {
        assert p in paths;
        UpsertAllEffect(env, s, Front(paths), p);
        assert Settled(env, before.index, p) && ModuleSettled(env, before.index, p);
        SettledUpsertUnchanged(env, before.index, p);
      }
    }
  }

  lemma {:induction false} NoPaths(changes: seq<Change>, kind: ChangeKind)
    requires forall p :: Change(kind, p) !in changes
    ensures Sorted(PathsOf(changes, kind)) == []
  {
    var sorted := Sorted(PathsOf(changes, kind));
    assert sorted != [] ==> sorted[0] in sorted;
    forall p ensures p !in sorted {
      PathsOfMembers(changes, kind, p);
      SortedMembers(PathsOf(changes, kind), p);
    }
  }

  // Files found are in step, the others under the watched roots hold nothing and are not tracked.
  ghost predicate InStep(env: Env, s: Index, watches: string -> bool, found: set<string>) {
    && (forall p :: Follows(env, p) && p in found ==> Settled(env, s, p) && ModuleSettled(env, s, p))
    && (forall p :: Follows(env, p) && watches(p) && p !in found ==> Held(env, s, p) == {})
    && (forall p :: p in s.tracked && p !in env.open && watches(p) ==> p in found)
  }

  lemma {:induction false} RescanGetsInStep(env: Env, s: Index, watches: string -> bool, found: set<string>, changes: seq<Change>)
    requires GoodDisk(env) && Good(env, s) && forall p :: TrackingCovers(env, s, p)
    requires IsRescan(env, s, watches, found, changes) && found <= env.disk.Keys
    ensures Good(env, ApplyChanges(env, s, changes).index) && InStep(env, ApplyChanges(env, s, changes).index, watches, found)
  {
    var s' := ApplyChanges(env, s, changes).index;
    ApplyResyncs(env, s, changes, "");
    forall p
      ensures Follows(env, p) && p in found ==> Settled(env, s', p) && ModuleSettled(env, s', p)
      ensures Follows(env, p) && watches(p) && p !in found ==> Held(env, s', p) == {}
    {
      RescanResyncs(env, s, watches, found, changes, p);
    }
    forall p | p in s'.tracked && p !in env.open && watches(p) ensures p in found {
      ApplyTracking(env, s, changes, p);
    }
  }

  lemma {:induction false} HoldsNothing(env: Env, s: Index, p: string)
    requires Held(env, s, p) == {}
    ensures Settled(env, s, p) <==> Kept(env, s, p) == []
  {
    var kept := Kept(env, s, p);
    assert kept != [] ==> kept[0] in kept;
    if Settled(env, s, p) {
      forall c ensures c !in kept {
        assert c in Held(env, s, p) <==> c in kept;
      }
    }
  }

  // A followed file under the roots that the scan skips is in step exactly when it would yield
  // nothing: a file on disk that it skips loses its classes.
  lemma {:induction false} SkippedFileSettlesExactly(env: Env, s: Index, watches: string -> bool, found: set<string>, changes: seq<Change>, p: string)
    requires GoodDisk(env) && Good(env, s) && TrackingCovers(env, s, p)
    requires IsRescan(env, s, watches, found, changes) && found <= env.disk.Keys
    requires Follows(env, p) && watches(p) && p !in found
    ensures var s' := ApplyChanges(env, s, changes).index;
      && p !in s'.tracked && (Settled(env, s', p) <==> Kept(env, s', p) == [])
  {
    RescanResyncs(env, s, watches, found, changes, p);
    ApplyTracking(env, s, changes, p);
    var s' := ApplyChanges(env, s, changes).index;
    HoldsNothing(env, s', p);
  }

  lemma {:induction false} RescanAppliesNothing(env: Env, s: Index, watches: string -> bool, found: set<string>, changes: seq<Change>)
    requires GoodDisk(env) && Good(env, s) && InStep(env, s, watches, found)
    requires IsRescan(env, s, watches, found, changes) && found <= env.disk.Keys
    ensures ApplyChanges(env, s, changes).summary.applied == 0
    ensures forall b :: BucketAt(ApplyChanges(env, s, changes).index, b) == BucketAt(s, b)
  {
    NoPaths(changes, Remove);
    var upserts := Sorted(PathsOf(changes, Upsert));
    forall p | p in upserts ensures p in env.disk && (Follows(env, p) ==> Settled(env, s, p) && ModuleSettled(env, s, p)) {
      SortedMembers(PathsOf(changes, Upsert), p);
      PathsOfMembers(changes, Upsert, p);
    }
    NothingToUpsert(env, Progress(s, NOTHING), upserts);
  }

  // Rescanning twice in a row applies nothing the second time.
  lemma {:induction false} SecondRescanIdle(env: Env, s: Index, watches: string -> bool, found: set<string>, first: seq<Change>, second: seq<Change>)
    requires GoodDisk(env) && Good(env, s) && forall p :: TrackingCovers(env, s, p)
    requires found <= env.disk.Keys && IsRescan(env, s, watches, found, first)
    requires IsRescan(env, ApplyChanges(env, s, first).index, watches, found, second)
    ensures ApplyChanges(env, ApplyChanges(env, s, first).index, second).summary.applied == 0
  {
    RescanGetsInStep(env, s, watches, found, first);
    RescanAppliesNothing(env, ApplyChanges(env, s, first).index, watches, found, second);
  }

  // ---- what the summary counts

  ghost predicate HasClasses(env: Env, s: Index, p: string) {
    OriginNames(BucketAt(s, env.contextOf(p)), Origin(p)) != {}
  }

  lemma {:induction false} RemovalKeepsOthers(env: Env, s: Index, p: string, q: string)
    requires p != q
    ensures HasClasses(env, RemoveStep(env, s, p).0, q) <==> HasClasses(env, s, q)
  {
    var b := env.contextOf(p);
    if p !in env.open && env.contextOf(q) == b {
      var before, after := BucketAt(s, b), RemoveOrigin(BucketAt(s, b), Origin(p));
      assert forall n :: n in OriginNames(after, Origin(q)) <==> n in OriginNames(before, Origin(q));
    }
  }

  lemma {:induction false} RemoveAllKeepsOthers(env: Env, s: Progress, paths: seq<string>, q: string)
    requires q !in paths
    ensures HasClasses(env, RemoveAll(env, s, paths).index, q) <==> HasClasses(env, s.index, q)
  {
    if paths != [] {
      assert paths == Front(paths) + [Last(paths)];
      RemoveAllKeepsOthers(env, s, Front(paths), q);
      RemovalKeepsOthers(env, RemoveAll(env, s, Front(paths)).index, Last(paths), q);
    }
  }

  lemma {:induction false} RemoveAllEmpties(env: Env, s: Progress, paths: seq<string>, p: string)
    requires p in paths && p !in env.open
    ensures !HasClasses(env, RemoveAll(env, s, paths).index, p)
  {
    var before := RemoveAll(env, s, Front(paths)).index;
    assert paths == Front(paths) + [Last(paths)];
    if p == Last(paths) {
      assert OriginNames(RemoveOrigin(BucketAt(before, env.contextOf(p)), Origin(p)), Origin(p)) == {};
    } else {
      RemoveAllEmpties(env, s, Front(paths), p);
      RemovalKeepsOthers(env, before, Last(paths), p);
    }
  }

  ghost function ClosedWithClasses(env: Env, s: Index): string -> bool {
    p => p !in env.open && HasClasses(env, s, p)
  }

  function Open(env: Env): string -> bool { p => p in env.open }

  function OpenSource(env: Env): string -> bool { p => p in env.open && env.hasLanguage(p) }

  lemma {:induction false} RemovalsCounted(env: Env, s: Progress, paths: seq<string>)
    requires NoDup(paths)
    ensures var sum := RemoveAll(env, s, paths).summary;
      && sum.removed == s.summary.removed + |Filter(ClosedWithClasses(env, s.index), paths)|
      && sum.applied - s.summary.applied == sum.removed - s.summary.removed
      && sum.skippedOpen == s.summary.skippedOpen + |Filter(Open(env), paths)|
  {
    if paths != [] {
      hide HasClasses;
      var q := Last(paths);
      RemovalsCounted(env, s, Front(paths));
      RemoveAllKeepsOthers(env, s, Front(paths), q);
      RemoveOutcome(env, RemoveAll(env, s, Front(paths)).index, q);
    }
  }

  lemma RemoveOutcome(env: Env, s: Index, p: string)
    ensures RemoveStep(env, s, p).1 == if p in env.open then SkippedOpenDocument else if HasClasses(env, s, p) then Applied else Unchanged
  {
  }

  lemma {:induction false} UpsertsCounted(env: Env, s: Progress, paths: seq<string>)
    ensures var sum := UpsertAll(env, s, paths).summary;
      && sum.removed == s.summary.removed && sum.applied >= s.summary.applied
      && sum.skippedOpen == s.summary.skippedOpen + |Filter(OpenSource(env), paths)|
  {
    if paths != [] {
      UpsertsCounted(env, s, Front(paths));
    }
  }

  lemma {:induction false} SortedOnce(changes: seq<Change>, kind: ChangeKind)
    ensures NoDup(Sorted(PathsOf(changes, kind)))
    ensures forall p :: p in Sorted(PathsOf(changes, kind)) <==> Change(kind, p) in changes
  {
    SortBySorted(PathText, PathsOf(changes, kind));
    DedupedAscending(SortBy(PathText, PathsOf(changes, kind)));
    forall p ensures p in Sorted(PathsOf(changes, kind)) <==> Change(kind, p) in changes {
      SortedMembers(PathsOf(changes, kind), p);
      PathsOfMembers(changes, kind, p);
    }
  }

  // ---- which upserts count as applied

  ghost predicate WellFiled(s: Index) {
    forall b :: WellNamed(BucketAt(s, b))
  }

  // Seen from outside: the classes held for the file, or its module descriptor, changed; a file
  // that vanished had classes.
  ghost predicate Tells(env: Env, before: Index, after: Index, p: string) {
    && p !in env.open && env.hasLanguage(p) && env.tracks(p)
    && if p in env.disk
       then Held(env, after, p) != Held(env, before, p) || ModuleAt(after, p) != (if p in before.retained then None else ModuleAt(before, p))
       else Held(env, before, p) != {}
  }

  lemma {:induction false} RemoveKeepsFiled(env: Env, s: Index, p: string)
    requires WellFiled(s)
    ensures WellFiled(RemoveStep(env, s, p).0)
  {
    RemovalIsEdit(BucketAt(s, env.contextOf(p)), p);
    forall b ensures WellNamed(BucketAt(RemoveStep(env, s, p).0, b)) {
      assert WellNamed(BucketAt(s, b));
    }
  }

  lemma {:induction false} UpdateTells(a: Abstract, p: string, cs: seq<ClassMetadata>, d: Declarations)
    requires WellNamed(a) && DistinctNames(cs) && forall c :: c in cs ==> c.origin == Origin(p)
    ensures WellNamed(Update(a, Origin(p), cs, d))
    ensures Changes(a, Origin(p), cs) <==> OriginClasses(Update(a, Origin(p), cs, d).classes, Origin(p)) != OriginClasses(a.classes, Origin(p))
  {
    var kept := Unblocked(a.classes, cs);
    UpdateIsEdit(a, p, cs, d);
    UpdateMirrors(a, Origin(p), cs, d);
    UnblockedDistinct(a.classes, cs);
    if Changes(a, Origin(p), cs) {
      var held := OriginClasses(a.classes, Origin(p));
      if forall c :: c in held <==> c in kept {
        MultisetOfDistinct(kept, held);
      }
    } else {
      assert Update(a, Origin(p), cs, d) == a;
    }
  }

  lemma {:induction false} UpsertKeepsFiled(env: Env, s: Index, p: string)
    requires WellFiled(s) && (Follows(env, p) ==> OwnClasses(env, p))
    ensures WellFiled(UpsertStep(env, s, p).0)
  {
    hide Update;
    if Follows(env, p) && p in env.disk {
      UpdateTells(BucketAt(s, env.contextOf(p)), p, env.classesOf(p, env.disk[p]), env.rangesOf(p, env.disk[p]));
      forall b ensures WellNamed(BucketAt(UpsertStep(env, s, p).0, b)) {
        assert WellNamed(BucketAt(s, b));
      }
    } else if Follows(env, p) {
      RemoveKeepsFiled(env, s, p);
    }
  }

  // Every outcome of an upsert, by what the caller can see: nothing happens to a file that is not
  // followed, and for the others it is applied exactly when it tells.
  lemma {:induction false} UpsertOutcome(env: Env, s: Index, p: string)
    requires WellFiled(s) && (Follows(env, p) ==> OwnClasses(env, p))
    ensures var (after, outcome) := UpsertStep(env, s, p);
      && (outcome == SkippedUntracked <==> !env.hasLanguage(p) || (p !in env.open && !env.tracks(p)))
      && (outcome == SkippedOpenDocument <==> env.hasLanguage(p) && p in env.open)
      && (outcome == Applied <==> Tells(env, s, after, p))
      && (!Follows(env, p) ==> after == s)
  {
    if Follows(env, p) && p in env.disk {
      hide Update, Changes;
      var after, b := UpsertStep(env, s, p).0, env.contextOf(p);
      assert BucketAt(after, b) == Update(BucketAt(s, b), Origin(p), env.classesOf(p, env.disk[p]), env.rangesOf(p, env.disk[p]));
      assert ModuleAt(after, p) == env.moduleOf(p, env.disk[p]);
      UpdateTells(BucketAt(s, env.contextOf(p)), p, env.classesOf(p, env.disk[p]), env.rangesOf(p, env.disk[p]));
    } else if Follows(env, p) {
      NoNamesNoClasses(BucketAt(s, env.contextOf(p)), p);
    }
  }

  // An upsert that changes the classes stores the ranges of the file's own extraction for them.
  lemma {:induction false} UpsertStoresRanges(env: Env, s: Index, p: string, c: ClassMetadata)
    requires WellFiled(s) && Follows(env, p) && p in env.disk && OwnClasses(env, p) && c in Kept(env, s, p)
    ensures var after, d := UpsertStep(env, s, p).0, env.rangesOf(p, env.disk[p]);
      var r := BucketAt(after, env.contextOf(p)).ranges;
      Held(env, after, p) != Held(env, s, p) ==>
        && (c.internalName in r.types <==> c.internalName in d.types)
        && (c.internalName in r.types ==> r.types[c.internalName] == d.types[c.internalName])
        && (forall k: MethodKey :: k.0 == c.internalName && k in r.methods ==> k in d.methods && r.methods[k] == d.methods[k])
        && (forall m :: m in c.methods && (c.internalName, m.name, Desc(m)) in d.methods ==> (c.internalName, m.name, Desc(m)) in r.methods)
        && (forall k: FieldKey :: k.0 == c.internalName && k in r.fields ==> k in d.fields && r.fields[k] == d.fields[k])
        && (forall f :: f in c.fields && (c.internalName, f.name) in d.fields ==> (c.internalName, f.name) in r.fields)
  {
    var a, cs, d := BucketAt(s, env.contextOf(p)), env.classesOf(p, env.disk[p]), env.rangesOf(p, env.disk[p]);
    assert BucketAt(UpsertStep(env, s, p).0, env.contextOf(p)) == Update(a, Origin(p), cs, d);
    UpdateTells(a, p, cs, d);
    UnblockedDistinct(a.classes, cs);
    RangesAfterBatch(RemoveOrigin(a, Origin(p)), Unblocked(a.classes, cs), d, c);
  }

  // How many upserts of a list tell, each at its own turn.
  ghost function Telling(env: Env, s: Progress, paths: seq<string>): nat {
    if paths == [] then 0
    else
      Telling(env, s, Front(paths))
      + (if Tells(env, UpsertAll(env, s, Front(paths)).index, UpsertAll(env, s, paths).index, Last(paths)) then 1 else 0)
  }

  lemma {:induction false} UpsertsApplied(env: Env, s: Progress, paths: seq<string>)
    requires WellFiled(s.index) && forall p :: Follows(env, p) ==> OwnClasses(env, p)
    ensures WellFiled(UpsertAll(env, s, paths).index)
    ensures UpsertAll(env, s, paths).summary.applied == s.summary.applied + Telling(env, s, paths)
  {
    hide WellFiled, Tells, UpsertStep;
    if paths != [] {
      UpsertsApplied(env, s, Front(paths));
      UpsertKeepsFiled(env, UpsertAll(env, s, Front(paths)).index, Last(paths));
      UpsertOutcome(env, UpsertAll(env, s, Front(paths)).index, Last(paths));
    }
  }

  lemma {:induction false} RemoveAllKeepsFiled(env: Env, s: Progress, paths: seq<string>)
    requires WellFiled(s.index)
    ensures WellFiled(RemoveAll(env, s, paths).index)
  {
    if paths != [] {
      RemoveAllKeepsFiled(env, s, Front(paths));
      RemoveKeepsFiled(env, RemoveAll(env, s, Front(paths)).index, Last(paths));
    }
  }

  // Applied are the removals counted and exactly the upserts that tell, each at its own turn.
  lemma {:induction false} AppliedExactly(env: Env, s: Index, changes: seq<Change>)
    requires WellFiled(s) && forall p :: Follows(env, p) ==> OwnClasses(env, p)
    ensures var sum := ApplyChanges(env, s, changes).summary;
      var removals, upserts := Sorted(PathsOf(changes, Remove)), Sorted(PathsOf(changes, Upsert));
      var middle := RemoveAll(env, Progress(s, NOTHING), removals);
      sum.applied == sum.removed + Telling(env, middle, upserts)
  {
    var removals, upserts := Sorted(PathsOf(changes, Remove)), Sorted(PathsOf(changes, Upsert));
    SortedOnce(changes, Remove);
    RemovalsCounted(env, Progress(s, NOTHING), removals);
    RemoveAllKeepsFiled(env, Progress(s, NOTHING), removals);
    UpsertsCounted(env, RemoveAll(env, Progress(s, NOTHING), removals), upserts);
    UpsertsApplied(env, RemoveAll(env, Progress(s, NOTHING), removals), upserts);
  }

  // The summary of a change list: removals count the closed files whose classes were in the index,
  // skips the open documents of either half, each path once however often it is listed.
  lemma {:induction false} SummaryCounts(env: Env, s: Index, changes: seq<Change>)
    ensures var sum := ApplyChanges(env, s, changes).summary;
      var removals, upserts := Sorted(PathsOf(changes, Remove)), Sorted(PathsOf(changes, Upsert));
      && sum.removed == |Filter(ClosedWithClasses(env, s), removals)| <= sum.applied
      && sum.skippedOpen == |Filter(Open(env), removals)| + |Filter(OpenSource(env), upserts)|
      && NoDup(removals) && NoDup(upserts)
      && (forall p :: p in removals <==> Change(Remove, p) in changes)
      && (forall p :: p in upserts <==> Change(Upsert, p) in changes)
  {
    SortedOnce(changes, Remove);
    SortedOnce(changes, Upsert);
    var removals := Sorted(PathsOf(changes, Remove));
    RemovalsCounted(env, Progress(s, NOTHING), removals);
    UpsertsCounted(env, RemoveAll(env, Progress(s, NOTHING), removals), Sorted(PathsOf(changes, Upsert)));
  }
}
