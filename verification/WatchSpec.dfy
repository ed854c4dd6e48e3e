// Keeping the index in step with the source files on disk, as steps on values: each bucket is
// its class map, the classes of a file are a function of its path and content.
module WatchSpec {
  import opened Seqs
  import opened ClassModel
  import opened TextOrder
  import opened BucketSpec
  import opened BucketLaws

  datatype ChangeKind = Remove | Upsert
  datatype Change = Change(kind: ChangeKind, path: string)
  datatype Outcome = Applied | Unchanged | SkippedUntracked | SkippedOpenDocument

  // What an apply reads: the open documents, the files on disk, which files the workspace
  // follows and where it files them, and what a file's text declares.
  datatype Env = Env(
    open: set<string>,
    disk: map<string, string>,
    hasLanguage: string -> bool,
    tracks: string -> bool,
    contextOf: string -> nat,
    classesOf: (string, string) -> seq<ClassMetadata>,
    rangesOf: (string, string) -> Declarations,
    moduleOf: (string, string) -> Option<string>)

  // The buckets, the files under management, those with a retained query input, and the
  // descriptors of the Java module declarations.
  datatype Index = Index(buckets: map<nat, Abstract>, tracked: set<string>, retained: set<string>, modules: map<string, string>)

  datatype Summary = Summary(applied: nat, removed: nat, skippedOpen: nat)

  const NOTHING := Summary(0, 0, 0)

  datatype Progress = Progress(index: Index, summary: Summary)

  function Origin(path: string): ClassOrigin { SourceFile(path) }

  ghost function BucketAt(s: Index, b: nat): Abstract {
    if b in s.buckets then s.buckets[b] else EMPTY
  }

  // ---- one file

  function ModuleAt(s: Index, p: string): Option<string> {
    if p in s.modules then Some(s.modules[p]) else None
  }

  // Letting go of a retained query input drops the module descriptor with it.
  function Released(s: Index, p: string): Index {
    if p in s.retained then s.(retained := s.retained - {p}, modules := s.modules - {p}) else s
  }

  function Redeclared(s: Index, p: string, descriptor: Option<string>): Index {
    s.(modules := if descriptor.Some? then s.modules[p := descriptor.value] else s.modules - {p})
  }

  ghost function Removed(env: Env, s: Index, p: string): Index {
    var b := env.contextOf(p);
    Released(s.(buckets := s.buckets[b := RemoveOrigin(BucketAt(s, b), Origin(p))], tracked := s.tracked - {p}), p)
  }

  ghost function Upserted(env: Env, s: Index, p: string, content: string): Index {
    var b := env.contextOf(p);
    var updated := Update(BucketAt(s, b), Origin(p), env.classesOf(p, content), env.rangesOf(p, content));
    Redeclared(Released(s.(buckets := s.buckets[b := updated], tracked := s.tracked + {p}), p), p, env.moduleOf(p, content))
  }

  ghost predicate UpsertChanges(env: Env, s: Index, p: string, content: string) {
    || Changes(BucketAt(s, env.contextOf(p)), Origin(p), env.classesOf(p, content))
    || ModuleAt(Released(s, p), p) != env.moduleOf(p, content)
  }

  ghost function RemoveStep(env: Env, s: Index, p: string): (Index, Outcome) {
    if p in env.open then (s, SkippedOpenDocument)
    else (Removed(env, s, p), if OriginNames(BucketAt(s, env.contextOf(p)), Origin(p)) != {} then Applied else Unchanged)
  }

  ghost function UpsertStep(env: Env, s: Index, p: string): (Index, Outcome) {
    if !env.hasLanguage(p) then (s, SkippedUntracked)
    else if p in env.open then (s, SkippedOpenDocument)
    else if !env.tracks(p) then (s, SkippedUntracked)
    else if p !in env.disk then RemoveStep(env, s, p)
    else
      var content := env.disk[p];
      (Upserted(env, s, p, content),
       if UpsertChanges(env, s, p, content) then Applied else Unchanged)
  }

  // ---- a list of changes: removals first, each list sorted and without repetition

  function PathText(p: string): string { p }

  function Deduped(s: seq<string>): seq<string> {
    if s == [] then []
    else if |s| > 1 && s[|s| - 2] == Last(s) then Deduped(Front(s))
    else Deduped(Front(s)) + [Last(s)]
  }

  function Sorted(paths: seq<string>): seq<string> {
    Deduped(SortBy(PathText, paths))
  }

  function PathsOf(changes: seq<Change>, kind: ChangeKind): seq<string> {
    if changes == [] then []
    else PathsOf(Front(changes), kind) + (if Last(changes).kind == kind then [Last(changes).path] else [])
  }

  // Only the changes of the removal half count as removals.
  function Counted(sum: Summary, outcome: Outcome, removal: bool): Summary {
    match outcome
    case Applied => sum.(applied := sum.applied + 1, removed := sum.removed + (if removal then 1 else 0))
    case SkippedOpenDocument => sum.(skippedOpen := sum.skippedOpen + 1)
    case _ => sum
  }

  ghost function RemoveAll(env: Env, s: Progress, paths: seq<string>): Progress {
    if paths == [] then s
    else
      var before := RemoveAll(env, s, Front(paths));
      var step := RemoveStep(env, before.index, Last(paths));
      Progress(step.0, Counted(before.summary, step.1, true))
  }

  ghost function UpsertAll(env: Env, s: Progress, paths: seq<string>): Progress {
    if paths == [] then s
    else
      var before := UpsertAll(env, s, Front(paths));
      var step := UpsertStep(env, before.index, Last(paths));
      Progress(step.0, Counted(before.summary, step.1, false))
  }

  ghost function ApplyChanges(env: Env, s: Index, changes: seq<Change>): Progress {
    UpsertAll(env, RemoveAll(env, Progress(s, NOTHING), Sorted(PathsOf(changes, Remove))), Sorted(PathsOf(changes, Upsert)))
  }

  // ---- what being in step means

  ghost predicate Follows(env: Env, p: string) {
    p !in env.open && env.hasLanguage(p) && env.tracks(p)
  }

  ghost function Kept(env: Env, s: Index, p: string): seq<ClassMetadata> {
    if p in env.disk then Unblocked(BucketAt(s, env.contextOf(p)).classes, env.classesOf(p, env.disk[p])) else []
  }

  ghost function Held(env: Env, s: Index, p: string): set<ClassMetadata> {
    OriginClasses(BucketAt(s, env.contextOf(p)).classes, Origin(p))
  }

  // The index holds for the file exactly its classes on disk that no archive blocks.
  ghost predicate Settled(env: Env, s: Index, p: string) {
    Held(env, s, p) == set c | c in Kept(env, s, p)
  }

  ghost predicate OwnClasses(env: Env, p: string) {
    p in env.disk ==> DistinctNames(env.classesOf(p, env.disk[p])) && forall c :: c in env.classesOf(p, env.disk[p]) ==> c.origin == Origin(p)
  }

  ghost predicate Apart(env: Env, p: string, q: string) {
    p in env.disk && q in env.disk && env.contextOf(p) == env.contextOf(q) ==>
      forall c, d :: c in env.classesOf(p, env.disk[p]) && d in env.classesOf(q, env.disk[q]) ==> c.internalName != d.internalName
  }

  // Class names are distinct within and across the followed files.
  ghost predicate GoodDisk(env: Env) {
    && (forall p :: Follows(env, p) ==> OwnClasses(env, p))
    && (forall p, q :: Follows(env, p) && Follows(env, q) && p != q ==> Apart(env, p, q))
  }

  // The descriptor of the file's module declaration, if any, is on record.
  ghost predicate ModuleSettled(env: Env, s: Index, p: string) {
    p in env.disk ==> p !in s.retained && ModuleAt(s, p) == env.moduleOf(p, env.disk[p])
  }

  // The file yields a class no archive blocks, or the index holds none of its classes.
  ghost predicate Yields(env: Env, s: Index, p: string) {
    p in env.disk ==> Kept(env, s, p) != [] || Held(env, s, p) == {}
  }

  ghost predicate ApartFromOpen(env: Env, s: Index, p: string, q: string) {
    p in env.disk && env.contextOf(p) == env.contextOf(q) ==>
      forall c, d :: c in env.classesOf(p, env.disk[p]) && d in Held(env, s, q) ==> c.internalName != d.internalName
  }

  ghost predicate Good(env: Env, s: Index) {
    && (forall b :: WellNamed(BucketAt(s, b)))
    && (forall p :: Follows(env, p) ==> Yields(env, s, p))
    && (forall p, q :: Follows(env, p) && q in env.open ==> ApartFromOpen(env, s, p, q))
  }

  // ---- what one edit of a bucket does to the rest of it

  predicate IsJar(a: Abstract, n: string) {
    n in a.classes && a.classes[n].origin.Jar?
  }

  ghost predicate EditOf(before: Abstract, after: Abstract, p: string, incoming: seq<ClassMetadata>) {
    && WellNamed(after)
    && (forall n :: IsJar(after, n) <==> IsJar(before, n))
    && (forall q :: q != p ==> OriginClasses(after.classes, Origin(q)) <= OriginClasses(before.classes, Origin(q)))
    && (forall q, c :: q != p && c in OriginClasses(before.classes, Origin(q)) && (forall d :: d in incoming ==> d.internalName != c.internalName)
         ==> c in OriginClasses(after.classes, Origin(q)))
  }

  lemma {:induction false} RemovalIsEdit(a: Abstract, p: string)
    requires WellNamed(a)
    ensures EditOf(a, RemoveOrigin(a, Origin(p)), p, [])
    ensures OriginClasses(RemoveOrigin(a, Origin(p)).classes, Origin(p)) == {}
  {
    var after := RemoveOrigin(a, Origin(p));
    forall q, c | q != p && c in OriginClasses(a.classes, Origin(q)) ensures c in OriginClasses(after.classes, Origin(q)) {
      var n :| n in a.classes && a.classes[n].origin == Origin(q) && a.classes[n] == c;
      assert after.classes[n] == c;
    }
    forall q, c | q != p && c in OriginClasses(after.classes, Origin(q)) ensures c in OriginClasses(a.classes, Origin(q)) {
      var n :| n in after.classes && after.classes[n].origin == Origin(q) && after.classes[n] == c;
      assert a.classes[n] == c;
    }
  }

  lemma {:induction false} UpdateNamed(a: Abstract, p: string, cs: seq<ClassMetadata>, d: Declarations, n: string)
    requires WellNamed(a) && forall c :: c in cs ==> c.origin == Origin(p)
    ensures var after := Update(a, Origin(p), cs, d);
      && (n in after.classes ==> after.classes[n].internalName == n)
      && (IsJar(after, n) <==> IsJar(a, n))
      && (n in after.classes && after.classes[n].origin != Origin(p) ==> n in a.classes && a.classes[n] == after.classes[n])
      && (n in a.classes && a.classes[n].origin != Origin(p) && (forall c :: c in cs ==> c.internalName != n) ==>
           n in after.classes && after.classes[n] == a.classes[n])
  {
    var kept := Unblocked(a.classes, cs);
    UpdateMeaning(a, Origin(p), cs, d, n);
    UnblockedMembers(a.classes, cs);
    if LastNamed(kept, n).Some? {
      LastNamedMember(kept, n);
    }
  }

  lemma {:induction false} UpdateIsEdit(a: Abstract, p: string, cs: seq<ClassMetadata>, d: Declarations)
    requires WellNamed(a) && forall c :: c in cs ==> c.origin == Origin(p)
    ensures EditOf(a, Update(a, Origin(p), cs, d), p, cs)
  {
    var after := Update(a, Origin(p), cs, d);
    forall n
      ensures n in after.classes ==> after.classes[n].internalName == n
      ensures IsJar(after, n) <==> IsJar(a, n)
    {
      UpdateNamed(a, p, cs, d, n);
    }
    forall q, c | q != p && c in OriginClasses(after.classes, Origin(q)) ensures c in OriginClasses(a.classes, Origin(q)) {
      var n :| n in after.classes && after.classes[n].origin == Origin(q) && after.classes[n] == c;
      UpdateNamed(a, p, cs, d, n);
    }
    forall q, c | q != p && c in OriginClasses(a.classes, Origin(q)) && (forall d :: d in cs ==> d.internalName != c.internalName)
      ensures c in OriginClasses(after.classes, Origin(q))
    {
      var n :| n in a.classes && a.classes[n].origin == Origin(q) && a.classes[n] == c;
      UpdateNamed(a, p, cs, d, n);
      assert after.classes[n] == c;
    }
  }

  lemma {:induction false} SameBlocked(a: Abstract, b: Abstract, cs: seq<ClassMetadata>)
    requires forall n :: IsJar(b, n) <==> IsJar(a, n)
    ensures Unblocked(b.classes, cs) == Unblocked(a.classes, cs)
  {
    if cs != [] {
      SameBlocked(a, b, Front(cs));
      assert Blocked(b.classes, Last(cs)) == IsJar(b, Last(cs).internalName);
      assert Blocked(a.classes, Last(cs)) == IsJar(a, Last(cs).internalName);
    }
  }

  // ---- what one step does to the index

  ghost predicate StepOf(env: Env, s: Index, s': Index, p: string) {
    var b := env.contextOf(p);
    && (forall c :: c != b ==> BucketAt(s', c) == BucketAt(s, c))
    && EditOf(BucketAt(s, b), BucketAt(s', b), p, if Follows(env, p) && p in env.disk then env.classesOf(p, env.disk[p]) else [])
  }

  // A step on one path leaves what is settled elsewhere settled, and open documents alone.
  lemma {:induction false} StepKeeps(env: Env, s: Index, s': Index, p: string, q: string)
    requires GoodDisk(env) && Good(env, s) && StepOf(env, s, s', p) && p !in env.open && q != p
    ensures Kept(env, s', q) == Kept(env, s, q)
    ensures Follows(env, q) && Settled(env, s, q) ==> Settled(env, s', q)
    ensures q in env.open ==> Held(env, s', q) == Held(env, s, q)
    ensures Held(env, s', q) <= Held(env, s, q)
  {
    var b := env.contextOf(p);
    if env.contextOf(q) == b {
      var before, after := BucketAt(s, b), BucketAt(s', b);
      var incoming := if Follows(env, p) && p in env.disk then env.classesOf(p, env.disk[p]) else [];
      if q in env.disk {
        SameBlocked(before, after, env.classesOf(q, env.disk[q]));
        UnblockedMembers(before.classes, env.classesOf(q, env.disk[q]));
      }
      if (Follows(env, q) && Settled(env, s, q)) || q in env.open {
        forall c | c in Held(env, s, q) ensures c in Held(env, s', q) {
          forall d | d in incoming ensures d.internalName != c.internalName {
            if q in env.open {
              assert ApartFromOpen(env, s, p, q);
            } else {
              assert c in Kept(env, s, q);
              assert Apart(env, p, q);
            }
          }
        }
      }
    }
  }

  lemma {:induction false} StepKeepsGood(env: Env, s: Index, s': Index, p: string)
    requires GoodDisk(env) && Good(env, s) && StepOf(env, s, s', p) && p !in env.open
    requires Follows(env, p) ==> Yields(env, s', p)
    ensures Good(env, s')
  {
    forall b ensures WellNamed(BucketAt(s', b)) {
    }
    forall q | Follows(env, q) ensures Yields(env, s', q) {
      assert Yields(env, s, q);
      if q != p {
        StepKeeps(env, s, s', p, q);
      }
    }
    forall q, r | Follows(env, q) && r in env.open ensures ApartFromOpen(env, s', q, r) {
      assert ApartFromOpen(env, s, q, r);
      StepKeeps(env, s, s', p, r);
    }
  }

  lemma {:induction false} RemoveIsStep(env: Env, s: Index, p: string)
    requires Good(env, s) && p !in env.open
    ensures StepOf(env, s, Removed(env, s, p), p)
    ensures Held(env, Removed(env, s, p), p) == {}
  {
    RemovalIsEdit(BucketAt(s, env.contextOf(p)), p);
  }

  // Upserting a file gets it in step exactly when it yields an unblocked class or had none before.
  lemma {:induction false} UpsertSettlesExactly(env: Env, s: Index, p: string)
    requires p in env.disk && OwnClasses(env, p) && WellNamed(BucketAt(s, env.contextOf(p)))
    ensures Settled(env, Upserted(env, s, p, env.disk[p]), p) <==> Yields(env, s, p)
    ensures ModuleSettled(env, Upserted(env, s, p, env.disk[p]), p)
  {
    var a, cs, d := BucketAt(s, env.contextOf(p)), env.classesOf(p, env.disk[p]), env.rangesOf(p, env.disk[p]);
    UpdateIsEdit(a, p, cs, d);
    UpdateMirrors(a, Origin(p), cs, d);
    SameBlocked(a, Update(a, Origin(p), cs, d), cs);
    NoNamesNoClasses(a, p);
  }

  lemma {:induction false} NoNamesNoClasses(a: Abstract, p: string)
    ensures OriginNames(a, Origin(p)) == {} <==> OriginClasses(a.classes, Origin(p)) == {}
  {
    forall n | n in OriginNames(a, Origin(p)) ensures a.classes[n] in OriginClasses(a.classes, Origin(p)) {
    }
    forall c | c in OriginClasses(a.classes, Origin(p)) ensures OriginNames(a, Origin(p)) != {} {
      var n :| n in a.classes && a.classes[n].origin == Origin(p) && a.classes[n] == c;
      assert n in OriginNames(a, Origin(p));
    }
  }

  lemma {:induction false} UpsertIsStep(env: Env, s: Index, p: string)
    requires GoodDisk(env) && Good(env, s) && Follows(env, p) && p in env.disk
    ensures StepOf(env, s, Upserted(env, s, p, env.disk[p]), p)
    ensures Settled(env, Upserted(env, s, p, env.disk[p]), p)
    ensures Yields(env, Upserted(env, s, p, env.disk[p]), p)
  {
    var a, cs, d := BucketAt(s, env.contextOf(p)), env.classesOf(p, env.disk[p]), env.rangesOf(p, env.disk[p]);
    assert OwnClasses(env, p) && Yields(env, s, p);
    UpdateIsEdit(a, p, cs, d);
    UpsertSettlesExactly(env, s, p);
    var s' := Upserted(env, s, p, env.disk[p]);
    if Kept(env, s', p) == [] {
      assert Held(env, s', p) == {};
    }
  }

  // ---- a settled file is left as it is

  lemma {:induction false} SettledUpsertUnchanged(env: Env, s: Index, p: string)
    requires GoodDisk(env) && Good(env, s) && Follows(env, p) && p in env.disk && Settled(env, s, p) && ModuleSettled(env, s, p)
    ensures UpsertStep(env, s, p).1 == Unchanged
    ensures BucketAt(UpsertStep(env, s, p).0, env.contextOf(p)) == BucketAt(s, env.contextOf(p))
  {
    var a, cs := BucketAt(s, env.contextOf(p)), env.classesOf(p, env.disk[p]);
    assert OwnClasses(env, p) && Yields(env, s, p);
    UnblockedDistinct(a.classes, cs);
    var kept := Unblocked(a.classes, cs);
    MultisetOfDistinct(kept, set c | c in kept);
  }
}
