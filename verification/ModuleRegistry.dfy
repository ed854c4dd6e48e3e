// The registry of Java module descriptors over whole runs of applies, rescans and documents being
// analysed.
module ModuleRegistry {
  import opened Seqs
  import opened WatchSpec
  import opened WatchLaws

  // Besides applies and rescans: a document is analysed, so that its query input is retained, and
  // its module descriptor is refreshed.
  datatype Event = Apply(env: Env, changes: seq<Change>) | Retain(path: string) | Refresh(path: string, descriptor: Option<string>)

  ghost function IndexAfter(s: Index, run: seq<Event>): Index {
    if run == [] then s
    else
      var before := IndexAfter(s, Front(run));
      match Last(run)
      case Apply(env, changes) => ApplyChanges(env, before, changes).index
      case Retain(p) => before.(retained := before.retained + {p})
      case Refresh(p, descriptor) => Redeclared(before, p, descriptor)
  }

  // The event lets go of the file's query input if there is one.
  ghost predicate LetsGo(e: Event, p: string) {
    e.Apply? && ((Change(Remove, p) in e.changes && p !in e.env.open) || (Change(Upsert, p) in e.changes && Follows(e.env, p)))
  }

  ghost predicate Declares(e: Event, p: string) {
    match e
    case Apply(env, changes) => Change(Upsert, p) in changes && Follows(env, p) && p in env.disk
    case Retain(_) => false
    case Refresh(q, _) => q == p
  }

  ghost function Declared(e: Event, p: string): Option<string>
    requires Declares(e, p)
  {
    match e
    case Apply(env, _) => env.moduleOf(p, env.disk[p])
    case Refresh(_, descriptor) => descriptor
  }

  lemma {:induction false} RemoveStepModule(env: Env, s: Index, q: string, p: string)
    ensures var s' := RemoveStep(env, s, q).0;
      if p == q && p !in env.open
      then p !in s'.retained && ModuleAt(s', p) == if p in s.retained then None else ModuleAt(s, p)
      else (p in s'.retained <==> p in s.retained) && ModuleAt(s', p) == ModuleAt(s, p)
  {
  }

  lemma {:induction false} RemoveAllModule(env: Env, s: Progress, paths: seq<string>, p: string)
    ensures var s' := RemoveAll(env, s, paths).index;
      if p in paths && p !in env.open
      then p !in s'.retained && ModuleAt(s', p) == if p in s.index.retained then None else ModuleAt(s.index, p)
      else (p in s'.retained <==> p in s.index.retained) && ModuleAt(s', p) == ModuleAt(s.index, p)
  {
    hide RemoveStep, ModuleAt, Counted;
    if paths != [] {
      assert paths == Front(paths) + [Last(paths)];
      RemoveAllModule(env, s, Front(paths), p);
      RemoveStepModule(env, RemoveAll(env, s, Front(paths)).index, Last(paths), p);
    }
  }

  lemma {:induction false} UpsertStepModule(env: Env, s: Index, q: string, p: string)
    ensures var s' := UpsertStep(env, s, q).0;
      if p == q && Follows(env, p)
      then p !in s'.retained && ModuleAt(s', p) ==
        if p in env.disk then env.moduleOf(p, env.disk[p]) else if p in s.retained then None else ModuleAt(s, p)
      else (p in s'.retained <==> p in s.retained) && ModuleAt(s', p) == ModuleAt(s, p)
  {
  }

  lemma {:induction false} UpsertAllModule(env: Env, s: Progress, paths: seq<string>, p: string)
    ensures var s' := UpsertAll(env, s, paths).index;
      if p in paths && Follows(env, p)
      then p !in s'.retained && ModuleAt(s', p) ==
        if p in env.disk then env.moduleOf(p, env.disk[p]) else if p in s.index.retained then None else ModuleAt(s.index, p)
      else (p in s'.retained <==> p in s.index.retained) && ModuleAt(s', p) == ModuleAt(s.index, p)
  {
    hide UpsertStep, ModuleAt, Counted;
    if paths != [] {
      assert paths == Front(paths) + [Last(paths)];
      UpsertAllModule(env, s, Front(paths), p);
      UpsertStepModule(env, UpsertAll(env, s, Front(paths)).index, Last(paths), p);
    }
  }

  lemma {:induction false} EventModule(s: Index, e: Event, p: string)
    ensures var s' := IndexAfter(s, [e]);
      && (p in s'.retained <==> e == Retain(p) || (p in s.retained && !LetsGo(e, p)))
      && ModuleAt(s', p) == (
           if Declares(e, p) then Declared(e, p) else if LetsGo(e, p) && p in s.retained then None else ModuleAt(s, p))
  {
    assert Front([e]) == [] && Last([e]) == e;
    if e.Apply? {
      SortedOnce(e.changes, Remove);
      SortedOnce(e.changes, Upsert);
      var removals := Sorted(PathsOf(e.changes, Remove));
      RemoveAllModule(e.env, Progress(s, NOTHING), removals, p);
      UpsertAllModule(e.env, RemoveAll(e.env, Progress(s, NOTHING), removals), Sorted(PathsOf(e.changes, Upsert)), p);
    }
  }

  lemma {:induction false} OneMoreEvent(s: Index, run: seq<Event>)
    requires run != []
    ensures IndexAfter(s, run) == IndexAfter(IndexAfter(s, Front(run)), [Last(run)])
  {
    assert Front([Last(run)]) == [];
  }

  ghost predicate Retained(run: seq<Event>, p: string) {
    exists i :: 0 <= i < |run| && run[i] == Retain(p) && forall j :: i < j < |run| ==> !LetsGo(run[j], p)
  }

  lemma {:induction false} RetainedAfterRun(s: Index, run: seq<Event>, p: string)
    requires p !in s.retained
    ensures p in IndexAfter(s, run).retained <==> Retained(run, p)
  {
    if run != [] {
      RetainedAfterRun(s, Front(run), p);
      OneMoreEvent(s, run);
      EventModule(IndexAfter(s, Front(run)), Last(run), p);
      RetainedNext(run, p);
    }
  }

  lemma {:induction false} RetainedNext(run: seq<Event>, p: string)
    requires run != []
    ensures Retained(run, p) <==> Last(run) == Retain(p) || (Retained(Front(run), p) && !LetsGo(Last(run), p))
  {
    hide LetsGo;
    var front := Front(run);
    if Last(run) == Retain(p) {
      assert run[|front|] == Retain(p);
    } else if Retained(run, p) {
      var i :| 0 <= i < |run| && run[i] == Retain(p) && forall j :: i < j < |run| ==> !LetsGo(run[j], p);
      assert front[i] == Retain(p);
    } else if Retained(front, p) {
      var i :| 0 <= i < |front| && front[i] == Retain(p) && forall j :: i < j < |front| ==> !LetsGo(front[j], p);
      assert run[i] == Retain(p);
    }
  }

  // Some later event lets go of an input that is retained at that moment.
  ghost predicate Dropped(run: seq<Event>, d: nat, p: string) {
    exists j :: d < j < |run| && LetsGo(run[j], p) && Retained(run[..j], p)
  }

  lemma {:induction false} DroppedNext(run: seq<Event>, d: nat, p: string)
    requires d < |run| - 1
    ensures Dropped(run, d, p) <==> Dropped(Front(run), d, p) || (LetsGo(Last(run), p) && Retained(Front(run), p))
  {
    forall j | d < j < |Front(run)| ensures Front(run)[..j] == run[..j] && Front(run)[j] == run[j] {
    }
    assert run[..|run| - 1] == Front(run);
  }

  // After any run the descriptor on record is the last one declared, even of a file long removed,
  // unless the removal, or one after it, let go of a query input retained at that moment.
  lemma {:induction false} DescriptorAfterRun(s: Index, run: seq<Event>, p: string, d: nat)
    requires p !in s.retained
    requires d < |run| && Declares(run[d], p) && forall j :: d < j < |run| ==> !Declares(run[j], p)
    ensures ModuleAt(IndexAfter(s, run), p) == if Dropped(run, d, p) then None else Declared(run[d], p)
  {
    var front, e := Front(run), Last(run);
    OneMoreEvent(s, run);
    EventModule(IndexAfter(s, front), e, p);
    if d < |front| {
      assert front[d] == run[d];
      DescriptorAfterRun(s, front, p, d);
      RetainedAfterRun(s, front, p);
      DroppedNext(run, d, p);
    }
  }

  // In particular a file that vanishes from disk and index leaves its descriptor behind.
  lemma {:induction false} VanishedFileKeepsDescriptor(env: Env, s: Index, p: string, gone: map<string, string>)
    requires Follows(env, p) && p in env.disk && p !in s.retained && gone == env.disk - {p}
    ensures var s' := IndexAfter(s, [Apply(env, [Change(Upsert, p)]), Apply(env.(disk := gone), [Change(Remove, p)])]);
      && ModuleAt(s', p) == env.moduleOf(p, env.disk[p])
      && p !in s'.tracked && !HasClasses(env, s', p)
  {
    var first, second := Apply(env, [Change(Upsert, p)]), Apply(env.(disk := gone), [Change(Remove, p)]);
    var run := [first, second];
    assert Front(run) == [first] && Last(run) == second;
    assert run[0] == first && run[1] == second && Change(Upsert, p) in first.changes;
    DescriptorAfterRun(s, run, p, 0);
    assert forall j :: 0 < j < |run| ==> run[..j] == [first];
    var before := IndexAfter(s, [first]);
    ApplyTracking(second.env, before, second.changes, p);
    SortedOnce(second.changes, Remove);
    SortedOnce(second.changes, Upsert);
    assert Sorted(PathsOf(second.changes, Upsert)) == [];
    RemoveAllEmpties(second.env, Progress(before, NOTHING), Sorted(PathsOf(second.changes, Remove)), p);
    OneMoreEvent(s, run);
    assert Front([second]) == [];
  }
}
