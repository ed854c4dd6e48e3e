// The whole state of a bucket as a value, what each in-place edit makes of it, and why
// every edit keeps the parts in step.
module BucketStates {
  import opened Seqs
  import opened ClassModel
  import opened ArchiveStubs
  import opened TextOrder
  import opened BucketSpec
  import opened BucketSlots

  datatype BucketState = BucketState(
    classes: Slots,
    freeClassIds: seq<nat>,
    byInternal: map<string, nat>,
    byOrigin: IdIndex<ClassOrigin>,
    ranges: Declarations,
    simpleNameIndex: IdIndex<string>,
    packageIndex: IdIndex<string>,
    ownerIndex: IdIndex<string>)

  ghost predicate NamesListed(s: BucketState) {
    && Exact(s.simpleNameIndex, s.classes, SimpleNameOf)
    && Exact(s.packageIndex, s.classes, PackageOf)
    && Exact(s.ownerIndex, s.classes, OwnerOf)
  }

  // Everything but the origin index.
  ghost predicate Core(s: BucketState) {
    && NamesExact(s.byInternal, s.classes)
    && FreeExact(s.freeClassIds, s.classes)
    && NamesListed(s)
    && RangesDeclared(View(s))
  }

  ghost predicate Linked(s: BucketState) {
    Core(s) && Exact(s.byOrigin, s.classes, OriginOf)
  }

  ghost function View(s: BucketState): Abstract
    requires NamesExact(s.byInternal, s.classes)
  {
    Abstract(ClassMap(s.byInternal, s.classes), s.ranges)
  }

  ghost function WithoutDeclared(r: Declarations, c: ClassMetadata): Declarations {
    Declarations(
      r.types - {c.internalName},
      map k | k in r.methods && !DeclaresMethod(c, k) :: r.methods[k],
      map k | k in r.fields && !DeclaresField(c, k) :: r.fields[k])
  }

  ghost function Detached(s: BucketState, id: nat): BucketState {
    if !Live(s.classes, id) then s
    else
      var c := s.classes[id].value;
      s.(classes := s.classes[id := None],
         byInternal := if c.InternalName() in s.byInternal && s.byInternal[c.InternalName()] == id
                       then s.byInternal - {c.InternalName()} else s.byInternal,
         ranges := WithoutDeclared(s.ranges, c.Meta()),
         simpleNameIndex := Trim(s.simpleNameIndex, SimpleNameOf(c), id),
         packageIndex := Trim(s.packageIndex, PackageOf(c), id),
         ownerIndex := Trim(s.ownerIndex, OwnerOf(c), id),
         freeClassIds := s.freeClassIds + [id])
  }

  ghost function Removed(s: BucketState, id: nat): BucketState {
    if !Live(s.classes, id) then s
    else Detached(s, id).(byOrigin := Trim(s.byOrigin, OriginOf(s.classes[id].value), id))
  }

  // The most recently freed slot is reused before the array grows.
  ghost function NextId(s: BucketState): nat {
    if s.freeClassIds != [] then Last(s.freeClassIds) else |s.classes|
  }

  ghost function Filled(s: BucketState, c: StoredClass): BucketState {
    var id := NextId(s);
    s.(classes := Put(s.classes, id, c),
       freeClassIds := if s.freeClassIds != [] then Front(s.freeClassIds) else [],
       byInternal := s.byInternal[c.InternalName() := id],
       simpleNameIndex := Push(s.simpleNameIndex, SimpleNameOf(c), id),
       packageIndex := Push(s.packageIndex, PackageOf(c), id),
       ownerIndex := Push(s.ownerIndex, OwnerOf(c), id),
       byOrigin := Push(s.byOrigin, OriginOf(c), id))
  }

  lemma {:induction false} DetachedNames(s: BucketState, id: nat)
    requires NamesExact(s.byInternal, s.classes) && Live(s.classes, id)
    requires RangesDeclared(View(s))
    ensures NamesExact(Detached(s, id).byInternal, Detached(s, id).classes)
    ensures View(Detached(s, id)) == Drop(View(s), s.classes[id].value.InternalName())
    ensures RangesDeclared(View(Detached(s, id)))
  {
    EmptiedNames(s.byInternal, s.classes, id);
    DropRanges(View(s), s.classes[id].value.Meta());
  }

  lemma {:induction false} DetachedFree(free: seq<nat>, slots: Slots, id: nat)
    requires FreeExact(free, slots) && Live(slots, id)
    ensures FreeExact(free + [id], slots[id := None])
  {
    assert id !in free;
  }

  lemma {:induction false} DetachedCore(s: BucketState, id: nat)
    requires Core(s) && Live(s.classes, id)
    ensures Core(Detached(s, id))
    ensures View(Detached(s, id)) == Drop(View(s), s.classes[id].value.InternalName())
  {
    DetachedNames(s, id);
    DetachedFree(s.freeClassIds, s.classes, id);
    TrimExact(s.simpleNameIndex, s.classes, SimpleNameOf, id);
    TrimExact(s.packageIndex, s.classes, PackageOf, id);
    TrimExact(s.ownerIndex, s.classes, OwnerOf, id);
  }

  lemma {:induction false} RemovedLinked(s: BucketState, id: nat)
    requires Linked(s) && Live(s.classes, id)
    ensures Linked(Removed(s, id))
    ensures View(Removed(s, id)) == Drop(View(s), s.classes[id].value.InternalName())
  {
    DetachedCore(s, id);
    TrimExact(s.byOrigin, s.classes, OriginOf, id);
  }

  lemma {:induction false} NextIdFree(s: BucketState, c: StoredClass)
    requires FreeExact(s.freeClassIds, s.classes)
    ensures NextId(s) <= |s.classes| && !Live(s.classes, NextId(s))
    ensures s.freeClassIds != [] ==> NextId(s) < |s.classes|
    ensures FreeExact(Filled(s, c).freeClassIds, Filled(s, c).classes)
  {
    if s.freeClassIds != [] {
      PopFree(s.freeClassIds, s.classes, c);
    }
  }

  lemma {:induction false} FilledLinked(s: BucketState, c: StoredClass)
    requires Linked(s) && c.InternalName() !in s.byInternal
    ensures NextId(s) <= |s.classes| && Linked(Filled(s, c))
    ensures View(Filled(s, c)) == Abstract(View(s).classes[c.InternalName() := c.Meta()], s.ranges)
  {
    NextIdFree(s, c);
    FilledNames(s.byInternal, s.classes, NextId(s), c);
    FreshKeepsRanges(View(s), c.Meta());
    PushExact(s.simpleNameIndex, s.classes, SimpleNameOf, NextId(s), c);
    PushExact(s.packageIndex, s.classes, PackageOf, NextId(s), c);
    PushExact(s.ownerIndex, s.classes, OwnerOf, NextId(s), c);
    PushExact(s.byOrigin, s.classes, OriginOf, NextId(s), c);
  }

  // An existing class of the same name makes room for the new one first.
  ghost function Cleared(s: BucketState, name: string): BucketState {
    if name in s.byInternal then Removed(s, s.byInternal[name]) else s
  }

  lemma {:induction false} ClearedLinked(s: BucketState, name: string)
    requires Linked(s)
    ensures Linked(Cleared(s, name)) && name !in Cleared(s, name).byInternal
    ensures View(Cleared(s, name)) == Drop(View(s), name)
  {
    if name in s.byInternal {
      RemovedLinked(s, s.byInternal[name]);
      assert name !in View(Cleared(s, name)).classes;
    } else {
      DropAbsent(View(s), name);
    }
  }

  ghost function Inserted(s: BucketState, c: StoredClass, d: Declarations): BucketState {
    var t := Filled(Cleared(s, c.InternalName()), c);
    t.(ranges := Overlay(t.ranges, About(c.Meta(), d)))
  }

  lemma {:induction false} RerangedLinked(s: BucketState, r: Declarations)
    requires Linked(s) && RangesDeclared(Abstract(View(s).classes, r))
    ensures Linked(s.(ranges := r)) && View(s.(ranges := r)) == Abstract(View(s).classes, r)
  {
  }

  lemma {:induction false} InsertedLinked(s: BucketState, c: StoredClass, d: Declarations)
    requires Linked(s)
    ensures Linked(Inserted(s, c, d))
    ensures View(Inserted(s, c, d)) == Insert(View(s), c.Meta(), d)
  {
    var name := c.InternalName();
    ClearedLinked(s, name);
    FilledLinked(Cleared(s, name), c);
    InsertAfterDrop(View(s), c.Meta(), d);
    InsertKeepsShape(View(s), c.Meta(), d);
    var t := Filled(Cleared(s, name), c);
    RerangedLinked(t, Overlay(t.ranges, About(c.Meta(), d)));
  }

  // ---- removing a whole origin

  ghost function DetachedAll(s: BucketState, ids: seq<nat>): BucketState {
    if ids == [] then s else Detached(DetachedAll(s, Front(ids)), Last(ids))
  }

  ghost function OriginRemoved(s: BucketState, o: ClassOrigin): BucketState {
    if o !in s.byOrigin then s else DetachedAll(s.(byOrigin := s.byOrigin - {o}), s.byOrigin[o])
  }

  lemma NothingRemoved(s: BucketState, o: ClassOrigin)
    requires o !in s.byOrigin
    ensures OriginRemoved(s, o) == s
  {
  }

  ghost function NamesAt(slots: Slots, ids: seq<nat>): set<string> {
    set id | id in ids && Live(slots, id) :: slots[id].value.InternalName()
  }

  ghost function DropAll(a: Abstract, names: set<string>): Abstract {
    Abstract(a.classes - names, Forget(a.ranges, names))
  }

  lemma {:induction false} DropOneMore(a: Abstract, names: set<string>, n: string)
    ensures Drop(DropAll(a, names), n) == DropAll(a, names + {n})
    ensures DropAll(a, {}) == a
  {
    assert a.classes - names - {n} == a.classes - (names + {n});
    assert a.classes - {} == a.classes;
    assert Forget(a.ranges, {}) == a.ranges;
  }

  lemma {:induction false} DetachedAllSlots(s: BucketState, ids: seq<nat>)
    ensures var t := DetachedAll(s, ids);
      && t.byOrigin == s.byOrigin && |t.classes| == |s.classes|
      && (forall id :: 0 <= id < |s.classes| ==> t.classes[id] == if id in ids then None else s.classes[id])
  {
    if ids != [] {
      DetachedAllSlots(s, Front(ids));
      assert ids == Front(ids) + [Last(ids)];
    }
  }

  lemma {:induction false} NamesAtSnoc(slots: Slots, ids: seq<nat>, id: nat)
    requires Live(slots, id)
    ensures NamesAt(slots, ids + [id]) == NamesAt(slots, ids) + {slots[id].value.InternalName()}
  {
    assert id in ids + [id];
  }

  lemma {:induction false} DetachOneMore(t: BucketState, a: Abstract, names: set<string>, id: nat)
    requires Core(t) && Live(t.classes, id) && View(t) == DropAll(a, names)
    ensures Core(Detached(t, id))
    ensures View(Detached(t, id)) == DropAll(a, names + {t.classes[id].value.InternalName()})
  {
    DetachedCore(t, id);
    DropOneMore(a, names, t.classes[id].value.InternalName());
  }

  lemma {:induction false} DetachedAllCore(s: BucketState, ids: seq<nat>)
    requires Core(s) && NoDup(ids) && forall id :: id in ids ==> Live(s.classes, id)
    ensures Core(DetachedAll(s, ids))
    ensures View(DetachedAll(s, ids)) == DropAll(View(s), NamesAt(s.classes, ids))
  {
    if ids == [] {
      assert NamesAt(s.classes, ids) == {};
      DropOneMore(View(s), {}, "");
    } else {
      var front, id := Front(ids), Last(ids);
      assert ids == front + [id] && id in ids && id !in front;
      DetachedAllCore(s, front);
      DetachedAllSlots(s, front);
      assert DetachedAll(s, front).classes[id] == s.classes[id];
      DetachOneMore(DetachedAll(s, front), View(s), NamesAt(s.classes, front), id);
      NamesAtSnoc(s.classes, front, id);
      assert NamesAt(s.classes, ids) == NamesAt(s.classes, front) + {s.classes[id].value.InternalName()};
    }
  }

  lemma {:induction false} OriginNamesListed(s: BucketState, o: ClassOrigin)
    requires Linked(s)
    ensures o !in s.byOrigin ==> OriginNames(View(s), o) == {}
    ensures o in s.byOrigin ==>
      && (forall id :: id in s.byOrigin[o] ==> Live(s.classes, id))
      && OriginNames(View(s), o) == NamesAt(s.classes, s.byOrigin[o])
      && OriginNames(View(s), o) != {}
  {
    assert Listed(s.byOrigin, o) == Holders(s.classes, OriginOf, o);
    forall n | n in OriginNames(View(s), o) ensures s.byInternal[n] in Listed(s.byOrigin, o) {
      assert s.byInternal[n] in Holders(s.classes, OriginOf, o);
    }
    if o in s.byOrigin {
      forall id | id in s.byOrigin[o]
        ensures Live(s.classes, id) && s.classes[id].value.InternalName() in OriginNames(View(s), o)
      {
        assert id in Listed(s.byOrigin, o);
      }
      forall n | n in OriginNames(View(s), o) ensures n in NamesAt(s.classes, s.byOrigin[o]) {
        assert s.byInternal[n] in s.byOrigin[o];
      }
      assert s.byOrigin[o][0] in s.byOrigin[o];
    }
  }

  lemma {:induction false} OriginIndexRemoved(index: IdIndex<ClassOrigin>, slots: Slots, after: Slots, o: ClassOrigin)
    requires Exact(index, slots, OriginOf) && o in index && |after| == |slots|
    requires forall id :: 0 <= id < |slots| ==> after[id] == if id in index[o] then None else slots[id]
    ensures Exact(index - {o}, after, OriginOf)
  {
    forall k ensures Listed(index - {o}, k) == Holders(after, OriginOf, k) {
      assert Listed(index, k) == Holders(slots, OriginOf, k);
      assert Listed(index, o) == Holders(slots, OriginOf, o);
      if k == o {
        forall id | id in Holders(slots, OriginOf, o) ensures id in index[o] {
          assert id in Listed(index, o);
        }
        assert Holders(after, OriginOf, o) == {};
      } else {
        forall id | id in index[o] ensures id !in Holders(slots, OriginOf, k) {
          assert id in Listed(index, o);
        }
        assert Holders(after, OriginOf, k) == Holders(slots, OriginOf, k);
      }
    }
  }

  lemma {:induction false} OriginRemovedLinked(s: BucketState, o: ClassOrigin)
    requires Linked(s)
    ensures Linked(OriginRemoved(s, o))
    ensures View(OriginRemoved(s, o)) == RemoveOrigin(View(s), o)
  {
    OriginNamesListed(s, o);
    if o in s.byOrigin {
      DetachedAllCore(s.(byOrigin := s.byOrigin - {o}), s.byOrigin[o]);
      DetachedAllSlots(s.(byOrigin := s.byOrigin - {o}), s.byOrigin[o]);
      OriginIndexRemoved(s.byOrigin, s.classes, OriginRemoved(s, o).classes, o);
    } else {
      DropOneMore(View(s), {}, "");
    }
    DropAllIsRemoval(View(s), o);
  }

  lemma {:induction false} DropAllIsRemoval(a: Abstract, o: ClassOrigin)
    ensures DropAll(a, OriginNames(a, o)) == RemoveOrigin(a, o)
  {
  }

  // ---- adding a list of classes

  ghost function InsertedAll(s: BucketState, cs: seq<StoredClass>, d: Declarations): BucketState {
    if cs == [] then s else Inserted(InsertedAll(s, Front(cs), d), Last(cs), d)
  }

  ghost function Metas(cs: seq<StoredClass>): seq<ClassMetadata> {
    if cs == [] then [] else Metas(Front(cs)) + [Last(cs).Meta()]
  }

  lemma {:induction false} InsertedAllLinked(s: BucketState, cs: seq<StoredClass>, d: Declarations)
    requires Linked(s)
    ensures Linked(InsertedAll(s, cs, d))
    ensures View(InsertedAll(s, cs, d)) == InsertAll(View(s), Metas(cs), d)
  {
    if cs != [] {
      InsertedAllLinked(s, Front(cs), d);
      InsertedLinked(InsertedAll(s, Front(cs), d), Last(cs), d);
      assert Front(Metas(cs)) == Metas(Front(cs));
    }
  }

  function Richs(cs: seq<ClassMetadata>): (r: seq<StoredClass>)
    ensures |r| == |cs|
  {
    if cs == [] then [] else Richs(Front(cs)) + [Rich(Last(cs))]
  }

  function Archiveds(cs: seq<ClassMetadata>): (r: seq<StoredClass>)
    ensures |r| == |cs|
  {
    if cs == [] then [] else Archiveds(Front(cs)) + [Archived(StubClass(Last(cs)))]
  }

  // What storing classes as archive stubs keeps of them.
  function Restubbed(cs: seq<ClassMetadata>): seq<ClassMetadata> {
    if cs == [] then [] else Restubbed(Front(cs)) + [ClassOf(StubClass(Last(cs)))]
  }

  lemma {:induction false} RichMetas(cs: seq<ClassMetadata>)
    ensures Metas(Richs(cs)) == cs
  {
    if cs != [] {
      RichMetas(Front(cs));
      assert Front(Richs(cs)) == Richs(Front(cs));
    }
  }

  lemma {:induction false} ArchivedMetas(cs: seq<ClassMetadata>)
    ensures Metas(Archiveds(cs)) == Restubbed(cs)
  {
    if cs != [] {
      ArchivedMetas(Front(cs));
      assert Front(Archiveds(cs)) == Archiveds(Front(cs));
    }
  }

  function Slashed(pkg: string): (r: string)
    ensures |r| == |pkg|
  {
    seq(|pkg|, i requires 0 <= i < |pkg| => if pkg[i] == '.' then '/' else pkg[i])
  }

  // Dots become slashes and nothing else changes.
  lemma {:induction false} SlashedExactly(pkg: string)
    ensures |Slashed(pkg)| == |pkg|
    ensures forall i :: 0 <= i < |pkg| ==> Slashed(pkg)[i] == if pkg[i] == '.' then '/' else pkg[i]
    ensures Slashed("java.util") == "java/util" == Slashed("java/util")
  {
  }

  function Resolved(slots: Slots, ids: seq<nat>): seq<ClassMetadata> {
    if ids == [] then []
    else Resolved(slots, Front(ids)) + (if Live(slots, Last(ids)) then [slots[Last(ids)].value.Meta()] else [])
  }

  lemma {:induction false} ResolvedMembers(slots: Slots, ids: seq<nat>, c: ClassMetadata)
    ensures c in Resolved(slots, ids) <==> exists id :: id in ids && Live(slots, id) && slots[id].value.Meta() == c
  {
    if ids != [] {
      ResolvedMembers(slots, Front(ids), c);
      assert ids == Front(ids) + [Last(ids)];
    }
  }

  lemma {:induction false} ResolvedDistinct(byInternal: map<string, nat>, slots: Slots, ids: seq<nat>)
    requires NamesExact(byInternal, slots) && NoDup(ids)
    ensures NoDup(Resolved(slots, ids))
  {
    if ids != [] {
      var front, id := Front(ids), Last(ids);
      ResolvedDistinct(byInternal, slots, front);
      if Live(slots, id) {
        ResolvedMembers(slots, front, slots[id].value.Meta());
      }
    }
  }

  // What a query through an exact index answers.
  lemma {:induction false} ListedClasses<K(!new)>(s: BucketState, index: IdIndex<K>, key: StoredClass -> Option<K>,
      classKey: ClassMetadata -> Option<K>, k: K, ids: seq<nat>)
    requires Linked(s) && Exact(index, s.classes, key) && ids == if k in index then index[k] else []
    requires forall c: StoredClass :: key(c) == classKey(c.Meta())
    ensures NoDup(Resolved(s.classes, ids))
    ensures forall c :: c in Resolved(s.classes, ids) ==>
      c.internalName in View(s).classes && View(s).classes[c.internalName] == c && classKey(c) == Some(k)
    ensures forall n :: n in View(s).classes && classKey(View(s).classes[n]) == Some(k) ==>
      View(s).classes[n] in Resolved(s.classes, ids)
  {
    assert Listed(index, k) == Holders(s.classes, key, k);
    ResolvedDistinct(s.byInternal, s.classes, ids);
    forall c | c in Resolved(s.classes, ids)
      ensures c.internalName in View(s).classes && View(s).classes[c.internalName] == c && classKey(c) == Some(k)
    {
      ResolvedMembers(s.classes, ids, c);
      var id :| id in ids && Live(s.classes, id) && s.classes[id].value.Meta() == c;
      assert id in Listed(index, k);
    }
    forall n | n in View(s).classes && classKey(View(s).classes[n]) == Some(k)
      ensures View(s).classes[n] in Resolved(s.classes, ids)
    {
      assert s.byInternal[n] in Holders(s.classes, key, k);
      assert s.byInternal[n] in Listed(index, k);
      ResolvedMembers(s.classes, ids, View(s).classes[n]);
    }
  }

  function NameOf(c: ClassMetadata): string { c.internalName }

  lemma {:induction false} ResolvedLength(slots: Slots, ids: seq<nat>)
    requires forall id :: id in ids ==> Live(slots, id)
    ensures |Resolved(slots, ids)| == |ids|
  {
    if ids != [] {
      assert ids == Front(ids) + [Last(ids)];
      ResolvedLength(slots, Front(ids));
    }
  }

  // The classes an origin lists, for comparison with an incoming batch.
  lemma {:induction false} OriginListing(s: BucketState, o: ClassOrigin, ids: seq<nat>)
    requires Linked(s) && ids == if o in s.byOrigin then s.byOrigin[o] else []
    ensures |Resolved(s.classes, ids)| == |ids|
    ensures DistinctBy(NameOf, Resolved(s.classes, ids))
    ensures multiset(Resolved(s.classes, ids)) == multiset(OriginClasses(View(s).classes, o))
  {
    var cs := Resolved(s.classes, ids);
    ListedClasses(s, s.byOrigin, OriginOf, (c: ClassMetadata) => Some(c.origin), o, ids);
    OriginNamesListed(s, o);
    ResolvedLength(s.classes, ids);
    forall i, j | 0 <= i < j < |cs| ensures NameOf(cs[i]) != NameOf(cs[j]) {
      assert cs[i] in cs && cs[j] in cs;
    }
    MultisetOfDistinct(cs, OriginClasses(View(s).classes, o));
  }

  // Comparing both sides sorted by name is comparing them as multisets.
  lemma {:induction false} SortedComparison(existing: seq<ClassMetadata>, incoming: seq<ClassMetadata>)
    requires DistinctBy(NameOf, existing)
    ensures SortBy(NameOf, existing) == SortBy(NameOf, incoming) <==> multiset(existing) == multiset(incoming)
  {
    SortBySorted(NameOf, existing);
    SortBySorted(NameOf, incoming);
    if multiset(existing) == multiset(incoming) {
      PermutedDistinct(NameOf, existing, SortBy(NameOf, existing));
      SortedUnique(NameOf, SortBy(NameOf, existing), SortBy(NameOf, incoming));
    }
  }
}
