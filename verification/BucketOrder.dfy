// The order in which a bucket's inverted indexes list classes: the order of their arrival. `ids`
// stands for the live ids in that order; slots are reused, so it is not the order of the ids.
module BucketOrder {
  import opened Seqs
  import opened ClassModel
  import opened BucketSpec
  import opened BucketSlots
  import opened BucketStates

  function Under<K>(index: IdIndex<K>, k: K): seq<nat> {
    if k in index then index[k] else []
  }

  function HasKey<K(==)>(slots: Slots, key: StoredClass -> Option<K>, k: K): nat -> bool {
    (id: nat) => Live(slots, id) && key(slots[id].value) == Some(k)
  }

  function OtherThan(id: nat): nat -> bool {
    (x: nat) => x != id
  }

  ghost predicate ListedInOrder<K(!new)>(index: IdIndex<K>, slots: Slots, key: StoredClass -> Option<K>, ids: seq<nat>) {
    forall k :: Under(index, k) == Filter(HasKey(slots, key, k), ids)
  }

  ghost predicate Ordered(s: BucketState, ids: seq<nat>) {
    && NoDup(ids) && (forall id: nat :: id in ids <==> Live(s.classes, id))
    && ListedInOrder(s.simpleNameIndex, s.classes, SimpleNameOf, ids)
    && ListedInOrder(s.packageIndex, s.classes, PackageOf, ids)
    && ListedInOrder(s.ownerIndex, s.classes, OwnerOf, ids)
  }

  // ---- filters

  lemma {:induction false} WithoutIsFilter(ids: seq<nat>, id: nat)
    ensures Without(ids, id) == Filter(OtherThan(id), ids)
  {
    if ids != [] {
      WithoutIsFilter(Front(ids), id);
    }
  }

  // ---- one index

  lemma {:induction false} PushInOrder<K(!new)>(index: IdIndex<K>, slots: Slots, key: StoredClass -> Option<K>, ids: seq<nat>, id: nat, c: StoredClass)
    requires ListedInOrder(index, slots, key, ids) && id <= |slots| && id !in ids
    ensures ListedInOrder(Push(index, key(c), id), Put(slots, id, c), key, ids + [id])
  {
    var after := Put(slots, id, c);
    assert Live(after, id) && after[id].value == c;
    forall k ensures Under(Push(index, key(c), id), k) == Filter(HasKey(after, key, k), ids + [id]) {
      FilterSnoc(HasKey(after, key, k), ids, id);
      forall x: nat | x in ids ensures HasKey(slots, key, k)(x) == HasKey(after, key, k)(x) {
        assert Live(slots, x) <==> Live(after, x);
      }
      FilterAlike(HasKey(slots, key, k), HasKey(after, key, k), ids);
      var listed := Under(index, k);
      assert listed == Filter(HasKey(slots, key, k), ids);
      assert HasKey(after, key, k)(id) <==> key(c) == Some(k);
      assert Under(Push(index, key(c), id), k) == if key(c) == Some(k) then listed + [id] else listed;
    }
  }

  lemma {:induction false} TrimInOrder<K(!new)>(index: IdIndex<K>, slots: Slots, key: StoredClass -> Option<K>, ids: seq<nat>, id: nat)
    requires ListedInOrder(index, slots, key, ids) && Live(slots, id)
    ensures ListedInOrder(Trim(index, key(slots[id].value), id), slots[id := None], key, Without(ids, id))
  {
    var after, trimmed := slots[id := None], Trim(index, key(slots[id].value), id);
    forall k ensures Under(trimmed, k) == Filter(HasKey(after, key, k), Without(ids, id)) {
      var listed := Under(index, k);
      assert listed == Filter(HasKey(slots, key, k), ids);
      WithoutIsFilter(ids, id);
      WithoutIsFilter(listed, id);
      forall x: nat | x in ids ensures HasKey(after, key, k)(x) == (HasKey(slots, key, k)(x) && OtherThan(id)(x)) {
        assert Live(after, x) <==> Live(slots, x) && x != id;
      }
      FilterTwice(HasKey(after, key, k), OtherThan(id), HasKey(after, key, k), ids);
      FilterTwice(OtherThan(id), HasKey(slots, key, k), HasKey(after, key, k), ids);
      if key(slots[id].value) != Some(k) {
        FilterAlike(HasKey(slots, key, k), HasKey(after, key, k), ids);
      }
    }
  }

  // ---- all classes in order of arrival

  ghost function Arrivals(s: BucketState, ids: seq<nat>): seq<ClassMetadata> {
    Resolved(s.classes, ids)
  }

  function NotNamed(name: string): ClassMetadata -> bool {
    (c: ClassMetadata) => c.internalName != name
  }

  function NotFrom(o: ClassOrigin): ClassMetadata -> bool {
    (c: ClassMetadata) => c.origin != o
  }

  // A class that arrives makes room for itself and goes to the end.
  ghost function Arrived(all: seq<ClassMetadata>, c: ClassMetadata): seq<ClassMetadata> {
    Filter(NotNamed(c.internalName), all) + [c]
  }

  ghost function AllArrived(all: seq<ClassMetadata>, cs: seq<ClassMetadata>): seq<ClassMetadata> {
    if cs == [] then all else Arrived(AllArrived(all, Front(cs)), Last(cs))
  }

  function NotNamedIn(cs: seq<ClassMetadata>): ClassMetadata -> bool {
    (c: ClassMetadata) => forall i :: 0 <= i < |cs| ==> cs[i].internalName != c.internalName
  }

  lemma {:induction false} NotNamedNext(cs: seq<ClassMetadata>, c: ClassMetadata)
    ensures forall x :: NotNamedIn(cs + [c])(x) == (NotNamed(c.internalName)(x) && NotNamedIn(cs)(x))
  {
    forall x ensures NotNamedIn(cs + [c])(x) == (NotNamed(c.internalName)(x) && NotNamedIn(cs)(x)) {
      assert (cs + [c])[|cs|] == c;
      assert forall i :: 0 <= i < |cs| ==> (cs + [c])[i] == cs[i];
    }
  }

  lemma {:induction false} ArrivesBehind(x: seq<ClassMetadata>, y: seq<ClassMetadata>, c: ClassMetadata)
    ensures Arrived(x + y, c) == Filter(NotNamed(c.internalName), x) + Arrived(y, c)
  {
    hide Filter, NotNamed;
    FilterConcat(NotNamed(c.internalName), x, y);
  }

  // The classes that stay keep their order in front, and the batch follows in its own.
  lemma {:induction false} StayersBeforeBatch(all: seq<ClassMetadata>, cs: seq<ClassMetadata>)
    ensures AllArrived(all, cs) == Filter(NotNamedIn(cs), all) + AllArrived([], cs)
  {
    hide Arrived, Filter;
    if cs == [] {
      FilterAll(NotNamedIn(cs), all);
    } else {
      var front, c := Front(cs), Last(cs);
      StayersBeforeBatch(all, front);
      ArrivesBehind(Filter(NotNamedIn(front), all), AllArrived([], front), c);
      NotNamedNext(front, c);
      assert cs == front + [c];
      FilterTwice(NotNamed(c.internalName), NotNamedIn(front), NotNamedIn(cs), all);
    }
  }

  lemma {:induction false} ResolvedFiltered(slots: Slots, after: Slots, ids: seq<nat>, p: nat -> bool, q: ClassMetadata -> bool)
    requires forall id :: id in ids ==> Live(slots, id) && p(id) == q(slots[id].value.Meta())
    requires forall id :: id in ids && p(id) ==> Live(slots, id) && Live(after, id) && after[id] == slots[id]
    ensures Resolved(after, Filter(p, ids)) == Filter(q, Resolved(slots, ids))
  {
    if ids != [] {
      var front, id := Front(ids), Last(ids);
      assert ids == front + [id] && id in ids;
      ResolvedFiltered(slots, after, front, p, q);
      FilterSnoc(q, Resolved(slots, front), slots[id].value.Meta());
      if p(id) {
        assert Front(Filter(p, front) + [id]) == Filter(p, front);
      } else {
        assert Filter(p, ids) == Filter(p, front);
      }
    }
  }

  lemma {:induction false} ResolvedAlike(slots: Slots, after: Slots, ids: seq<nat>)
    requires forall id :: id in ids ==> Live(slots, id) && Live(after, id) && after[id] == slots[id]
    ensures Resolved(after, ids) == Resolved(slots, ids)
  {
    if ids != [] {
      assert ids == Front(ids) + [Last(ids)];
      ResolvedAlike(slots, after, Front(ids));
    }
  }

  lemma {:induction false} DetachedInOrder(s: BucketState, ids: seq<nat>, id: nat)
    requires NamesExact(s.byInternal, s.classes) && Ordered(s, ids) && Live(s.classes, id)
    ensures Ordered(Detached(s, id), Without(ids, id))
    ensures Arrivals(Detached(s, id), Without(ids, id)) == Filter(NotNamed(s.classes[id].value.InternalName()), Arrivals(s, ids))
  {
    hide ListedInOrder, Trim, Resolved, WithoutDeclared;
    TrimInOrder(s.simpleNameIndex, s.classes, SimpleNameOf, ids, id);
    TrimInOrder(s.packageIndex, s.classes, PackageOf, ids, id);
    TrimInOrder(s.ownerIndex, s.classes, OwnerOf, ids, id);
    WithoutIsFilter(ids, id);
    FilterMembers(OtherThan(id), ids);
    ResolvedFiltered(s.classes, Detached(s, id).classes, ids, OtherThan(id), NotNamed(s.classes[id].value.InternalName()));
  }

  ghost function IdsCleared(s: BucketState, ids: seq<nat>, name: string): seq<nat> {
    if name in s.byInternal then Without(ids, s.byInternal[name]) else ids
  }

  lemma {:induction false} ClearedInOrder(s: BucketState, ids: seq<nat>, name: string)
    requires Linked(s) && Ordered(s, ids)
    ensures Ordered(Cleared(s, name), IdsCleared(s, ids, name))
    ensures Arrivals(Cleared(s, name), IdsCleared(s, ids, name)) == Filter(NotNamed(name), Arrivals(s, ids))
  {
    if name in s.byInternal {
      DetachedInOrder(s, ids, s.byInternal[name]);
    } else {
      forall c | c in Arrivals(s, ids) ensures c.internalName != name {
        ResolvedMembers(s.classes, ids, c);
      }
      FilterAll(NotNamed(name), Arrivals(s, ids));
    }
  }

  lemma {:induction false} ResolvedPut(slots: Slots, ids: seq<nat>, id: nat, c: StoredClass)
    requires id <= |slots| && id !in ids && forall x :: x in ids ==> Live(slots, x)
    ensures Resolved(Put(slots, id, c), ids + [id]) == Resolved(slots, ids) + [c.Meta()]
  {
    ResolvedAlike(slots, Put(slots, id, c), ids);
    assert Front(ids + [id]) == ids;
  }

  lemma {:induction false} IdsAfterPut(slots: Slots, ids: seq<nat>, id: nat, c: StoredClass)
    requires NoDup(ids) && (forall x: nat :: x in ids <==> Live(slots, x)) && id <= |slots| && id !in ids
    ensures NoDup(ids + [id]) && forall x: nat :: x in ids + [id] <==> Live(Put(slots, id, c), x)
  {
  }

  lemma {:induction false} FilledInOrder(s: BucketState, ids: seq<nat>, c: StoredClass)
    requires Linked(s) && Ordered(s, ids)
    ensures Ordered(Filled(s, c), ids + [NextId(s)])
    ensures Arrivals(Filled(s, c), ids + [NextId(s)]) == Arrivals(s, ids) + [c.Meta()]
  {
    var id := NextId(s);
    NextIdFree(s, c);
    assert id !in ids;
    hide ListedInOrder, NamesExact, FreeExact, NamesListed, RangesDeclared, Exact, Push, Put, Live, NextId, Resolved;
    PushInOrder(s.simpleNameIndex, s.classes, SimpleNameOf, ids, id, c);
    PushInOrder(s.packageIndex, s.classes, PackageOf, ids, id, c);
    PushInOrder(s.ownerIndex, s.classes, OwnerOf, ids, id, c);
    IdsAfterPut(s.classes, ids, id, c);
    ResolvedPut(s.classes, ids, id, c);
  }

  ghost function IdsInserted(s: BucketState, ids: seq<nat>, c: StoredClass): seq<nat> {
    IdsCleared(s, ids, c.InternalName()) + [NextId(Cleared(s, c.InternalName()))]
  }

  lemma {:induction false} InsertedInOrder(s: BucketState, ids: seq<nat>, c: StoredClass, d: Declarations)
    requires Linked(s) && Ordered(s, ids)
    ensures Ordered(Inserted(s, c, d), IdsInserted(s, ids, c))
    ensures Arrivals(Inserted(s, c, d), IdsInserted(s, ids, c)) == Arrived(Arrivals(s, ids), c.Meta())
  {
    ClearedLinked(s, c.InternalName());
    ClearedInOrder(s, ids, c.InternalName());
    FilledInOrder(Cleared(s, c.InternalName()), IdsCleared(s, ids, c.InternalName()), c);
  }

  ghost function IdsInsertedAll(s: BucketState, ids: seq<nat>, cs: seq<StoredClass>, d: Declarations): seq<nat> {
    if cs == [] then ids else IdsInserted(InsertedAll(s, Front(cs), d), IdsInsertedAll(s, ids, Front(cs), d), Last(cs))
  }

  lemma {:induction false} InsertedAllInOrder(s: BucketState, ids: seq<nat>, cs: seq<StoredClass>, d: Declarations)
    requires Linked(s) && Ordered(s, ids)
    ensures Ordered(InsertedAll(s, cs, d), IdsInsertedAll(s, ids, cs, d))
    ensures Arrivals(InsertedAll(s, cs, d), IdsInsertedAll(s, ids, cs, d)) == AllArrived(Arrivals(s, ids), Metas(cs))
  {
    if cs != [] {
      InsertedAllLinked(s, Front(cs), d);
      InsertedAllInOrder(s, ids, Front(cs), d);
      InsertedInOrder(InsertedAll(s, Front(cs), d), IdsInsertedAll(s, ids, Front(cs), d), Last(cs), d);
      assert Front(Metas(cs)) == Metas(Front(cs));
    }
  }

  // ---- a whole origin leaves

  function NotAmong(gone: seq<nat>): nat -> bool {
    (id: nat) => id !in gone
  }

  lemma {:induction false} DetachedAllInOrder(s: BucketState, ids: seq<nat>, gone: seq<nat>)
    requires Core(s) && Ordered(s, ids) && NoDup(gone) && forall id :: id in gone ==> Live(s.classes, id)
    ensures Ordered(DetachedAll(s, gone), Filter(NotAmong(gone), ids))
  {
    if gone == [] {
      FilterAll(NotAmong(gone), ids);
    } else {
      var front, id := Front(gone), Last(gone);
      assert gone == front + [id] && id in gone && id !in front;
      DetachedAllInOrder(s, ids, front);
      DetachedAllCore(s, front);
      DetachedAllSlots(s, front);
      DetachedInOrder(DetachedAll(s, front), Filter(NotAmong(front), ids), id);
      WithoutIsFilter(Filter(NotAmong(front), ids), id);
      FilterTwice(OtherThan(id), NotAmong(front), NotAmong(gone), ids);
    }
  }

  lemma {:induction false} OriginRemovedInOrder(s: BucketState, ids: seq<nat>, o: ClassOrigin)
    requires Linked(s) && Ordered(s, ids)
    ensures var left := Filter(NotAmong(Under(s.byOrigin, o)), ids);
      Ordered(OriginRemoved(s, o), left) && Arrivals(OriginRemoved(s, o), left) == Filter(NotFrom(o), Arrivals(s, ids))
  {
    var gone := Under(s.byOrigin, o);
    assert Listed(s.byOrigin, o) == Holders(s.classes, OriginOf, o);
    assert forall id :: id in gone <==> id in Listed(s.byOrigin, o);
    var rest := s.(byOrigin := s.byOrigin - {o});
    if o in s.byOrigin {
      DetachedAllInOrder(rest, ids, gone);
      DetachedAllSlots(rest, gone);
    } else {
      FilterAll(NotAmong(gone), ids);
    }
    ResolvedFiltered(s.classes, OriginRemoved(s, o).classes, ids, NotAmong(gone), NotFrom(o));
  }

  ghost function Updated(a: Abstract, all: seq<ClassMetadata>, o: ClassOrigin, cs: seq<ClassMetadata>): seq<ClassMetadata> {
    if Changes(a, o, cs) then AllArrived(Filter(NotFrom(o), all), Unblocked(a.classes, cs)) else all
  }

  // ---- queries

  function OwnerIs(owner: string): ClassMetadata -> bool {
    (c: ClassMetadata) => c.innerClassOf == Some(owner)
  }

  function PackageIs(pkg: string): ClassMetadata -> bool {
    (c: ClassMetadata) => c.package == Some(pkg)
  }

  // An index answers with the classes of the key in order of arrival.
  lemma {:induction false} AnswersInOrder<K(!new)>(s: BucketState, ids: seq<nat>, index: IdIndex<K>, key: StoredClass -> Option<K>,
      has: ClassMetadata -> bool, k: K)
    requires Ordered(s, ids) && ListedInOrder(index, s.classes, key, ids)
    requires forall c: StoredClass :: has(c.Meta()) <==> key(c) == Some(k)
    ensures Resolved(s.classes, Under(index, k)) == Filter(has, Arrivals(s, ids))
  {
    ResolvedFiltered(s.classes, s.classes, ids, HasKey(s.classes, key, k), has);
  }

  // The classes in order of arrival are those of the class map, each once.
  lemma {:induction false} ArrivalsAreClasses(s: BucketState, ids: seq<nat>)
    requires Linked(s) && Ordered(s, ids)
    ensures NoDup(Arrivals(s, ids))
    ensures forall c :: c in Arrivals(s, ids) <==> c.internalName in View(s).classes && View(s).classes[c.internalName] == c
  {
    ResolvedDistinct(s.byInternal, s.classes, ids);
    forall c ensures c in Arrivals(s, ids) <==> c.internalName in View(s).classes && View(s).classes[c.internalName] == c {
      ResolvedMembers(s.classes, ids, c);
      if c.internalName in View(s).classes && View(s).classes[c.internalName] == c {
        assert s.byInternal[c.internalName] in ids;
      }
    }
  }
}
