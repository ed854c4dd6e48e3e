// The slot array of a bucket, its free list and its inverted indexes, as values, with the
// bookkeeping facts that each in-place edit relies on.
module BucketSlots {
  import opened Seqs
  import opened ClassModel
  import opened ArchiveStubs

  datatype StoredClass = Rich(meta: ClassMetadata) | Archived(stub: ClassStub) {
    function Meta(): (m: ClassMetadata)
      ensures m.internalName == InternalName() && OriginOf(this) == Some(m.origin)
      ensures SimpleNameOf(this) == Some(m.name) && PackageOf(this) == m.package && OwnerOf(this) == m.innerClassOf
    {
      match this
      case Rich(meta) => meta
      case Archived(stub) => ClassOf(stub)
    }

    function InternalName(): string {
      match this
      case Rich(meta) => meta.internalName
      case Archived(stub) => stub.internalName
    }
  }

  // The keys under which a class is listed, if any.
  function SimpleNameOf(c: StoredClass): Option<string> {
    Some(match c case Rich(meta) => meta.name case Archived(stub) => stub.name)
  }

  function PackageOf(c: StoredClass): Option<string> {
    match c case Rich(meta) => meta.package case Archived(stub) => stub.package
  }

  function OwnerOf(c: StoredClass): Option<string> {
    match c case Rich(meta) => meta.innerClassOf case Archived(stub) => stub.innerClassOf
  }

  function OriginOf(c: StoredClass): Option<ClassOrigin> {
    Some(match c case Rich(meta) => meta.origin case Archived(stub) => stub.origin)
  }

  type Slots = seq<Option<StoredClass>>
  type IdIndex<!K> = map<K, seq<nat>>

  predicate Live(slots: Slots, id: nat) {
    id < |slots| && slots[id].Some?
  }

  function Push<K>(index: IdIndex<K>, key: Option<K>, id: nat): IdIndex<K> {
    if key.None? then index
    else index[key.value := (if key.value in index then index[key.value] else []) + [id]]
  }

  function Without(ids: seq<nat>, id: nat): seq<nat> {
    if ids == [] then []
    else Without(Front(ids), id) + (if Last(ids) == id then [] else [Last(ids)])
  }

  function Trim<K>(index: IdIndex<K>, key: Option<K>, id: nat): IdIndex<K> {
    if key.None? || key.value !in index then index
    else
      var left := Without(index[key.value], id);
      if left == [] then index - {key.value} else index[key.value := left]
  }

  ghost function Listed<K>(index: IdIndex<K>, k: K): set<nat> {
    if k in index then set id | id in index[k] else {}
  }

  ghost function Holders<K>(slots: Slots, key: StoredClass -> Option<K>, k: K): set<nat> {
    set id | 0 <= id < |slots| && slots[id].Some? && key(slots[id].value) == Some(k)
  }

  // The index lists, under each key, exactly the live classes with that key, once each, and
  // keeps no empty entries.
  ghost predicate Exact<K(!new)>(index: IdIndex<K>, slots: Slots, key: StoredClass -> Option<K>) {
    && (forall k :: Listed(index, k) == Holders(slots, key, k))
    && (forall k :: k in index ==> index[k] != [] && NoDup(index[k]))
  }

  ghost predicate FreeExact(free: seq<nat>, slots: Slots) {
    NoDup(free) && forall id :: id in free <==> 0 <= id < |slots| && slots[id].None?
  }

  ghost predicate NamesExact(byInternal: map<string, nat>, slots: Slots) {
    && (forall n :: n in byInternal ==> Live(slots, byInternal[n]) && slots[byInternal[n]].value.InternalName() == n)
    && (forall id :: 0 <= id < |slots| && slots[id].Some? ==>
         slots[id].value.InternalName() in byInternal && byInternal[slots[id].value.InternalName()] == id)
  }

  ghost function ClassMap(byInternal: map<string, nat>, slots: Slots): map<string, ClassMetadata>
    requires NamesExact(byInternal, slots)
  {
    map n | n in byInternal :: slots[byInternal[n]].value.Meta()
  }

  function Put(slots: Slots, id: nat, class_: StoredClass): Slots {
    if id < |slots| then slots[id := Some(class_)] else slots + [Some(class_)]
  }

  // ---- one slot filled, one slot emptied

  lemma {:induction false} WithoutMembers(ids: seq<nat>, id: nat)
    requires NoDup(ids)
    ensures forall x :: x in Without(ids, id) <==> x in ids && x != id
    ensures NoDup(Without(ids, id))
  {
    if ids != [] {
      WithoutMembers(Front(ids), id);
      assert ids == Front(ids) + [Last(ids)];
      assert Last(ids) !in Front(ids);
    }
  }

  lemma {:induction false} PushExact<K(!new)>(index: IdIndex<K>, slots: Slots, key: StoredClass -> Option<K>, id: nat, c: StoredClass)
    requires Exact(index, slots, key) && id <= |slots| && !Live(slots, id)
    ensures Exact(Push(index, key(c), id), Put(slots, id, c), key)
  {
    var index', slots' := Push(index, key(c), id), Put(slots, id, c);
    forall k ensures Listed(index', k) == Holders(slots', key, k) {
      assert Listed(index, k) == Holders(slots, key, k);
      assert Holders(slots', key, k) == Holders(slots, key, k) + (if key(c) == Some(k) then {id} else {});
      if key(c) == Some(k) {
        assert Listed(index', k) == Listed(index, k) + {id};
      }
    }
    if key(c).Some? && key(c).value in index {
      assert Listed(index, key(c).value) == Holders(slots, key, key(c).value);
      assert id !in Listed(index, key(c).value);
      assert id !in index[key(c).value];
    }
  }

  lemma {:induction false} TrimExact<K(!new)>(index: IdIndex<K>, slots: Slots, key: StoredClass -> Option<K>, id: nat)
    requires Exact(index, slots, key) && Live(slots, id)
    ensures Exact(Trim(index, key(slots[id].value), id), slots[id := None], key)
  {
    var index', slots', own := Trim(index, key(slots[id].value), id), slots[id := None], key(slots[id].value);
    if own.Some? && own.value in index {
      WithoutMembers(index[own.value], id);
    }
    forall k ensures Listed(index', k) == Holders(slots', key, k) {
      assert Listed(index, k) == Holders(slots, key, k);
      assert Holders(slots', key, k) == Holders(slots, key, k) - {id};
      if own == Some(k) {
        assert id in Listed(index, k);
        assert Listed(index', k) == Listed(index, k) - {id};
      } else {
        assert id !in Holders(slots, key, k);
      }
    }
  }

  lemma {:induction false} PopFree(free: seq<nat>, slots: Slots, c: StoredClass)
    requires FreeExact(free, slots) && free != []
    ensures Last(free) < |slots| && slots[Last(free)].None?
    ensures FreeExact(Front(free), slots[Last(free) := Some(c)])
  {
    var id := Last(free);
    assert id in free;
    assert free == Front(free) + [id];
    assert id !in Front(free);
    forall x ensures x in Front(free) <==> x in free && x != id {
    }
  }

  lemma {:induction false} FilledNames(byInternal: map<string, nat>, slots: Slots, id: nat, c: StoredClass)
    requires NamesExact(byInternal, slots) && id <= |slots| && !Live(slots, id)
    requires c.InternalName() !in byInternal
    ensures NamesExact(byInternal[c.InternalName() := id], Put(slots, id, c))
    ensures ClassMap(byInternal[c.InternalName() := id], Put(slots, id, c))
      == ClassMap(byInternal, slots)[c.InternalName() := c.Meta()]
  {
    var after := Put(slots, id, c);
    forall n | n in byInternal ensures after[byInternal[n]] == slots[byInternal[n]] {
    }
  }

  lemma {:induction false} EmptiedNames(byInternal: map<string, nat>, slots: Slots, id: nat)
    requires NamesExact(byInternal, slots) && Live(slots, id)
    ensures slots[id].value.InternalName() in byInternal && byInternal[slots[id].value.InternalName()] == id
    ensures NamesExact(byInternal - {slots[id].value.InternalName()}, slots[id := None])
    ensures ClassMap(byInternal - {slots[id].value.InternalName()}, slots[id := None])
      == ClassMap(byInternal, slots) - {slots[id].value.InternalName()}
  {
    var name := slots[id].value.InternalName();
    forall n | n in byInternal && n != name ensures byInternal[n] != id {
    }
  }
}
