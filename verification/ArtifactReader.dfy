// A reader over one stored archive: its class stubs in slot order, the indexes built in one
// pass over them, and classes materialised on first use.
module ArtifactReader {
  import opened Seqs
  import opened ClassModel
  import opened ArchiveStubs

  type Archive = seq<ClassStub>

  datatype ClassHandle = ClassHandle(artifact: nat, slot: nat)
  datatype MethodHandle = MethodHandle(class_: ClassHandle, slot: nat)
  datatype FieldHandle = FieldHandle(class_: ClassHandle, slot: nat)

  // A repeated internal name answers with its last slot.
  function LastNamed(archive: Archive, name: string): (slot: Option<nat>)
    ensures slot.Some? ==> slot.value < |archive| && archive[slot.value].internalName == name
  {
    if archive == [] then None
    else if Last(archive).internalName == name then Some(|archive| - 1)
    else LastNamed(Front(archive), name)
  }

  function SlotsWith<T, K(==)>(key: T -> Option<K>, items: seq<T>, k: K): seq<nat> {
    if items == [] then []
    else SlotsWith(key, Front(items), k) + (if key(Last(items)) == Some(k) then [|items| - 1] else [])
  }

  function FirstWith<T, K(==)>(key: T -> K, items: seq<T>, k: K): (slot: Option<nat>)
    ensures slot.Some? ==> slot.value < |items| && key(items[slot.value]) == k
  {
    if items == [] then None
    else
      var before := FirstWith(key, Front(items), k);
      if before.Some? then before else if key(Last(items)) == k then Some(|items| - 1) else None
  }

  ghost predicate DistinctNames(archive: Archive) {
    forall i, j :: 0 <= i < j < |archive| ==> archive[i].internalName != archive[j].internalName
  }

  lemma {:induction false} LastNamedIsLast(archive: Archive, name: string)
    ensures LastNamed(archive, name).None? <==> forall i :: 0 <= i < |archive| ==> archive[i].internalName != name
    ensures LastNamed(archive, name).Some? ==>
      forall i :: LastNamed(archive, name).value < i < |archive| ==> archive[i].internalName != name
  {
    if archive != [] && Last(archive).internalName != name {
      LastNamedIsLast(Front(archive), name);
      forall i | 0 <= i < |archive| - 1 ensures archive[i] == Front(archive)[i] {
      }
    }
  }

  // Looking up a slot's own name finds that slot in every archive exactly when names are distinct.
  lemma {:induction false} EveryNameFindsItsSlot(archive: Archive)
    ensures DistinctNames(archive) <==>
      forall i :: 0 <= i < |archive| ==> LastNamed(archive, archive[i].internalName) == Some(i)
  {
    forall i | 0 <= i < |archive| ensures LastNamed(archive, archive[i].internalName).Some?
      && i <= LastNamed(archive, archive[i].internalName).value
    {
      LastNamedIsLast(archive, archive[i].internalName);
    }
  }

  lemma {:induction false} SlotsWithExact<T, K>(key: T -> Option<K>, items: seq<T>, k: K)
    ensures forall s :: s in SlotsWith(key, items, k) ==> s < |items|
    ensures forall s :: 0 <= s < |items| ==> (s in SlotsWith(key, items, k) <==> key(items[s]) == Some(k))
    ensures forall i, j :: 0 <= i < j < |SlotsWith(key, items, k)| ==> SlotsWith(key, items, k)[i] < SlotsWith(key, items, k)[j]
  {
    if items != [] {
      SlotsWithExact(key, Front(items), k);
      var before := SlotsWith(key, Front(items), k);
      forall i | 0 <= i < |before| ensures before[i] < |items| - 1 {
        assert before[i] in before;
      }
      forall s | 0 <= s < |items| ensures s in SlotsWith(key, items, k) <==> key(items[s]) == Some(k) {
        if s < |items| - 1 {
          assert items[s] == Front(items)[s];
        }
      }
    }
  }

  lemma {:induction false} FirstWithIsFirst<T, K>(key: T -> K, items: seq<T>, k: K)
    ensures FirstWith(key, items, k).None? <==> forall i :: 0 <= i < |items| ==> key(items[i]) != k
    ensures FirstWith(key, items, k).Some? ==> forall i :: 0 <= i < FirstWith(key, items, k).value ==> key(items[i]) != k
  {
    if items != [] {
      FirstWithIsFirst(key, Front(items), k);
      forall i | 0 <= i < |items| - 1 ensures items[i] == Front(items)[i] {
      }
    }
  }

  lemma {:induction false} FirstWithSameKeys<T, U, K>(key: T -> K, items: seq<T>, key': U -> K, items': seq<U>, k: K)
    requires |items| == |items'| && forall i :: 0 <= i < |items| ==> key(items[i]) == key'(items'[i])
    ensures FirstWith(key, items, k) == FirstWith(key', items', k)
  {
    if items != [] {
      FirstWithSameKeys(key, Front(items), key', Front(items'), k);
    }
  }

  function SimpleName(c: ClassStub): Option<string> { Some(c.name) }
  function Package(c: ClassStub): Option<string> { c.package }
  function Owner(c: ClassStub): Option<string> { c.innerClassOf }
  function StubFieldName(f: FieldStub): string { f.name }

  function Listed(index: map<string, seq<nat>>, key: Option<string>, slot: nat): map<string, seq<nat>> {
    if key.None? then index
    else index[key.value := (if key.value in index then index[key.value] else []) + [slot]]
  }

  // What one pass over the stubs leaves in the indexes.
  ghost function Index(key: ClassStub -> Option<string>, archive: Archive): map<string, seq<nat>> {
    if archive == [] then map[] else Listed(Index(key, Front(archive)), key(Last(archive)), |archive| - 1)
  }

  ghost function NameIndex(archive: Archive): map<string, nat> {
    if archive == [] then map[] else NameIndex(Front(archive))[Last(archive).internalName := |archive| - 1]
  }

  lemma {:induction false} IndexListsSlots(key: ClassStub -> Option<string>, archive: Archive, k: string)
    ensures (if k in Index(key, archive) then Index(key, archive)[k] else []) == SlotsWith(key, archive, k)
    ensures k in Index(key, archive) <==> SlotsWith(key, archive, k) != []
  {
    if archive != [] {
      IndexListsSlots(key, Front(archive), k);
    }
  }

  lemma {:induction false} NameIndexFindsLast(archive: Archive, name: string)
    ensures (if name in NameIndex(archive) then Some(NameIndex(archive)[name]) else None) == LastNamed(archive, name)
  {
    if archive != [] {
      NameIndexFindsLast(Front(archive), name);
    }
  }

  // Whatever has been materialised is what its stub materialises to.
  ghost predicate Memoised(materialized: seq<Option<ClassMetadata>>, archive: Archive) {
    && |materialized| == |archive|
    && (forall i :: 0 <= i < |archive| && materialized[i].Some? ==> materialized[i].value == ClassOf(archive[i]))
  }

  class ArtifactScopeReader {
    const id: nat
    var classes: Archive
    var materialized: seq<Option<ClassMetadata>>
    var byInternal: map<string, nat>
    var simpleNameIndex: map<string, seq<nat>>
    var packageIndex: map<string, seq<nat>>
    var ownerIndex: map<string, seq<nat>>

    ghost predicate Valid()
      reads this
    {
      && byInternal == NameIndex(classes)
      && simpleNameIndex == Index(SimpleName, classes)
      && packageIndex == Index(Package, classes)
      && ownerIndex == Index(Owner, classes)
      && Memoised(materialized, classes)
    }

    constructor FromArchive(id: nat, archive: Archive)
      ensures Valid() && this.id == id && classes == archive
    {
      this.id := id;
      classes, materialized, byInternal := [], [], map[];
      simpleNameIndex, packageIndex, ownerIndex := map[], map[], map[];
      new;
      for slot := 0 to |archive|
        invariant Valid() && this.id == id && classes == archive[..slot]
      {
        Add(archive[slot]);
      }
    }

    method Add(stub: ClassStub)
      requires Valid()
      modifies this
      ensures Valid() && classes == old(classes) + [stub]
    {
      assert Front(classes + [stub]) == classes;
      var slot := |classes|;
      byInternal := byInternal[stub.internalName := slot];
      simpleNameIndex := Listed(simpleNameIndex, SimpleName(stub), slot);
      packageIndex := Listed(packageIndex, Package(stub), slot);
      ownerIndex := Listed(ownerIndex, Owner(stub), slot);
      classes, materialized := classes + [stub], materialized + [None];
    }

    method GetClassHandle(name: string) returns (handle: Option<ClassHandle>)
      requires Valid()
      ensures handle == HandleNamed(id, classes, name)
    {
      NameIndexFindsLast(classes, name);
      handle := if name in byInternal then Some(ClassHandle(id, byInternal[name])) else None;
    }

    // The first use fills the slot; every use answers with the materialised stub.
    method GetClass(handle: ClassHandle) returns (c: Option<ClassMetadata>)
      requires Valid()
      modifies this`materialized
      ensures Valid()
      ensures c == if StubAt(id, classes, handle).Some? then Some(ClassOf(StubAt(id, classes, handle).value)) else None
    {
      if handle.artifact != id || handle.slot >= |classes| {
        return None;
      }
      if materialized[handle.slot].None? {
        materialized := materialized[handle.slot := Some(ClassOf(classes[handle.slot]))];
      }
      c := materialized[handle.slot];
    }

    method HandlesOf(slots: seq<nat>) returns (handles: seq<ClassHandle>)
      ensures |handles| == |slots| && forall i :: 0 <= i < |slots| ==> handles[i] == ClassHandle(id, slots[i])
    {
      handles := seq(|slots|, i requires 0 <= i < |slots| => ClassHandle(id, slots[i]));
    }

    // Exactly the handles of the classes with the simple name, in slot order.
    method ClassHandlesBySimpleName(simpleName: string) returns (handles: seq<ClassHandle>)
      requires Valid()
      ensures forall h :: h in handles <==> StubAt(id, classes, h).Some? && StubAt(id, classes, h).value.name == simpleName
      ensures forall i, j :: 0 <= i < j < |handles| ==> handles[i].slot < handles[j].slot
    {
      IndexListsSlots(SimpleName, classes, simpleName);
      SlotsWithExact(SimpleName, classes, simpleName);
      handles := HandlesOf(if simpleName in simpleNameIndex then simpleNameIndex[simpleName] else []);
      HandlesExact(id, classes, SimpleName, simpleName, handles);
    }

    method DirectInnerClassHandles(owner: string) returns (handles: seq<ClassHandle>)
      requires Valid()
      ensures forall h :: h in handles <==> StubAt(id, classes, h).Some? && StubAt(id, classes, h).value.innerClassOf == Some(owner)
      ensures forall i, j :: 0 <= i < j < |handles| ==> handles[i].slot < handles[j].slot
    {
      IndexListsSlots(Owner, classes, owner);
      SlotsWithExact(Owner, classes, owner);
      handles := HandlesOf(if owner in ownerIndex then ownerIndex[owner] else []);
      HandlesExact(id, classes, Owner, owner, handles);
    }
  }

  function HandleNamed(id: nat, archive: Archive, name: string): Option<ClassHandle> {
    var slot := LastNamed(archive, name);
    if slot.Some? then Some(ClassHandle(id, slot.value)) else None
  }

  function StubAt(id: nat, archive: Archive, handle: ClassHandle): Option<ClassStub> {
    if handle.artifact == id && handle.slot < |archive| then Some(archive[handle.slot]) else None
  }

  lemma {:induction false} HandlesExact(id: nat, archive: Archive, key: ClassStub -> Option<string>, k: string, handles: seq<ClassHandle>)
    requires var slots := SlotsWith(key, archive, k);
      |handles| == |slots| && forall i :: 0 <= i < |slots| ==> handles[i] == ClassHandle(id, slots[i])
    ensures forall h :: h in handles <==> StubAt(id, archive, h).Some? && key(StubAt(id, archive, h).value) == Some(k)
  {
    var slots := SlotsWith(key, archive, k);
    SlotsWithExact(key, archive, k);
    forall h | h in handles ensures StubAt(id, archive, h).Some? && key(StubAt(id, archive, h).value) == Some(k) {
      var i :| 0 <= i < |handles| && handles[i] == h;
      assert slots[i] in slots;
    }
    forall h | StubAt(id, archive, h).Some? && key(StubAt(id, archive, h).value) == Some(k) ensures h in handles {
      assert h.slot in slots;
      var i :| 0 <= i < |slots| && slots[i] == h.slot;
      assert handles[i] == h;
    }
  }
}
