// The class bucket: slots, free list, inverted indexes, declaration ranges and hierarchy
// cache, edited in place. Its meaning is `View()`, one map from internal name to class.
module Bucket {
  import opened Seqs
  import opened ClassModel
  import opened BreadthFirst
  import opened TextOrder
  import opened BucketSpec
  import opened BucketSlots
  import opened BucketStates
  import opened BucketOrder

  const MRO_CACHE_LIMIT: nat := 1024

  // The loop state of the member walk once the classes in `order` have been visited.
  ghost predicate MembersSoFar(cs: map<string, ClassMetadata>, order: seq<string>, methods: seq<MethodSummary>,
      fields: seq<FieldSummary>, seenMethods: set<(string, string)>, seenFields: set<string>) {
    && methods == KeepFirst(OverrideKey, MethodsAlong(cs, order)) && seenMethods == Keys(OverrideKey, MethodsAlong(cs, order))
    && fields == KeepFirst(FieldName, FieldsAlong(cs, order)) && seenFields == Keys(FieldName, FieldsAlong(cs, order))
  }

  method VisitMembers(meta: ClassMetadata, methods: seq<MethodSummary>, fields: seq<FieldSummary>,
      seenMethods: set<(string, string)>, seenFields: set<string>,
      ghost cs: map<string, ClassMetadata>, ghost order: seq<string>, ghost internal: string)
    returns (methods': seq<MethodSummary>, fields': seq<FieldSummary>, seenMethods': set<(string, string)>, seenFields': set<string>)
    requires MembersSoFar(cs, order, methods, fields, seenMethods, seenFields)
    requires internal in cs && cs[internal] == meta
    ensures MembersSoFar(cs, order + [internal], methods', fields', seenMethods', seenFields')
  {
    assert Front(order + [internal]) == order;
    methods', seenMethods' := AppendUnseen(OverrideKey, meta.methods, methods, seenMethods, MethodsAlong(cs, order));
    fields', seenFields' := AppendUnseen(FieldName, meta.fields, fields, seenFields, FieldsAlong(cs, order));
  }

  class BucketIndex {
    var classes: Slots
    var freeClassIds: seq<nat>
    var byInternal: map<string, nat>
    var byOrigin: IdIndex<ClassOrigin>
    var typeRanges: map<string, SourceRange>
    var methodRanges: map<MethodKey, SourceRange>
    var fieldRanges: map<FieldKey, SourceRange>
    var simpleNameIndex: IdIndex<string>
    var packageIndex: IdIndex<string>
    var ownerIndex: IdIndex<string>
    var mroCache: map<string, (seq<MethodSummary>, seq<FieldSummary>)>
    ghost var arrivals: seq<nat>

    ghost function State(): BucketState
      reads this
    {
      BucketState(classes, freeClassIds, byInternal, byOrigin, Declarations(typeRanges, methodRanges, fieldRanges),
        simpleNameIndex, packageIndex, ownerIndex)
    }

    ghost predicate Valid()
      reads this
    {
      && Linked(State()) && Ordered(State(), arrivals) && |mroCache| <= 1024
      && forall n :: n in mroCache ==> mroCache[n] == Inherited(View(State()).classes, n)
    }

    ghost function Contents(): Abstract
      reads this
      requires Valid()
    {
      View(State())
    }

    // The classes in the order in which they arrived.
    ghost function All(): seq<ClassMetadata>
      reads this
    {
      Arrivals(State(), arrivals)
    }

    constructor ()
      ensures Valid() && Contents() == EMPTY && All() == []
    {
      classes, freeClassIds, byInternal, byOrigin := [], [], map[], map[];
      typeRanges, methodRanges, fieldRanges := map[], map[], map[];
      simpleNameIndex, packageIndex, ownerIndex := map[], map[], map[];
      mroCache := map[];
      arrivals := [];
    }

    method RemoveMethodRanges(c: ClassMetadata)
      modifies this`methodRanges
      ensures methodRanges == map k | k in old(methodRanges) && !DeclaresMethod(c, k) :: old(methodRanges)[k]
    {
      for i := 0 to |c.methods|
        invariant methodRanges == map k | k in old(methodRanges) && !NamesMethod(c.internalName, c.methods[..i], k) :: old(methodRanges)[k]
      {
        assert c.methods[..i + 1] == c.methods[..i] + [c.methods[i]];
        methodRanges := methodRanges - {(c.internalName, c.methods[i].name, Desc(c.methods[i]))};
      }
      assert c.methods[..|c.methods|] == c.methods;
    }

    method RemoveFieldRanges(c: ClassMetadata)
      modifies this`fieldRanges
      ensures fieldRanges == map k | k in old(fieldRanges) && !DeclaresField(c, k) :: old(fieldRanges)[k]
    {
      for i := 0 to |c.fields|
        invariant fieldRanges == map k | k in old(fieldRanges) && !NamesField(c.internalName, c.fields[..i], k) :: old(fieldRanges)[k]
      {
        assert c.fields[..i + 1] == c.fields[..i] + [c.fields[i]];
        fieldRanges := fieldRanges - {(c.internalName, c.fields[i].name)};
      }
      assert c.fields[..|c.fields|] == c.fields;
    }

    method RemoveDeclarations(c: ClassMetadata)
      modifies this`typeRanges, this`methodRanges, this`fieldRanges
      ensures State().ranges == WithoutDeclared(old(State()).ranges, c)
    {
      typeRanges := typeRanges - {c.internalName};
      RemoveMethodRanges(c);
      RemoveFieldRanges(c);
    }

    method InsertMethodRanges(c: ClassMetadata, d: Declarations)
      modifies this`methodRanges
      ensures methodRanges == old(methodRanges) + About(c, d).methods
    {
      for i := 0 to |c.methods|
        invariant methodRanges == old(methodRanges) + MethodsAbout(c.internalName, c.methods[..i], d.methods)
      {
        assert c.methods[..i + 1] == c.methods[..i] + [c.methods[i]];
        MethodsAboutSnoc(c.internalName, c.methods[..i], c.methods[i], d.methods);
        var k := (c.internalName, c.methods[i].name, Desc(c.methods[i]));
        if k in d.methods {
          PutLast(old(methodRanges), MethodsAbout(c.internalName, c.methods[..i], d.methods), k, d.methods[k]);
          methodRanges := methodRanges[k := d.methods[k]];
        }
      }
      assert c.methods[..|c.methods|] == c.methods;
    }

    method InsertFieldRanges(c: ClassMetadata, d: Declarations)
      modifies this`fieldRanges
      ensures fieldRanges == old(fieldRanges) + About(c, d).fields
    {
      for i := 0 to |c.fields|
        invariant fieldRanges == old(fieldRanges) + FieldsAbout(c.internalName, c.fields[..i], d.fields)
      {
        assert c.fields[..i + 1] == c.fields[..i] + [c.fields[i]];
        FieldsAboutSnoc(c.internalName, c.fields[..i], c.fields[i], d.fields);
        var k := (c.internalName, c.fields[i].name);
        if k in d.fields {
          PutLast(old(fieldRanges), FieldsAbout(c.internalName, c.fields[..i], d.fields), k, d.fields[k]);
          fieldRanges := fieldRanges[k := d.fields[k]];
        }
      }
      assert c.fields[..|c.fields|] == c.fields;
    }

    method InsertDeclarations(c: ClassMetadata, d: Declarations)
      modifies this`typeRanges, this`methodRanges, this`fieldRanges
      ensures Declarations(typeRanges, methodRanges, fieldRanges)
        == Overlay(old(Declarations(typeRanges, methodRanges, fieldRanges)), About(c, d))
    {
      if c.internalName in d.types {
        typeRanges := typeRanges[c.internalName := d.types[c.internalName]];
      }
      assert typeRanges == old(typeRanges) + About(c, d).types;
      InsertMethodRanges(c, d);
      InsertFieldRanges(c, d);
    }

    // The three name indexes lose an id.
    method Unlist(c: StoredClass, id: nat)
      modifies this`simpleNameIndex, this`packageIndex, this`ownerIndex
      ensures State() == old(State()).(simpleNameIndex := Trim(old(simpleNameIndex), SimpleNameOf(c), id),
        packageIndex := Trim(old(packageIndex), PackageOf(c), id),
        ownerIndex := Trim(old(ownerIndex), OwnerOf(c), id))
    {
      hide Trim, SimpleNameOf, PackageOf, OwnerOf;
      simpleNameIndex := Trim(simpleNameIndex, SimpleNameOf(c), id);
      packageIndex := Trim(packageIndex, PackageOf(c), id);
      ownerIndex := Trim(ownerIndex, OwnerOf(c), id);
    }

    method Detach(id: nat) returns (detached: Option<StoredClass>)
      modifies this`classes, this`freeClassIds, this`byInternal, this`typeRanges, this`methodRanges, this`fieldRanges,
        this`simpleNameIndex, this`packageIndex, this`ownerIndex
      ensures State() == Detached(old(State()), id)
      ensures detached == if Live(old(classes), id) then old(classes)[id] else None
    {
      hide Trim, SimpleNameOf, PackageOf, OwnerOf, WithoutDeclared;
      if id >= |classes| || classes[id].None? {
        return None;
      }
      var c := classes[id].value;
      classes := classes[id := None];
      if c.InternalName() in byInternal && byInternal[c.InternalName()] == id {
        byInternal := byInternal - {c.InternalName()};
      }
      RemoveDeclarations(c.Meta());
      Unlist(c, id);
      freeClassIds := freeClassIds + [id];
      detached := Some(c);
    }

    method RemoveById(id: nat) returns (removed: bool)
      modifies this`classes, this`freeClassIds, this`byInternal, this`typeRanges, this`methodRanges, this`fieldRanges,
        this`simpleNameIndex, this`packageIndex, this`ownerIndex, this`byOrigin
      ensures State() == Removed(old(State()), id)
      ensures removed == Live(old(classes), id)
    {
      var c := Detach(id);
      if c.None? {
        return false;
      }
      byOrigin := Trim(byOrigin, OriginOf(c.value), id);
      removed := true;
    }

    // Reuses the most recently freed slot, or grows the array.
    method TakeSlot(c: StoredClass) returns (id: nat)
      requires FreeExact(freeClassIds, classes)
      modifies this`classes, this`freeClassIds
      ensures id == NextId(old(State())) && classes == Put(old(classes), id, c)
      ensures freeClassIds == if old(freeClassIds) != [] then Front(old(freeClassIds)) else []
    {
      if freeClassIds != [] {
        PopFree(freeClassIds, classes, c);
        id := Last(freeClassIds);
        freeClassIds := Front(freeClassIds);
        classes := classes[id := Some(c)];
      } else {
        id := |classes|;
        classes := classes + [Some(c)];
      }
    }

    method Fill(c: StoredClass)
      requires FreeExact(freeClassIds, classes)
      modifies this`classes, this`freeClassIds, this`byInternal, this`simpleNameIndex, this`packageIndex, this`ownerIndex,
        this`byOrigin
      ensures State() == Filled(old(State()), c)
    {
      hide Push, SimpleNameOf, PackageOf, OwnerOf, OriginOf, FreeExact;
      var id := TakeSlot(c);
      byInternal := byInternal[c.InternalName() := id];
      simpleNameIndex := Push(simpleNameIndex, SimpleNameOf(c), id);
      packageIndex := Push(packageIndex, PackageOf(c), id);
      ownerIndex := Push(ownerIndex, OwnerOf(c), id);
      byOrigin := Push(byOrigin, OriginOf(c), id);
    }

    method InsertRecord(c: StoredClass, d: Declarations)
      requires Linked(State())
      modifies this`classes, this`freeClassIds, this`byInternal, this`typeRanges, this`methodRanges, this`fieldRanges,
        this`simpleNameIndex, this`packageIndex, this`ownerIndex, this`byOrigin
      ensures State() == Inserted(old(State()), c, d)
    {
      ClearedLinked(State(), c.InternalName());
      if c.InternalName() in byInternal {
        var _ := RemoveById(byInternal[c.InternalName()]);
      }
      Fill(c);
      InsertDeclarations(c.Meta(), d);
    }

    method DetachIds(ids: seq<nat>)
      modifies this`classes, this`freeClassIds, this`byInternal, this`typeRanges, this`methodRanges, this`fieldRanges,
        this`simpleNameIndex, this`packageIndex, this`ownerIndex
      ensures State() == DetachedAll(old(State()), ids)
    {
      for i := 0 to |ids|
        invariant State() == DetachedAll(old(State()), ids[..i])
      {
        assert Front(ids[..i + 1]) == ids[..i];
        var _ := Detach(ids[i]);
      }
      assert ids[..|ids|] == ids;
    }

    method DropOrigin(o: ClassOrigin) returns (removed: bool)
      modifies this`classes, this`freeClassIds, this`byInternal, this`typeRanges, this`methodRanges, this`fieldRanges,
        this`simpleNameIndex, this`packageIndex, this`ownerIndex, this`byOrigin
      ensures State() == OriginRemoved(old(State()), o)
      ensures removed <==> o in old(byOrigin)
    {
      if o !in byOrigin {
        return false;
      }
      var ids := byOrigin[o];
      byOrigin := byOrigin - {o};
      DetachIds(ids);
      removed := true;
    }

    // ---- the public operations, each ending with the hierarchy cache cleared

    method RemoveByOrigin(o: ClassOrigin) returns (removed: bool)
      requires Valid()
      modifies this
      ensures Valid()
      ensures Contents() == RemoveOrigin(old(Contents()), o)
      ensures All() == Filter(NotFrom(o), old(All()))
      ensures removed <==> OriginNames(old(Contents()), o) != {}
    {
      hide Linked, View, Ordered, Arrivals, OriginRemoved, RemoveOrigin, OriginNames, Filter, Inherited;
      OriginRemovedLinked(State(), o);
      OriginRemovedInOrder(State(), arrivals, o);
      OriginNamesListed(State(), o);
      ghost var left := Filter(NotAmong(Under(byOrigin, o)), arrivals);
      removed := DropOrigin(o);
      arrivals := left;
      if removed {
        mroCache := map[];
      } else {
        NothingRemoved(old(State()), o);
      }
    }

    method InsertRecords(cs: seq<StoredClass>, d: Declarations)
      requires Linked(State())
      modifies this
      ensures State() == InsertedAll(old(State()), cs, d) && arrivals == old(arrivals)
    {
      hide Linked, Inserted;
      ghost var before := State();
      for i := 0 to |cs|
        invariant State() == InsertedAll(before, cs[..i], d) && arrivals == old(arrivals)
      {
        InsertedAllLinked(before, cs[..i], d);
        assert Front(cs[..i + 1]) == cs[..i];
        InsertRecord(cs[i], d);
      }
      assert cs[..|cs|] == cs;
    }

    method AddStored(cs: seq<StoredClass>, d: Declarations)
      requires Linked(State()) && Ordered(State(), arrivals)
      modifies this
      ensures Valid()
      ensures Contents() == InsertAll(old(View(State())), Metas(cs), d)
      ensures All() == AllArrived(old(All()), Metas(cs))
    {
      hide Ordered, Arrivals, Linked, View, Inherited, AllArrived, InsertAll, InsertedAll;
      InsertedAllLinked(State(), cs, d);
      InsertedAllInOrder(State(), arrivals, cs, d);
      ghost var after := IdsInsertedAll(State(), arrivals, cs, d);
      InsertRecords(cs, d);
      arrivals := after;
      mroCache := map[];
    }

    method AddClasses(cs: seq<ClassMetadata>, d: Declarations)
      requires Valid()
      modifies this
      ensures Valid()
      ensures Contents() == InsertAll(old(Contents()), cs, d)
      ensures All() == AllArrived(old(All()), cs)
    {
      hide Ordered, Arrivals;
      RichMetas(cs);
      AddStored(Richs(cs), d);
    }

    method AddArchiveClasses(cs: seq<ClassMetadata>)
      requires Valid()
      modifies this
      ensures Valid()
      ensures Contents() == InsertAll(old(Contents()), Restubbed(cs), NO_DECLARATIONS)
      ensures All() == AllArrived(old(All()), Restubbed(cs))
    {
      hide Ordered, Arrivals;
      ArchivedMetas(cs);
      AddStored(Archiveds(cs), NO_DECLARATIONS);
    }

    method GetClass(name: string) returns (c: Option<ClassMetadata>)
      requires Valid()
      ensures c == if name in Contents().classes then Some(Contents().classes[name]) else None
    {
      if name !in byInternal {
        return None;
      }
      var id := byInternal[name];
      c := if id < |classes| && classes[id].Some? then Some(classes[id].value.Meta()) else None;
    }

    method ResolveIds(ids: seq<nat>) returns (cs: seq<ClassMetadata>)
      ensures cs == Resolved(classes, ids)
    {
      cs := [];
      for i := 0 to |ids|
        invariant cs == Resolved(classes, ids[..i])
      {
        assert Front(ids[..i + 1]) == ids[..i];
        if Live(classes, ids[i]) {
          cs := cs + [classes[ids[i]].value.Meta()];
        }
      }
      assert ids[..|ids|] == ids;
    }

    // A query through any inverted index lists exactly the classes with that key, oldest first.
    method Query<K(!new)>(index: IdIndex<K>, ghost key: StoredClass -> Option<K>, ghost has: ClassMetadata -> bool, k: K)
      returns (cs: seq<ClassMetadata>)
      requires Valid() && ListedInOrder(index, classes, key, arrivals)
      requires forall c: StoredClass :: has(c.Meta()) <==> key(c) == Some(k)
      ensures NoDup(cs) && cs == Filter(has, All())
      ensures forall c :: c in cs <==> c.internalName in Contents().classes && Contents().classes[c.internalName] == c && has(c)
    {
      AnswersInOrder(State(), arrivals, index, key, has, k);
      ArrivalsAreClasses(State(), arrivals);
      FilterMembers(has, All());
      if k !in index {
        return [];
      }
      cs := ResolveIds(index[k]);
    }

    method GetClassesBySimpleName(simpleName: string) returns (cs: seq<ClassMetadata>)
      requires Valid()
      ensures NoDup(cs) && cs == Filter(SimpleNameIs(simpleName), All())
      ensures forall c :: c in cs <==> c.internalName in Contents().classes && Contents().classes[c.internalName] == c && c.name == simpleName
    {
      cs := Query(simpleNameIndex, SimpleNameOf, SimpleNameIs(simpleName), simpleName);
    }

    method DirectInnerClasses(owner: string) returns (cs: seq<ClassMetadata>)
      requires Valid()
      ensures NoDup(cs) && cs == Filter(OwnerIs(owner), All())
      ensures forall c :: c in cs <==>
        c.internalName in Contents().classes && Contents().classes[c.internalName] == c && c.innerClassOf == Some(owner)
    {
      cs := Query(ownerIndex, OwnerOf, OwnerIs(owner), owner);
    }

    method ClassesInPackage(pkg: string) returns (cs: seq<ClassMetadata>)
      requires Valid()
      ensures NoDup(cs) && cs == Filter(PackageIs(Slashed(pkg)), All())
      ensures forall c :: c in cs <==>
        c.internalName in Contents().classes && Contents().classes[c.internalName] == c && c.package == Some(Slashed(pkg))
    {
      cs := Query(packageIndex, PackageOf, PackageIs(Slashed(pkg)), Slashed(pkg));
    }

    method SameClassesForOrigin(o: ClassOrigin, cs: seq<ClassMetadata>) returns (same: bool)
      requires Valid()
      ensures same <==> SameClasses(Contents().classes, o, cs)
    {
      OriginListing(State(), o, if o in byOrigin then byOrigin[o] else []);
      assert |multiset(cs)| == |cs|;
      if o !in byOrigin {
        return false;
      }
      OriginNamesListed(State(), o);
      if |byOrigin[o]| != |cs| {
        return false;
      }
      var existing := ResolveIds(byOrigin[o]);
      SortedComparison(existing, cs);
      same := SortBy(NameOf, existing) == SortBy(NameOf, cs);
    }

    method UpdateSource(o: ClassOrigin, cs: seq<ClassMetadata>, d: Declarations) returns (changed: bool)
      requires Valid()
      modifies this
      ensures Valid()
      ensures Contents() == Update(old(Contents()), o, cs, d)
      ensures All() == Updated(old(Contents()), old(All()), o, cs)
      ensures changed <==> Changes(old(Contents()), o, cs)
    {
      hide Ordered, Arrivals, Linked, View;
      var filtered: seq<ClassMetadata> := [];
      for i := 0 to |cs|
        invariant Valid() && Contents() == old(Contents()) && All() == old(All())
        invariant filtered == Unblocked(Contents().classes, cs[..i])
      {
        assert Front(cs[..i + 1]) == cs[..i];
        var existing := GetClass(cs[i].internalName);
        if existing.Some? && existing.value.origin.Jar? {
          continue;
        }
        filtered := filtered + [cs[i]];
      }
      assert cs[..|cs|] == cs;
      if filtered == [] {
        return false;
      }
      var same := SameClassesForOrigin(o, filtered);
      if same {
        return false;
      }
      var _ := RemoveByOrigin(o);
      AddClasses(filtered, d);
      changed := true;
    }

    method WalkMembers(name: string) returns (methods: seq<MethodSummary>, fields: seq<FieldSummary>)
      requires Valid()
      ensures (methods, fields) == Inherited(Contents().classes, name)
    {
      hide Linked, View, Ordered;
      ghost var cs := Contents().classes;
      ghost var g := ParentGraph(cs);
      ghost var order: seq<string> := [];
      methods, fields := [], [];
      var seenMethods: set<(string, string)>, seenFields: set<string> := {}, {};
      var seenClasses: set<string>, queue: seq<string> := {}, [name];
      while queue != []
        invariant order + Walk(g, queue, seenClasses) == Hierarchy(cs, name)
        invariant MembersSoFar(cs, order, methods, fields, seenMethods, seenFields)
        decreases |g.Keys - seenClasses|, |queue|
      {
        LoopTurn(g, Hierarchy(cs, name), order, queue, seenClasses);
        var internal := queue[0];
        queue := queue[1..];
        if internal in seenClasses {
          continue;
        }
        seenClasses := seenClasses + {internal};
        var meta := GetClass(internal);
        if meta.None? {
          continue;
        }
        methods, fields, seenMethods, seenFields := VisitMembers(meta.value, methods, fields, seenMethods, seenFields, cs, order, internal);
        queue := queue + Parents(meta.value);
        order := order + [internal];
      }
      assert order == Hierarchy(cs, name);
    }

    method CollectInheritedMembers(name: string) returns (methods: seq<MethodSummary>, fields: seq<FieldSummary>)
      requires Valid()
      modifies this`mroCache
      ensures Valid() && Contents() == old(Contents()) && All() == old(All())
      ensures name in mroCache && (|old(mroCache)| < 1024 ==> old(mroCache).Keys <= mroCache.Keys)
      ensures (methods, fields) == Inherited(Contents().classes, name)
    {
      hide NamesExact, FreeExact, NamesListed, RangesDeclared, Exact, Inherited, Ordered, Arrivals;
      if name in mroCache {
        return mroCache[name].0, mroCache[name].1;
      }
      methods, fields := WalkMembers(name);
      if |mroCache| >= MRO_CACHE_LIMIT {
        var evicted :| evicted in mroCache;
        mroCache := mroCache - {evicted};
      }
      mroCache := mroCache[name := (methods, fields)];
    }

    method Mro(name: string) returns (result: seq<ClassMetadata>)
      requires Valid()
      ensures result == ClassesAlong(Contents().classes, Hierarchy(Contents().classes, name))
    {
      hide Linked, View, Ordered, Inherited;
      ghost var cs := Contents().classes;
      ghost var g := ParentGraph(cs);
      ghost var order: seq<string> := [];
      result := [];
      var seen: set<string>, queue: seq<string> := {}, [name];
      while queue != []
        invariant order + Walk(g, queue, seen) == Hierarchy(cs, name)
        invariant result == ClassesAlong(cs, order)
        decreases |g.Keys - seen|, |queue|
      {
        LoopTurn(g, Hierarchy(cs, name), order, queue, seen);
        var internal := queue[0];
        queue := queue[1..];
        if internal in seen {
          continue;
        }
        seen := seen + {internal};
        var meta := GetClass(internal);
        if meta.None? {
          continue;
        }
        assert Front(order + [internal]) == order;
        queue := queue + Parents(meta.value);
        result := result + [meta.value];
        order := order + [internal];
      }
      assert order == Hierarchy(cs, name);
    }
  }
}
