// What holds of a bucket over any run of its operations, and what one source update does.
module BucketLaws {
  import opened Seqs
  import opened ClassModel
  import opened BreadthFirst
  import opened BucketSpec
  import opened Rows
  import opened BucketStates

  datatype Op =
    | Add(classes: seq<ClassMetadata>, ranges: Declarations)
    | AddArchive(classes: seq<ClassMetadata>)
    | UpdateSource(origin: ClassOrigin, classes: seq<ClassMetadata>, ranges: Declarations)
    | RemoveByOrigin(origin: ClassOrigin)

  ghost function Apply(a: Abstract, op: Op): Abstract {
    match op
    case Add(classes, ranges) => InsertAll(a, classes, ranges)
    case AddArchive(classes) => InsertAll(a, Restubbed(classes), NO_DECLARATIONS)
    case UpdateSource(origin, classes, ranges) => Update(a, origin, classes, ranges)
    case RemoveByOrigin(origin) => RemoveOrigin(a, origin)
  }

  ghost function Run(a: Abstract, ops: seq<Op>): Abstract {
    if ops == [] then a else Apply(Run(a, Front(ops)), Last(ops))
  }

  lemma {:induction false} RemoveOriginKeepsShape(a: Abstract, o: ClassOrigin)
    requires WellNamed(a) && RangesDeclared(a)
    ensures WellNamed(RemoveOrigin(a, o)) && RangesDeclared(RemoveOrigin(a, o))
  {
  }

  // Every range in a reachable bucket belongs to a live class that declares its member.
  lemma {:induction false} RangesStayDeclared(ops: seq<Op>)
    ensures WellNamed(Run(EMPTY, ops)) && RangesDeclared(Run(EMPTY, ops))
  {
    if ops != [] {
      RangesStayDeclared(Front(ops));
      var a := Run(EMPTY, Front(ops));
      match Last(ops)
      case Add(classes, ranges) => InsertAllKeepsShape(a, classes, ranges);
      case AddArchive(classes) => InsertAllKeepsShape(a, Restubbed(classes), NO_DECLARATIONS);
      case RemoveByOrigin(origin) => RemoveOriginKeepsShape(a, origin);
      case UpdateSource(origin, classes, ranges) =>
        RemoveOriginKeepsShape(a, origin);
        InsertAllKeepsShape(RemoveOrigin(a, origin), Unblocked(a.classes, classes), ranges);
    }
  }

  // Removing an origin deletes exactly that origin's classes.
  lemma {:induction false} RemovalIsExact(a: Abstract, o: ClassOrigin, n: string)
    ensures n in RemoveOrigin(a, o).classes <==> n in a.classes && a.classes[n].origin != o
    ensures n in RemoveOrigin(a, o).classes ==> RemoveOrigin(a, o).classes[n] == a.classes[n]
  {
  }

  ghost predicate HoldsJarEntry(a: Abstract, n: string, c: ClassMetadata) {
    n in a.classes && a.classes[n] == c && c.origin.Jar?
  }

  lemma {:induction false} UpdateKeepsJarEntry(a: Abstract, o: ClassOrigin, cs: seq<ClassMetadata>, d: Declarations, n: string, c: ClassMetadata)
    requires o.SourceFile? && HoldsJarEntry(a, n, c)
    ensures HoldsJarEntry(Update(a, o, cs, d), n, c)
  {
    if Changes(a, o, cs) {
      var kept := Unblocked(a.classes, cs);
      UnblockedMembers(a.classes, cs);
      InsertAllClasses(RemoveOrigin(a, o), kept, d);
      assert forall k :: k in kept ==> k.internalName != n;
    }
  }

  ghost predicate IsSourceEdit(op: Op) {
    (op.UpdateSource? || op.RemoveByOrigin?) && op.origin.SourceFile?
  }

  // No run of source-file updates and removals ever changes or deletes an archive's class.
  lemma {:induction false} SourceEditsKeepJarEntries(a: Abstract, ops: seq<Op>, n: string, c: ClassMetadata)
    requires forall op :: op in ops ==> IsSourceEdit(op)
    requires HoldsJarEntry(a, n, c)
    ensures HoldsJarEntry(Run(a, ops), n, c)
  {
    if ops != [] {
      assert ops == Front(ops) + [Last(ops)];
      SourceEditsKeepJarEntries(a, Front(ops), n, c);
      assert Last(ops) in ops;
      match Last(ops)
      case UpdateSource(origin, classes, ranges) => UpdateKeepsJarEntry(Run(a, Front(ops)), origin, classes, ranges, n, c);
      case RemoveByOrigin(origin) =>
    }
  }

  // The last class of a batch with a given name.
  ghost function LastNamed(cs: seq<ClassMetadata>, n: string): Option<ClassMetadata> {
    if cs == [] then None else if Last(cs).internalName == n then Some(Last(cs)) else LastNamed(Front(cs), n)
  }

  lemma {:induction false} InsertAllLastWins(a: Abstract, cs: seq<ClassMetadata>, d: Declarations, n: string)
    ensures n in InsertAll(a, cs, d).classes <==> n in a.classes || LastNamed(cs, n).Some?
    ensures LastNamed(cs, n).Some? ==> InsertAll(a, cs, d).classes[n] == LastNamed(cs, n).value
    ensures LastNamed(cs, n).None? && n in a.classes ==> InsertAll(a, cs, d).classes[n] == a.classes[n]
  {
    if cs != [] {
      InsertAllLastWins(a, Front(cs), d, n);
    }
  }

  // No archive class holds the name.
  function NoJarHolds(classes: map<string, ClassMetadata>): ClassMetadata -> bool {
    (c: ClassMetadata) => !(c.internalName in classes && classes[c.internalName].origin.Jar?)
  }

  lemma {:induction false} UnblockedIsFilter(classes: map<string, ClassMetadata>, cs: seq<ClassMetadata>)
    ensures Unblocked(classes, cs) == Filter(NoJarHolds(classes), cs)
  {
    if cs != [] {
      UnblockedIsFilter(classes, Front(cs));
    }
  }

  // An update changes the bucket exactly when some class of it is not held by an archive, and those
  // that are not are not just the classes the origin has.
  lemma {:induction false} ChangesExactly(a: Abstract, o: ClassOrigin, cs: seq<ClassMetadata>)
    ensures var kept := Filter(NoJarHolds(a.classes), cs);
      && Unblocked(a.classes, cs) == kept
      && (Changes(a, o, cs) <==>
           kept != [] && multiset(kept) != multiset(set n | n in a.classes && a.classes[n].origin == o :: a.classes[n]))
  {
    UnblockedIsFilter(a.classes, cs);
  }

  // An update that changes anything is the old map minus the origin, overlaid by the
  // unblocked classes, later ones winning; any other update leaves the bucket alone.
  lemma {:induction false} UpdateMeaning(a: Abstract, o: ClassOrigin, cs: seq<ClassMetadata>, d: Declarations, n: string)
    ensures !Changes(a, o, cs) ==> Update(a, o, cs, d) == a
    ensures Changes(a, o, cs) ==>
      var after, incoming := Update(a, o, cs, d).classes, LastNamed(Unblocked(a.classes, cs), n);
      && (n in after <==> incoming.Some? || (n in a.classes && a.classes[n].origin != o))
      && (n in after ==> after[n] == if incoming.Some? then incoming.value else a.classes[n])
  {
    InsertAllLastWins(RemoveOrigin(a, o), Unblocked(a.classes, cs), d, n);
  }

  ghost predicate DistinctNames(cs: seq<ClassMetadata>) {
    forall i, j :: 0 <= i < j < |cs| ==> cs[i].internalName != cs[j].internalName
  }

  lemma {:induction false} UnblockedDistinct(classes: map<string, ClassMetadata>, cs: seq<ClassMetadata>)
    requires DistinctNames(cs)
    ensures DistinctNames(Unblocked(classes, cs))
  {
    if cs != [] {
      var front := Unblocked(classes, Front(cs));
      UnblockedDistinct(classes, Front(cs));
      UnblockedMembers(classes, Front(cs));
      forall i | 0 <= i < |front| ensures front[i].internalName != Last(cs).internalName {
        assert front[i] in front && front[i] in Front(cs);
      }
    }
  }

  lemma {:induction false} LastNamedDistinct(cs: seq<ClassMetadata>, c: ClassMetadata)
    requires DistinctNames(cs) && c in cs
    ensures LastNamed(cs, c.internalName) == Some(c)
  {
    if c != Last(cs) {
      assert cs == Front(cs) + [Last(cs)];
      assert c in Front(cs);
      LastNamedDistinct(Front(cs), c);
    }
  }

  lemma {:induction false} LastNamedMember(cs: seq<ClassMetadata>, n: string)
    requires LastNamed(cs, n).Some?
    ensures LastNamed(cs, n).value in cs && LastNamed(cs, n).value.internalName == n
  {
    if Last(cs).internalName != n {
      LastNamedMember(Front(cs), n);
      assert cs == Front(cs) + [Last(cs)];
    }
  }

  // After updating a file to a batch of its own, distinctly named classes the origin holds
  // exactly the unblocked ones, unless all of them are blocked (or there are none) while the
  // origin still held some: then the stale classes stay.
  lemma {:induction false} UpdateMirrors(a: Abstract, o: ClassOrigin, cs: seq<ClassMetadata>, d: Declarations)
    requires DistinctNames(cs) && forall c :: c in cs ==> c.origin == o
    ensures var kept := Unblocked(a.classes, cs);
      OriginClasses(Update(a, o, cs, d).classes, o) == (set c | c in kept) <==> kept != [] || OriginNames(a, o) == {}
  {
    var kept, after := Unblocked(a.classes, cs), Update(a, o, cs, d).classes;
    UnblockedMembers(a.classes, cs);
    UnblockedDistinct(a.classes, cs);
    if kept == [] {
      if OriginNames(a, o) != {} {
        var n :| n in OriginNames(a, o);
        assert after[n] in OriginClasses(after, o);
      } else {
        forall n | n in after ensures after[n].origin != o {
          assert n !in OriginNames(a, o);
        }
        assert OriginClasses(after, o) == {};
      }
    } else if Changes(a, o, cs) {
      forall c | c in kept ensures c in OriginClasses(after, o) {
        LastNamedDistinct(kept, c);
        UpdateMeaning(a, o, cs, d, c.internalName);
        assert after[c.internalName] == c;
      }
      forall c | c in OriginClasses(after, o) ensures c in kept {
        var n :| n in after && after[n].origin == o && after[n] == c;
        UpdateMeaning(a, o, cs, d, n);
        if LastNamed(kept, n).Some? {
          LastNamedMember(kept, n);
        }
      }
    } else {
      SameMembers(kept, OriginClasses(a.classes, o));
    }
  }

  lemma {:induction false} SameMembers<T>(s: seq<T>, members: set<T>)
    requires multiset(s) == multiset(members)
    ensures (set x | x in s) == members
  {
    forall x ensures x in s <==> x in members {
      assert x in s <==> x in multiset(s);
      assert x in members <==> x in multiset(members);
    }
  }

  lemma {:induction false} LastNamedExists(cs: seq<ClassMetadata>, c: ClassMetadata)
    requires c in cs
    ensures LastNamed(cs, c.internalName).Some?
  {
    if Last(cs).internalName != c.internalName {
      assert cs == Front(cs) + [Last(cs)];
      LastNamedExists(Front(cs), c);
    }
  }

  // Putting back what was removed restores the map.
  lemma {:induction false} RemovalUndone(a: Abstract, o: ClassOrigin, cs: seq<ClassMetadata>, d: Declarations)
    requires WellNamed(a) && forall c :: c in cs <==> c in OriginClasses(a.classes, o)
    ensures InsertAll(RemoveOrigin(a, o), cs, d).classes == a.classes
  {
    var after := InsertAll(RemoveOrigin(a, o), cs, d).classes;
    forall n ensures (n in after <==> n in a.classes) && (n in after ==> after[n] == a.classes[n]) {
      RemovalIsExact(a, o, n);
      InsertAllLastWins(RemoveOrigin(a, o), cs, d, n);
      if LastNamed(cs, n).Some? {
        LastNamedMember(cs, n);
      } else if n in a.classes && a.classes[n].origin == o {
        LastNamedExists(cs, a.classes[n]);
      }
    }
  }

  // ---- declaration ranges

  lemma {:induction false} TypeRangesAfterInsert(a: Abstract, c: ClassMetadata, d: Declarations)
    ensures var r, o := Insert(a, c, d).ranges, c.internalName;
      && r.types.Keys == (a.ranges.types.Keys - {o}) + (d.types.Keys * {o})
      && (forall n :: n in r.types ==> r.types[n] == if n == o then d.types[n] else a.ranges.types[n])
  {
  }

  lemma {:induction false} MethodRangesAfterInsert(a: Abstract, c: ClassMetadata, d: Declarations)
    ensures var r, o := Insert(a, c, d).ranges, c.internalName;
      && (forall k :: k in r.methods <==>
           if k.0 == o then k in d.methods && exists m :: m in c.methods && m.name == k.1 && Desc(m) == k.2 else k in a.ranges.methods)
      && (forall k :: k in r.methods ==> r.methods[k] == if k.0 == o then d.methods[k] else a.ranges.methods[k])
  {
    hide Desc;
  }

  lemma {:induction false} FieldRangesAfterInsert(a: Abstract, c: ClassMetadata, d: Declarations)
    ensures var r, o := Insert(a, c, d).ranges, c.internalName;
      && (forall k :: k in r.fields <==>
           if k.0 == o then k in d.fields && exists f :: f in c.fields && f.name == k.1 else k in a.ranges.fields)
      && (forall k :: k in r.fields ==> r.fields[k] == if k.0 == o then d.fields[k] else a.ranges.fields[k])
  {
  }

  // After an insertion the ranges of the class are exactly those the batch gives for it and for the
  // members it declares; the ranges of all other classes are the old ones.
  lemma {:induction false} RangesAfterInsert(a: Abstract, c: ClassMetadata, d: Declarations)
    ensures var r, o := Insert(a, c, d).ranges, c.internalName;
      && r.types.Keys == (a.ranges.types.Keys - {o}) + (d.types.Keys * {o})
      && (forall n :: n in r.types ==> r.types[n] == if n == o then d.types[n] else a.ranges.types[n])
      && (forall k :: k in r.methods <==>
           if k.0 == o then k in d.methods && exists m :: m in c.methods && m.name == k.1 && Desc(m) == k.2 else k in a.ranges.methods)
      && (forall k :: k in r.methods ==> r.methods[k] == if k.0 == o then d.methods[k] else a.ranges.methods[k])
      && (forall k :: k in r.fields <==>
           if k.0 == o then k in d.fields && exists f :: f in c.fields && f.name == k.1 else k in a.ranges.fields)
      && (forall k :: k in r.fields ==> r.fields[k] == if k.0 == o then d.fields[k] else a.ranges.fields[k])
  {
    hide Insert, Desc;
    TypeRangesAfterInsert(a, c, d);
    MethodRangesAfterInsert(a, c, d);
    FieldRangesAfterInsert(a, c, d);
  }

  // A batch of distinctly named classes leaves each of them with exactly its own ranges of the batch.
  lemma {:induction false} RangesAfterBatch(a: Abstract, cs: seq<ClassMetadata>, d: Declarations, c: ClassMetadata)
    requires DistinctNames(cs) && c in cs
    ensures var r, o := InsertAll(a, cs, d).ranges, c.internalName;
      && (o in r.types <==> o in d.types) && (o in d.types ==> r.types[o] == d.types[o])
      && (forall k: MethodKey :: k.0 == o ==>
           (k in r.methods <==> k in d.methods && exists m :: m in c.methods && m.name == k.1 && Desc(m) == k.2))
      && (forall k: MethodKey :: k.0 == o && k in r.methods ==> r.methods[k] == d.methods[k])
      && (forall k: FieldKey :: k.0 == o ==> (k in r.fields <==> k in d.fields && exists f :: f in c.fields && f.name == k.1))
      && (forall k: FieldKey :: k.0 == o && k in r.fields ==> r.fields[k] == d.fields[k])
  {
    var before := InsertAll(a, Front(cs), d);
    assert cs == Front(cs) + [Last(cs)];
    RangesAfterInsert(before, Last(cs), d);
    if c != Last(cs) {
      var i :| 0 <= i < |Front(cs)| && Front(cs)[i] == c;
      assert cs[i].internalName != Last(cs).internalName;
      RangesAfterBatch(a, Front(cs), d, c);
    }
  }

  // Removing an origin takes the ranges of its classes and leaves all others.
  lemma {:induction false} RangesAfterRemoval(a: Abstract, o: ClassOrigin)
    requires RangesDeclared(a)
    ensures var after := RemoveOrigin(a, o);
      && (forall n :: n in after.ranges.types <==> n in a.ranges.types && n in after.classes)
      && (forall k :: k in after.ranges.methods <==> k in a.ranges.methods && k.0 in after.classes)
      && (forall k :: k in after.ranges.fields <==> k in a.ranges.fields && k.0 in after.classes)
      && (forall n :: n in after.ranges.types ==> after.ranges.types[n] == a.ranges.types[n])
      && (forall k :: k in after.ranges.methods ==> after.ranges.methods[k] == a.ranges.methods[k])
      && (forall k :: k in after.ranges.fields ==> after.ranges.fields[k] == a.ranges.fields[k])
  {
  }

  // A file whose only class is removed from it keeps that class in the index.
  lemma EmptiedFileKeepsStaleClass()
    ensures exists a: Abstract, o: ClassOrigin :: o.SourceFile? && OriginNames(a, o) != {} && Update(a, o, [], NO_DECLARATIONS) == a
  {
    var o := SourceFile("file:///A.java");
    var c := ClassMetadata(None, "A", "A", None, [], [], [], [], 0, None, None, o);
    var a := Abstract(map["A" := c], NO_DECLARATIONS);
    assert "A" in OriginNames(a, o);
    assert Update(a, o, [], NO_DECLARATIONS) == a;
  }

  // ---- the hierarchy walk

  // The edges of a class: its superclass, then its interfaces in declared order, and nothing else.
  lemma {:induction false} EdgesExactly(classes: map<string, ClassMetadata>, n: string)
    requires n in classes
    ensures n in ParentGraph(classes) && LeadTo(ParentGraph(classes)[n], classes[n].superName, classes[n].interfaces)
  {
    NonEmptyIsFilter(classes[n].interfaces);
    FilterMembers(NotBlank, classes[n].interfaces);
  }

  // The walk is nearest first, and within a depth it follows the edges in order.
  lemma {:induction false} HierarchyNearestFirst(classes: map<string, ClassMetadata>, name: string)
    ensures NearestFirst(ParentGraph(classes), name, Hierarchy(classes, name))
    ensures ByDiscovery(ParentGraph(classes), name, Hierarchy(classes, name))
  {
    WalkIsNearestFirst(ParentGraph(classes), name);
    WalkIsByDiscovery(ParentGraph(classes), name);
  }

  // A superclass or interface of a class on the walk is on the walk if the bucket has it.
  lemma {:induction false} ParentsAreWalked(classes: map<string, ClassMetadata>, name: string, n: string, p: string)
    requires n in Hierarchy(classes, name) && n in classes
    requires p in classes && p != "" && (classes[n].superName == Some(p) || p in classes[n].interfaces)
    ensures p in Hierarchy(classes, name)
  {
    var g := ParentGraph(classes);
    HierarchyNearestFirst(classes, name);
    EdgesExactly(classes, n);
    assert Reachable(g, name, n);
    var d: nat :| n in Within(g, name, d);
    assert p in Within(g, name, d + 1);
  }

  lemma {:induction false} WalkedAreClasses(classes: map<string, ClassMetadata>, name: string)
    ensures forall n :: n in Hierarchy(classes, name) ==> n in classes
  {
    var g := ParentGraph(classes);
    HierarchyNearestFirst(classes, name);
    forall n | n in Hierarchy(classes, name) ensures n in classes {
      assert Reachable(g, name, n);
      var d: nat :| n in Within(g, name, d);
      WithinGrows(g, name, d, d);
    }
  }

  // One class for every name on the walk, in its order.
  lemma {:induction false} ClassesAlongEach(classes: map<string, ClassMetadata>, names: seq<string>)
    requires forall n :: n in names ==> n in classes
    ensures |ClassesAlong(classes, names)| == |names|
    ensures forall i :: 0 <= i < |names| ==> ClassesAlong(classes, names)[i] == classes[names[i]]
  {
    if names != [] {
      assert names == Front(names) + [Last(names)];
      ClassesAlongEach(classes, Front(names));
    }
  }

  lemma {:induction false} MroExactly(classes: map<string, ClassMetadata>, name: string)
    ensures var h, cs := Hierarchy(classes, name), ClassesAlong(classes, Hierarchy(classes, name));
      |cs| == |h| && forall i :: 0 <= i < |h| ==> h[i] in classes && cs[i] == classes[h[i]]
  {
    WalkedAreClasses(classes, name);
    ClassesAlongEach(classes, Hierarchy(classes, name));
  }

  // ---- inherited members

  ghost function MethodRows(classes: map<string, ClassMetadata>, names: seq<string>): seq<seq<MethodSummary>> {
    seq(|names|, i requires 0 <= i < |names| => if names[i] in classes then classes[names[i]].methods else [])
  }

  ghost function FieldRows(classes: map<string, ClassMetadata>, names: seq<string>): seq<seq<FieldSummary>> {
    seq(|names|, i requires 0 <= i < |names| => if names[i] in classes then classes[names[i]].fields else [])
  }

  lemma {:induction false} AlongIsRows(classes: map<string, ClassMetadata>, names: seq<string>)
    ensures MethodsAlong(classes, names) == Flatten(MethodRows(classes, names))
    ensures FieldsAlong(classes, names) == Flatten(FieldRows(classes, names))
  {
    if names != [] {
      AlongIsRows(classes, Front(names));
      assert Front(MethodRows(classes, names)) == MethodRows(classes, Front(names));
      assert Front(FieldRows(classes, names)) == FieldRows(classes, Front(names));
    }
  }

  function SameMethod(a: MethodSummary, b: MethodSummary): bool {
    a.name == b.name && Desc(a) == Desc(b)
  }

  function SameField(a: FieldSummary, b: FieldSummary): bool {
    a.name == b.name
  }

  // Class by class along the walk, a method is inherited exactly when no class walked before and no
  // earlier slot of its own class declares one with its name and descriptor; a field, with its name.
  lemma {:induction false} InheritedExactly(classes: map<string, ClassMetadata>, name: string)
    returns (methods: seq<Spot>, fields: seq<Spot>)
    ensures var h := Hierarchy(classes, name);
      && (forall n :: n in h ==> n in classes)
      && KeptAt(SameMethod, MethodRows(classes, h), Inherited(classes, name).0, methods)
      && KeptAt(SameField, FieldRows(classes, h), Inherited(classes, name).1, fields)
  {
    var h := Hierarchy(classes, name);
    WalkedAreClasses(classes, name);
    AlongIsRows(classes, h);
    methods := KeptSpots(OverrideKey, SameMethod, MethodRows(classes, h));
    fields := KeptSpots(FieldName, SameField, FieldRows(classes, h));
  }

  lemma {:induction false} DeclaredIsInherited(classes: map<string, ClassMetadata>, name: string, n: string)
    requires n in Hierarchy(classes, name) && n in classes
    ensures forall m :: m in classes[n].methods ==> exists k :: k in Inherited(classes, name).0 && k.name == m.name && Desc(k) == Desc(m)
    ensures forall f :: f in classes[n].fields ==> exists k :: k in Inherited(classes, name).1 && k.name == f.name
  {
    var h := Hierarchy(classes, name);
    var methods, fields := MethodsAlong(classes, h), FieldsAlong(classes, h);
    AlongMembers(classes, h, n);
    forall m | m in classes[n].methods ensures exists k :: k in Inherited(classes, name).0 && k.name == m.name && Desc(k) == Desc(m) {
      KeySurvives(OverrideKey, methods, m);
    }
    forall f | f in classes[n].fields ensures exists k :: k in Inherited(classes, name).1 && k.name == f.name {
      KeySurvives(FieldName, fields, f);
    }
  }

  lemma {:induction false} KeySurvives<T(!new), K>(key: T -> K, s: seq<T>, x: T)
    requires x in s
    ensures exists k :: k in KeepFirst(key, s) && key(k) == key(x)
  {
    KeysMembers(key, s);
    KeepFirstKeys(key, s);
    KeysMembers(key, KeepFirst(key, s));
  }

  lemma {:induction false} AlongMembers(classes: map<string, ClassMetadata>, names: seq<string>, n: string)
    requires n in names && n in classes
    ensures forall m :: m in classes[n].methods ==> m in MethodsAlong(classes, names)
    ensures forall f :: f in classes[n].fields ==> f in FieldsAlong(classes, names)
  {
    assert names == Front(names) + [Last(names)];
    if n != Last(names) {
      AlongMembers(classes, Front(names), n);
    }
  }

  // Every member of a direct superclass or interface has its key among the inherited members.
  lemma {:induction false} ParentMembersInherited(classes: map<string, ClassMetadata>, name: string, p: string)
    requires name in classes && p in classes && p != "" && (classes[name].superName == Some(p) || p in classes[name].interfaces)
    ensures forall m :: m in classes[p].methods ==> exists k :: k in Inherited(classes, name).0 && k.name == m.name && Desc(k) == Desc(m)
    ensures forall f :: f in classes[p].fields ==> exists k :: k in Inherited(classes, name).1 && k.name == f.name
  {
    HierarchyNearestFirst(classes, name);
    assert name in Within(ParentGraph(classes), name, 0);
    ParentsAreWalked(classes, name, name, p);
    DeclaredIsInherited(classes, name, p);
  }
}
