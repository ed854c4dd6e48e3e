// What a class bucket means: one finite map from internal name to class, with the
// declaration ranges of the classes in it.
module BucketSpec {
  import opened Seqs
  import opened ClassModel
  import opened BreadthFirst

  datatype SourceRange = SourceRange(startLine: nat, startCharacter: nat, endLine: nat, endCharacter: nat)

  type MethodKey = (string, string, string)
  type FieldKey = (string, string)

  datatype Declarations = Declarations(
    types: map<string, SourceRange>,
    methods: map<MethodKey, SourceRange>,
    fields: map<FieldKey, SourceRange>)

  datatype Abstract = Abstract(classes: map<string, ClassMetadata>, ranges: Declarations)

  const NO_DECLARATIONS := Declarations(map[], map[], map[])
  const EMPTY := Abstract(map[], NO_DECLARATIONS)

  predicate NamesMethod(owner: string, methods: seq<MethodSummary>, k: MethodKey) {
    k.0 == owner && exists m :: m in methods && m.name == k.1 && Desc(m) == k.2
  }

  predicate NamesField(owner: string, fields: seq<FieldSummary>, k: FieldKey) {
    k.0 == owner && exists f :: f in fields && f.name == k.1
  }

  predicate DeclaresMethod(c: ClassMetadata, k: MethodKey) {
    NamesMethod(c.internalName, c.methods, k)
  }

  predicate DeclaresField(c: ClassMetadata, k: FieldKey) {
    NamesField(c.internalName, c.fields, k)
  }

  ghost function MethodsAbout(owner: string, methods: seq<MethodSummary>, d: map<MethodKey, SourceRange>): map<MethodKey, SourceRange> {
    map k | k in d && NamesMethod(owner, methods, k) :: d[k]
  }

  ghost function FieldsAbout(owner: string, fields: seq<FieldSummary>, d: map<FieldKey, SourceRange>): map<FieldKey, SourceRange> {
    map k | k in d && NamesField(owner, fields, k) :: d[k]
  }

  lemma {:induction false} PutLast<K, V>(m: map<K, V>, n: map<K, V>, k: K, v: V)
    ensures m + n[k := v] == (m + n)[k := v]
  {
  }

  lemma {:induction false} MethodsAboutSnoc(owner: string, methods: seq<MethodSummary>, m: MethodSummary, d: map<MethodKey, SourceRange>)
    ensures var k := (owner, m.name, Desc(m));
      MethodsAbout(owner, methods + [m], d) == if k in d then MethodsAbout(owner, methods, d)[k := d[k]] else MethodsAbout(owner, methods, d)
  {
    forall k ensures NamesMethod(owner, methods + [m], k) <==> NamesMethod(owner, methods, k) || k == (owner, m.name, Desc(m)) {
      assert m in methods + [m];
    }
  }

  lemma {:induction false} FieldsAboutSnoc(owner: string, fields: seq<FieldSummary>, f: FieldSummary, d: map<FieldKey, SourceRange>)
    ensures var k := (owner, f.name);
      FieldsAbout(owner, fields + [f], d) == if k in d then FieldsAbout(owner, fields, d)[k := d[k]] else FieldsAbout(owner, fields, d)
  {
    forall k ensures NamesField(owner, fields + [f], k) <==> NamesField(owner, fields, k) || k == (owner, f.name) {
      assert f in fields + [f];
    }
  }

  // The part of a batch that speaks about one class and the members it declares.
  ghost function About(c: ClassMetadata, d: Declarations): Declarations {
    Declarations(
      map n | n in d.types && n == c.internalName :: d.types[n],
      MethodsAbout(c.internalName, c.methods, d.methods),
      FieldsAbout(c.internalName, c.fields, d.fields))
  }

  ghost function Overlay(d: Declarations, e: Declarations): Declarations {
    Declarations(d.types + e.types, d.methods + e.methods, d.fields + e.fields)
  }

  ghost function Forget(d: Declarations, owners: set<string>): Declarations {
    Declarations(
      map n | n in d.types && n !in owners :: d.types[n],
      map k | k in d.methods && k.0 !in owners :: d.methods[k],
      map k | k in d.fields && k.0 !in owners :: d.fields[k])
  }

  // Every range belongs to a class in the map and to a member that class declares.
  ghost predicate RangesDeclared(a: Abstract) {
    && (forall n :: n in a.ranges.types ==> n in a.classes)
    && (forall k :: k in a.ranges.methods ==> k.0 in a.classes && DeclaresMethod(a.classes[k.0], k))
    && (forall k :: k in a.ranges.fields ==> k.0 in a.classes && DeclaresField(a.classes[k.0], k))
  }

  ghost predicate WellNamed(a: Abstract) {
    forall n :: n in a.classes ==> a.classes[n].internalName == n
  }

  ghost function Insert(a: Abstract, c: ClassMetadata, d: Declarations): Abstract {
    Abstract(a.classes[c.internalName := c], Overlay(Forget(a.ranges, {c.internalName}), About(c, d)))
  }

  ghost function InsertAll(a: Abstract, cs: seq<ClassMetadata>, d: Declarations): Abstract {
    if cs == [] then a else Insert(InsertAll(a, Front(cs), d), Last(cs), d)
  }

  ghost function OriginNames(a: Abstract, o: ClassOrigin): set<string> {
    set n | n in a.classes && a.classes[n].origin == o
  }

  ghost function RemoveOrigin(a: Abstract, o: ClassOrigin): Abstract {
    Abstract(map n | n in a.classes && a.classes[n].origin != o :: a.classes[n], Forget(a.ranges, OriginNames(a, o)))
  }

  ghost function OriginClasses(classes: map<string, ClassMetadata>, o: ClassOrigin): set<ClassMetadata> {
    set n | n in classes && classes[n].origin == o :: classes[n]
  }

  predicate Blocked(classes: map<string, ClassMetadata>, c: ClassMetadata) {
    c.internalName in classes && classes[c.internalName].origin.Jar?
  }

  function Unblocked(classes: map<string, ClassMetadata>, cs: seq<ClassMetadata>): seq<ClassMetadata> {
    if cs == [] then []
    else Unblocked(classes, Front(cs)) + (if Blocked(classes, Last(cs)) then [] else [Last(cs)])
  }

  // The origin already holds exactly these classes, as multisets.
  ghost predicate SameClasses(classes: map<string, ClassMetadata>, o: ClassOrigin, cs: seq<ClassMetadata>) {
    cs != [] && multiset(cs) == multiset(OriginClasses(classes, o))
  }

  ghost predicate Changes(a: Abstract, o: ClassOrigin, cs: seq<ClassMetadata>) {
    Unblocked(a.classes, cs) != [] && !SameClasses(a.classes, o, Unblocked(a.classes, cs))
  }

  ghost function Update(a: Abstract, o: ClassOrigin, cs: seq<ClassMetadata>, d: Declarations): Abstract {
    if Changes(a, o, cs) then InsertAll(RemoveOrigin(a, o), Unblocked(a.classes, cs), d) else a
  }

  // ---- inheritance inside one bucket

  ghost function ParentGraph(classes: map<string, ClassMetadata>): map<string, seq<string>> {
    map n | n in classes :: Parents(classes[n])
  }

  ghost function Hierarchy(classes: map<string, ClassMetadata>, name: string): seq<string> {
    Walk(ParentGraph(classes), [name], {})
  }

  ghost function MethodsAlong(classes: map<string, ClassMetadata>, names: seq<string>): seq<MethodSummary> {
    if names == [] then []
    else MethodsAlong(classes, Front(names)) + (if Last(names) in classes then classes[Last(names)].methods else [])
  }

  ghost function FieldsAlong(classes: map<string, ClassMetadata>, names: seq<string>): seq<FieldSummary> {
    if names == [] then []
    else FieldsAlong(classes, Front(names)) + (if Last(names) in classes then classes[Last(names)].fields else [])
  }

  ghost function ClassesAlong(classes: map<string, ClassMetadata>, names: seq<string>): seq<ClassMetadata> {
    if names == [] then []
    else ClassesAlong(classes, Front(names)) + (if Last(names) in classes then [classes[Last(names)]] else [])
  }

  function OverrideKey(m: MethodSummary): (string, string) { (m.name, Desc(m)) }

  // Breadth-first along the hierarchy, a member survives when nothing earlier has its key.
  ghost function Inherited(classes: map<string, ClassMetadata>, name: string): (seq<MethodSummary>, seq<FieldSummary>) {
    (KeepFirst(OverrideKey, MethodsAlong(classes, Hierarchy(classes, name))),
     KeepFirst(FieldName, FieldsAlong(classes, Hierarchy(classes, name))))
  }

  // ---- consequences

  ghost function Drop(a: Abstract, n: string): Abstract {
    Abstract(a.classes - {n}, Forget(a.ranges, {n}))
  }

  // Removing the ranges a class declares removes every range of its name.
  lemma {:induction false} DropRanges(a: Abstract, c: ClassMetadata)
    requires RangesDeclared(a)
    requires c.internalName in a.classes && a.classes[c.internalName] == c
    ensures Forget(a.ranges, {c.internalName}) == Declarations(
      a.ranges.types - {c.internalName},
      map k | k in a.ranges.methods && !DeclaresMethod(c, k) :: a.ranges.methods[k],
      map k | k in a.ranges.fields && !DeclaresField(c, k) :: a.ranges.fields[k])
    ensures RangesDeclared(Drop(a, c.internalName))
  {
  }

  lemma {:induction false} DropAbsent(a: Abstract, n: string)
    requires RangesDeclared(a) && n !in a.classes
    ensures Drop(a, n) == a
  {
    assert a.classes - {n} == a.classes;
    assert Forget(a.ranges, {n}) == a.ranges;
  }

  lemma {:induction false} FreshKeepsRanges(a: Abstract, c: ClassMetadata)
    requires RangesDeclared(a) && c.internalName !in a.classes
    ensures RangesDeclared(Abstract(a.classes[c.internalName := c], a.ranges))
  {
  }

  // Dropping the old class, adding the new one and then its ranges is an insertion.
  lemma {:induction false} InsertAfterDrop(a: Abstract, c: ClassMetadata, d: Declarations)
    ensures var b := Drop(a, c.internalName);
      Insert(a, c, d) == Abstract(b.classes[c.internalName := c], Overlay(b.ranges, About(c, d)))
  {
    assert (a.classes - {c.internalName})[c.internalName := c] == a.classes[c.internalName := c];
  }

  lemma {:induction false} InsertKeepsShape(a: Abstract, c: ClassMetadata, d: Declarations)
    requires RangesDeclared(a)
    ensures RangesDeclared(Insert(a, c, d))
    ensures WellNamed(a) ==> WellNamed(Insert(a, c, d))
  {
  }

  lemma {:induction false} InsertAllKeepsShape(a: Abstract, cs: seq<ClassMetadata>, d: Declarations)
    requires WellNamed(a) && RangesDeclared(a)
    ensures WellNamed(InsertAll(a, cs, d)) && RangesDeclared(InsertAll(a, cs, d))
  {
    if cs != [] {
      InsertAllKeepsShape(a, Front(cs), d);
      InsertKeepsShape(InsertAll(a, Front(cs), d), Last(cs), d);
    }
  }

  lemma {:induction false} InsertAllClasses(a: Abstract, cs: seq<ClassMetadata>, d: Declarations)
    ensures forall n :: n in InsertAll(a, cs, d).classes <==> n in a.classes || exists c :: c in cs && c.internalName == n
    ensures forall n :: n in a.classes && (forall c :: c in cs ==> c.internalName != n) ==>
      n in InsertAll(a, cs, d).classes && InsertAll(a, cs, d).classes[n] == a.classes[n]
    ensures forall n :: n in InsertAll(a, cs, d).classes && (exists c :: c in cs && c.internalName == n) ==>
      InsertAll(a, cs, d).classes[n] in cs
  {
    if cs != [] {
      InsertAllClasses(a, Front(cs), d);
      assert cs == Front(cs) + [Last(cs)];
    }
  }

  lemma {:induction false} UnblockedMembers(classes: map<string, ClassMetadata>, cs: seq<ClassMetadata>)
    ensures forall c :: c in Unblocked(classes, cs) <==> c in cs && !Blocked(classes, c)
  {
    if cs != [] {
      UnblockedMembers(classes, Front(cs));
      assert cs == Front(cs) + [Last(cs)];
    }
  }
}
