// Members along the inheritance walk of a scope, seen three ways: collected at once, spread
// over projected classes, or as references that are materialised later.
module ViewMembers {
  import opened Seqs
  import opened ClassModel
  import opened ArchiveStubs
  import opened Descriptors
  import opened ArtifactReader
  import opened ViewSpec

  datatype TypeRef = SourceType(internalName: string) | ArtifactType(internalName: string, handle: ClassHandle)

  datatype MethodRef = MethodRef(owner: TypeRef, name: string, descriptor: string, accessFlags: bv16, artifact: Option<MethodHandle>)

  datatype FieldRef = FieldRef(owner: TypeRef, name: string, descriptor: string, accessFlags: bv16, artifact: Option<FieldHandle>)

  function TypeRefOf(scope: Scope, ref: ClassRef): Option<TypeRef> {
    match ref
    case OverlayRef(_, name) => Some(SourceType(name))
    case ArtifactRef(handle) =>
      var name := NameOf(scope, ref);
      if name.Some? then Some(ArtifactType(name.value, handle)) else None
  }

  function ShadowKey(m: MethodSummary): (string, string) {
    (m.name, if m.genericSignature.Some? then m.genericSignature.value else Desc(m))
  }

  function StubShadowKey(s: MethodStub): (string, string) {
    (s.name, if s.genericSignature.Some? then s.genericSignature.value else s.descriptor)
  }

  function MethodsOf(scope: Scope, ref: ClassRef): seq<MethodSummary> {
    var c := Resolve(scope, ref);
    if c.Some? then c.value.methods else []
  }

  function FieldsOf(scope: Scope, ref: ClassRef): seq<FieldSummary> {
    var c := Resolve(scope, ref);
    if c.Some? then c.value.fields else []
  }

  function MethodsMet(scope: Scope, refs: seq<ClassRef>): seq<MethodSummary> {
    if refs == [] then [] else MethodsMet(scope, Front(refs)) + MethodsOf(scope, Last(refs))
  }

  function FieldsMet(scope: Scope, refs: seq<ClassRef>): seq<FieldSummary> {
    if refs == [] then [] else FieldsMet(scope, Front(refs)) + FieldsOf(scope, Last(refs))
  }

  // A member survives when nothing earlier in the walk, its own class included, shadows it.
  ghost function CollectedMethods(scope: Scope, name: string): seq<MethodSummary> {
    KeepFirst(ShadowKey, MethodsMet(scope, HierarchyRefs(scope, name)))
  }

  ghost function CollectedFields(scope: Scope, name: string): seq<FieldSummary> {
    KeepFirst(FieldName, FieldsMet(scope, HierarchyRefs(scope, name)))
  }

  // ---- first view against second: projected classes

  ghost function ProjectedClass(scope: Scope, before: seq<ClassRef>, c: ClassMetadata): ClassMetadata {
    c.(methods := Unseen(ShadowKey, MethodsMet(scope, before), c.methods),
       fields := Unseen(FieldName, FieldsMet(scope, before), c.fields))
  }

  ghost function ProjectedLast(scope: Scope, before: seq<ClassRef>, ref: ClassRef): seq<ClassMetadata> {
    var c := Resolve(scope, ref);
    if c.Some? then [ProjectedClass(scope, before, c.value)] else []
  }

  ghost function Projected(scope: Scope, refs: seq<ClassRef>): seq<ClassMetadata> {
    if refs == [] then [] else Projected(scope, Front(refs)) + ProjectedLast(scope, Front(refs), Last(refs))
  }

  function AllMethods(cs: seq<ClassMetadata>): seq<MethodSummary> {
    if cs == [] then [] else AllMethods(Front(cs)) + Last(cs).methods
  }

  function AllFields(cs: seq<ClassMetadata>): seq<FieldSummary> {
    if cs == [] then [] else AllFields(Front(cs)) + Last(cs).fields
  }

  // The members of the projected classes, one class after the other, are the collected members.
  lemma {:induction false} ProjectedMembers(scope: Scope, refs: seq<ClassRef>)
    ensures AllMethods(Projected(scope, refs)) == KeepFirst(ShadowKey, MethodsMet(scope, refs))
    ensures AllFields(Projected(scope, refs)) == KeepFirst(FieldName, FieldsMet(scope, refs))
  {
    if refs != [] {
      ProjectedMembers(scope, Front(refs));
      KeepFirstConcat(ShadowKey, MethodsMet(scope, Front(refs)), MethodsOf(scope, Last(refs)));
      KeepFirstConcat(FieldName, FieldsMet(scope, Front(refs)), FieldsOf(scope, Last(refs)));
      LastMembers(scope, Projected(scope, Front(refs)), Front(refs), Last(refs));
    }
  }

  lemma {:induction false} LastMembers(scope: Scope, cs: seq<ClassMetadata>, before: seq<ClassRef>, ref: ClassRef)
    ensures AllMethods(cs + ProjectedLast(scope, before, ref))
      == AllMethods(cs) + Unseen(ShadowKey, MethodsMet(scope, before), MethodsOf(scope, ref))
    ensures AllFields(cs + ProjectedLast(scope, before, ref))
      == AllFields(cs) + Unseen(FieldName, FieldsMet(scope, before), FieldsOf(scope, ref))
  {
    var c := Resolve(scope, ref);
    if c.Some? {
      MembersSnoc(cs, ProjectedClass(scope, before, c.value));
    } else {
      assert cs + [] == cs;
    }
  }

  lemma {:induction false} MembersSnoc(cs: seq<ClassMetadata>, c: ClassMetadata)
    ensures AllMethods(cs + [c]) == AllMethods(cs) + c.methods && AllFields(cs + [c]) == AllFields(cs) + c.fields
  {
    assert Front(cs + [c]) == cs;
  }

  // ---- second view against third: references to methods

  function NameAndDesc(m: MethodSummary): (string, string) { (m.name, Desc(m)) }

  function MethodStubAt(scope: Scope, handle: MethodHandle): Option<MethodStub> {
    var stub := StubOf(scope, handle.class_);
    if stub.Some? && handle.slot < |stub.value.methods| then Some(stub.value.methods[handle.slot]) else None
  }

  function MaterializedClass(scope: Scope, owner: TypeRef): Option<ClassMetadata> {
    match owner
    case SourceType(name) => ClassNamed(scope, name)
    case ArtifactType(_, handle) => Resolve(scope, ArtifactRef(handle))
  }

  // None where the code finds nothing, and where it panics.
  function MaterializedMethod(scope: Scope, r: MethodRef): Option<MethodSummary> {
    if r.artifact.Some? then
      var stub := MethodStubAt(scope, r.artifact.value);
      if stub.Some? then MaterializeMethod(stub.value) else None
    else
      var owner := MaterializedClass(scope, r.owner);
      if owner.None? then None
      else
        var i := FirstWith(NameAndDesc, owner.value.methods, (r.name, r.descriptor));
        if i.Some? then Some(owner.value.methods[i.value]) else None
  }

  // A method met on the walk: its shadow key, the reference handed out, and the method meant.
  datatype MethodSite = MethodSite(shadow: (string, string), ref: MethodRef, meant: MethodSummary)

  function OverlaySite(owner: TypeRef, m: MethodSummary): MethodSite {
    MethodSite(ShadowKey(m), MethodRef(owner, m.name, Desc(m), m.accessFlags, None), m)
  }

  function OverlaySites(owner: TypeRef, methods: seq<MethodSummary>, name: string): seq<MethodSite> {
    if methods == [] then []
    else
      OverlaySites(owner, Front(methods), name) + (if Last(methods).name == name then [OverlaySite(owner, Last(methods))] else [])
  }

  function ArtifactSite(owner: TypeRef, handle: ClassHandle, slot: nat, s: MethodStub): MethodSite {
    MethodSite(StubShadowKey(s), MethodRef(owner, s.name, s.descriptor, s.accessFlags, Some(MethodHandle(handle, slot))), MethodOf(s))
  }

  function ArtifactSites(owner: TypeRef, handle: ClassHandle, stubs: seq<MethodStub>, name: string): seq<MethodSite> {
    if stubs == [] then []
    else
      ArtifactSites(owner, handle, Front(stubs), name)
      + (if Last(stubs).name == name then [ArtifactSite(owner, handle, |stubs| - 1, Last(stubs))] else [])
  }

  function SitesOf(scope: Scope, ref: ClassRef, name: string): seq<MethodSite> {
    var owner := TypeRefOf(scope, ref);
    if owner.None? then []
    else match ref
      case OverlayRef(_, _) =>
        var c := Resolve(scope, ref);
        if c.Some? then OverlaySites(owner.value, c.value.methods, name) else []
      case ArtifactRef(handle) =>
        var stub := StubOf(scope, handle);
        if stub.Some? then ArtifactSites(owner.value, handle, stub.value.methods, name) else []
  }

  function SitesAlong(scope: Scope, refs: seq<ClassRef>, name: string): seq<MethodSite> {
    if refs == [] then [] else SitesAlong(scope, Front(refs), name) + SitesOf(scope, Last(refs), name)
  }

  ghost function Shadow(s: MethodSite): (string, string) { s.shadow }
  ghost function Handed(s: MethodSite): MethodRef { s.ref }
  ghost function Meant(s: MethodSite): MethodSummary { s.meant }

  ghost function Named(name: string): MethodSummary -> bool {
    (m: MethodSummary) => m.name == name
  }

  ghost function MethodRefs(scope: Scope, class_: string, name: string): seq<MethodRef> {
    Map(Handed, KeepFirst(Shadow, SitesAlong(scope, HierarchyRefs(scope, class_), name)))
  }

  ghost function MethodsNamed(scope: Scope, class_: string, name: string): seq<MethodSummary> {
    Filter(Named(name), CollectedMethods(scope, class_))
  }

  // Section 4.6 of the JVM Specification: no class repeats a name and descriptor.
  ghost predicate UniqueMethods(methods: seq<MethodSummary>) {
    forall i, j :: 0 <= i < j < |methods| ==> NameAndDesc(methods[i]) != NameAndDesc(methods[j])
  }

  ghost predicate KeySurvives(s: MethodStub) {
    if s.genericSignature.Some? then Splittable(s.descriptor) else PrintedShape(s.descriptor)
  }

  // Materialising returns a method whose key is the one read off the stub for exactly these stubs.
  lemma {:induction false} ShadowKeySurvives(s: MethodStub)
    ensures MaterializeMethod(s).Some? && StubShadowKey(s) == ShadowKey(MaterializeMethod(s).value) <==> KeySurvives(s)
  {
    DescSurvives(s);
  }

  ghost predicate WellFormedRef(scope: Scope, ref: ClassRef) {
    match ref
    case OverlayRef(_, _) => UniqueMethods(MethodsOf(scope, ref))
    case ArtifactRef(handle) =>
      StubOf(scope, handle).Some? ==> forall s :: s in StubOf(scope, handle).value.methods ==> KeySurvives(s)
  }

  // The reference stands for the method meant, under the key the method itself would have.
  ghost predicate Faithful(scope: Scope, s: MethodSite) {
    s.shadow == ShadowKey(s.meant) && MaterializedMethod(scope, s.ref) == Some(s.meant)
  }

  lemma {:induction false} OverlayMeant(owner: TypeRef, methods: seq<MethodSummary>, name: string)
    ensures Map(Meant, OverlaySites(owner, methods, name)) == Filter(Named(name), methods)
  {
    if methods != [] {
      OverlayMeant(owner, Front(methods), name);
      if Last(methods).name == name {
        MapSnoc(Meant, OverlaySites(owner, Front(methods), name), OverlaySite(owner, Last(methods)));
      }
    }
  }

  lemma {:induction false} IndexOfSite(owner: TypeRef, methods: seq<MethodSummary>, name: string, s: MethodSite) returns (i: nat)
    requires s in OverlaySites(owner, methods, name)
    ensures i < |methods| && s == OverlaySite(owner, methods[i])
  {
    if s in OverlaySites(owner, Front(methods), name) {
      i := IndexOfSite(owner, Front(methods), name, s);
    } else {
      i := |methods| - 1;
    }
  }

  lemma {:induction false} MethodFaithful(scope: Scope, owner: TypeRef, c: ClassMetadata, i: nat)
    requires MaterializedClass(scope, owner) == Some(c) && UniqueMethods(c.methods) && i < |c.methods|
    ensures Faithful(scope, OverlaySite(owner, c.methods[i]))
  {
    hide MaterializedClass, UniqueMethods, Desc, FirstWith;
    UniqueIsFirst(c.methods, i);
  }

  lemma {:induction false} UniqueIsFirst(methods: seq<MethodSummary>, i: nat)
    requires UniqueMethods(methods) && i < |methods|
    ensures FirstWith(NameAndDesc, methods, NameAndDesc(methods[i])) == Some(i)
  {
    FirstWithIsFirst(NameAndDesc, methods, NameAndDesc(methods[i]));
  }

  lemma {:induction false} OverlayFaithful(scope: Scope, owner: TypeRef, c: ClassMetadata, name: string)
    requires MaterializedClass(scope, owner) == Some(c) && UniqueMethods(c.methods)
    ensures forall s :: s in OverlaySites(owner, c.methods, name) ==> Faithful(scope, s)
  {
    hide Faithful, UniqueMethods, OverlaySite, OverlaySites, MaterializedClass;
    forall s | s in OverlaySites(owner, c.methods, name) ensures Faithful(scope, s) {
      var i := IndexOfSite(owner, c.methods, name, s);
      MethodFaithful(scope, owner, c, i);
    }
  }

  lemma {:induction false} StubFaithful(scope: Scope, owner: TypeRef, handle: ClassHandle, slot: nat)
    requires StubOf(scope, handle).Some? && slot < |StubOf(scope, handle).value.methods|
    requires KeySurvives(StubOf(scope, handle).value.methods[slot])
    ensures Faithful(scope, ArtifactSite(owner, handle, slot, StubOf(scope, handle).value.methods[slot]))
  {
    ShadowKeySurvives(StubOf(scope, handle).value.methods[slot]);
  }

  lemma {:induction false} ArtifactMeant(owner: TypeRef, handle: ClassHandle, stubs: seq<MethodStub>, name: string)
    ensures Map(Meant, ArtifactSites(owner, handle, stubs, name)) == Filter(Named(name), MethodsFrom(stubs))
  {
    if stubs != [] {
      assert Front(MethodsFrom(stubs)) == MethodsFrom(Front(stubs));
      ArtifactMeant(owner, handle, Front(stubs), name);
      if Last(stubs).name == name {
        MapSnoc(Meant, ArtifactSites(owner, handle, Front(stubs), name), ArtifactSite(owner, handle, |stubs| - 1, Last(stubs)));
      }
    }
  }

  lemma {:induction false} SlotOfSite(owner: TypeRef, handle: ClassHandle, stubs: seq<MethodStub>, name: string, s: MethodSite)
    returns (slot: nat)
    requires s in ArtifactSites(owner, handle, stubs, name)
    ensures slot < |stubs| && s == ArtifactSite(owner, handle, slot, stubs[slot])
  {
    if s in ArtifactSites(owner, handle, Front(stubs), name) {
      slot := SlotOfSite(owner, handle, Front(stubs), name, s);
    } else {
      slot := |stubs| - 1;
    }
  }

  lemma {:induction false} ArtifactFaithful(scope: Scope, owner: TypeRef, handle: ClassHandle, name: string)
    requires StubOf(scope, handle).Some?
    requires forall s :: s in StubOf(scope, handle).value.methods ==> KeySurvives(s)
    ensures forall s :: s in ArtifactSites(owner, handle, StubOf(scope, handle).value.methods, name) ==> Faithful(scope, s)
  {
    hide Faithful, KeySurvives, StubOf, ArtifactSite, ArtifactSites;
    var methods := StubOf(scope, handle).value.methods;
    forall s | s in ArtifactSites(owner, handle, methods, name) ensures Faithful(scope, s) {
      var slot := SlotOfSite(owner, handle, methods, name, s);
      StubFaithful(scope, owner, handle, slot);
    }
  }

  // A reference found on the walk: looking its name up leads back to it.
  ghost predicate Found(scope: Scope, ref: ClassRef) {
    NameOf(scope, ref).Some? && Best(scope, NameOf(scope, ref).value) == Some(ref)
  }

  lemma {:induction false} SitesFaithful(scope: Scope, ref: ClassRef, name: string)
    requires Found(scope, ref) && WellFormedRef(scope, ref)
    ensures Map(Meant, SitesOf(scope, ref, name)) == Filter(Named(name), MethodsOf(scope, ref))
    ensures forall s :: s in SitesOf(scope, ref, name) ==> Faithful(scope, s)
  {
    NamesAreResolvable(scope, scope.layers, NameOf(scope, ref).value);
    var owner := TypeRefOf(scope, ref).value;
    match ref
    case OverlayRef(_, _) =>
      var c := Resolve(scope, ref).value;
      OverlayMeant(owner, c.methods, name);
      OverlayFaithful(scope, owner, c, name);
    case ArtifactRef(handle) =>
      var methods := StubOf(scope, handle).value.methods;
      ArtifactMeant(owner, handle, methods, name);
      ArtifactFaithful(scope, owner, handle, name);
  }

  lemma {:induction false} MapConcat<T, U>(f: T -> U, a: seq<T>, b: seq<T>)
    ensures Map(f, a + b) == Map(f, a) + Map(f, b)
  {
  }

  lemma {:induction false} SitesAlongFaithful(scope: Scope, refs: seq<ClassRef>, name: string)
    requires forall ref :: ref in refs ==> Found(scope, ref) && WellFormedRef(scope, ref)
    ensures Map(Meant, SitesAlong(scope, refs, name)) == Filter(Named(name), MethodsMet(scope, refs))
    ensures forall s :: s in SitesAlong(scope, refs, name) ==> Faithful(scope, s)
  {
    if refs != [] {
      assert refs == Front(refs) + [Last(refs)];
      SitesAlongFaithful(scope, Front(refs), name);
      SitesFaithful(scope, Last(refs), name);
      MapConcat(Meant, SitesAlong(scope, Front(refs), name), SitesOf(scope, Last(refs), name));
      FilterConcat(Named(name), MethodsMet(scope, Front(refs)), MethodsOf(scope, Last(refs)));
    }
  }

  lemma {:induction false} WalkedRefsFound(scope: Scope, names: seq<string>)
    ensures forall ref :: ref in RefsFor(scope, names) ==> Found(scope, ref)
  {
    if names != [] {
      WalkedRefsFound(scope, Front(names));
      NamesAreResolvable(scope, scope.layers, Last(names));
    }
  }

  // Materialising the references one by one gives exactly the eagerly collected methods.
  lemma {:induction false} MethodRefsAgree(scope: Scope, class_: string, name: string)
    requires forall ref :: ref in HierarchyRefs(scope, class_) ==> WellFormedRef(scope, ref)
    ensures |MethodRefs(scope, class_, name)| == |MethodsNamed(scope, class_, name)|
    ensures forall i :: 0 <= i < |MethodRefs(scope, class_, name)| ==>
      MaterializedMethod(scope, MethodRefs(scope, class_, name)[i]) == Some(MethodsNamed(scope, class_, name)[i])
  {
    var refs := HierarchyRefs(scope, class_);
    var sites := SitesAlong(scope, refs, name);
    WalkedRefsFound(scope, HierarchyNames(scope, class_));
    SitesAlongFaithful(scope, refs, name);
    KeepFirstOfMap(Meant, ShadowKey, Shadow, sites);
    KeepFirstOfFilter(Named(name), ShadowKey, (k: (string, string)) => k.0 == name, MethodsMet(scope, refs));
    KeepFirstMembers(Shadow, sites);
    var kept := KeepFirst(Shadow, sites);
    assert MethodsNamed(scope, class_, name) == Map(Meant, kept);
    forall i | 0 <= i < |kept| ensures MaterializedMethod(scope, Map(Handed, kept)[i]) == Some(Map(Meant, kept)[i]) {
      assert kept[i] in sites;
    }
  }

  // ---- references to fields

  function NameAndType(f: FieldSummary): (string, string) { (f.name, f.descriptor) }

  function FieldStubAt(scope: Scope, handle: FieldHandle): Option<FieldStub> {
    var stub := StubOf(scope, handle.class_);
    if stub.Some? && handle.slot < |stub.value.fields| then Some(stub.value.fields[handle.slot]) else None
  }

  function MaterializedField(scope: Scope, r: FieldRef): Option<FieldSummary> {
    if r.artifact.Some? then
      var stub := FieldStubAt(scope, r.artifact.value);
      if stub.Some? then Some(MaterializeField(stub.value)) else None
    else
      var owner := MaterializedClass(scope, r.owner);
      if owner.None? then None
      else
        var i := FirstWith(NameAndType, owner.value.fields, (r.name, r.descriptor));
        if i.Some? then Some(owner.value.fields[i.value]) else None
  }

  // The field of that name a class declares, as a reference.
  function FieldRefIn(scope: Scope, ref: ClassRef, name: string): Option<FieldRef> {
    var owner := TypeRefOf(scope, ref);
    if owner.None? then None
    else match ref
      case OverlayRef(_, _) =>
        var c := Resolve(scope, ref);
        if c.None? then None
        else
          var i := FirstWith(FieldName, c.value.fields, name);
          if i.None? then None
          else
            var f := c.value.fields[i.value];
            Some(FieldRef(owner.value, f.name, f.descriptor, f.accessFlags, None))
      case ArtifactRef(handle) =>
        var stub := StubOf(scope, handle);
        if stub.None? then None
        else
          var i := FirstWith(StubFieldName, stub.value.fields, name);
          if i.None? then None
          else
            var f := stub.value.fields[i.value];
            Some(FieldRef(owner.value, f.name, f.descriptor, f.accessFlags, Some(FieldHandle(handle, i.value))))
  }

  function FirstFieldRef(scope: Scope, refs: seq<ClassRef>, name: string): Option<FieldRef> {
    if refs == [] then None
    else
      var before := FirstFieldRef(scope, Front(refs), name);
      if before.Some? then before else FieldRefIn(scope, Last(refs), name)
  }

  function FieldNamed(fields: seq<FieldSummary>, name: string): Option<FieldSummary> {
    var i := FirstWith(FieldName, fields, name);
    if i.Some? then Some(fields[i.value]) else None
  }

  lemma {:induction false} FieldNamedConcat(a: seq<FieldSummary>, b: seq<FieldSummary>, name: string)
    ensures FieldNamed(a + b, name) == if FieldNamed(a, name).Some? then FieldNamed(a, name) else FieldNamed(b, name)
  {
    if b == [] {
      assert a + b == a;
    } else {
      assert Front(a + b) == a + Front(b) && Last(a + b) == Last(b);
      FieldNamedConcat(a, Front(b), name);
    }
  }

  lemma {:induction false} FieldNamedAmongKept(fields: seq<FieldSummary>, name: string)
    ensures FieldNamed(KeepFirst(FieldName, fields), name) == FieldNamed(fields, name)
    ensures FieldNamed(fields, name).Some? <==> name in Keys(FieldName, fields)
  {
    if fields != [] {
      FieldNamedAmongKept(Front(fields), name);
      FieldNamedConcat(Front(fields), [Last(fields)], name);
      FieldNamedConcat(KeepFirst(FieldName, Front(fields)), [Last(fields)], name);
      assert fields == Front(fields) + [Last(fields)];
      assert Front([Last(fields)]) == [];
    }
  }

  lemma {:induction false} OverlayFieldAgrees(fields: seq<FieldSummary>, i: nat)
    requires i < |fields| && forall j :: 0 <= j < i ==> fields[j].name != fields[i].name
    ensures FirstWith(NameAndType, fields, NameAndType(fields[i])) == Some(i)
  {
    FirstWithIsFirst(NameAndType, fields, NameAndType(fields[i]));
  }

  lemma {:induction false} FieldRefInAgrees(scope: Scope, ref: ClassRef, name: string)
    requires Found(scope, ref)
    ensures FieldRefIn(scope, ref, name).Some? <==> FieldNamed(FieldsOf(scope, ref), name).Some?
    ensures FieldRefIn(scope, ref, name).Some? ==>
      MaterializedField(scope, FieldRefIn(scope, ref, name).value) == FieldNamed(FieldsOf(scope, ref), name)
  {
    NamesAreResolvable(scope, scope.layers, NameOf(scope, ref).value);
    match ref
    case OverlayRef(_, _) =>
      var fields := FieldsOf(scope, ref);
      FirstWithIsFirst(FieldName, fields, name);
      var i := FirstWith(FieldName, fields, name);
      if i.Some? {
        OverlayFieldAgrees(fields, i.value);
      }
    case ArtifactRef(handle) =>
      var fields := StubOf(scope, handle).value.fields;
      FirstWithSameKeys(FieldName, MaterializeFields(fields), StubFieldName, fields, name);
  }

  lemma {:induction false} FirstFieldRefAgrees(scope: Scope, refs: seq<ClassRef>, name: string)
    requires forall ref :: ref in refs ==> Found(scope, ref)
    ensures FirstFieldRef(scope, refs, name).Some? <==> FieldNamed(FieldsMet(scope, refs), name).Some?
    ensures FirstFieldRef(scope, refs, name).Some? ==>
      MaterializedField(scope, FirstFieldRef(scope, refs, name).value) == FieldNamed(FieldsMet(scope, refs), name)
  {
    if refs != [] {
      assert refs == Front(refs) + [Last(refs)];
      FirstFieldRefAgrees(scope, Front(refs), name);
      FieldRefInAgrees(scope, Last(refs), name);
      FieldNamedConcat(FieldsMet(scope, Front(refs)), FieldsOf(scope, Last(refs)), name);
    }
  }

  // Materialising the field reference gives exactly the eagerly collected field.
  lemma {:induction false} FieldRefsAgree(scope: Scope, class_: string, name: string)
    ensures var ref := FirstFieldRef(scope, HierarchyRefs(scope, class_), name);
      var field := FieldNamed(CollectedFields(scope, class_), name);
      (ref.None? && field.None?) || (ref.Some? && field.Some? && MaterializedField(scope, ref.value) == field)
  {
    WalkedRefsFound(scope, HierarchyNames(scope, class_));
    FirstFieldRefAgrees(scope, HierarchyRefs(scope, class_), name);
    FieldNamedAmongKept(FieldsMet(scope, HierarchyRefs(scope, class_)), name);
  }
}
