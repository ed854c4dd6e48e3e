// Which classes a view's inheritance walk leads to and which members it keeps, said of the fields
// of the classes and stubs themselves.
module MemberLaws {
  import opened Seqs
  import opened Rows
  import opened ClassModel
  import opened ArchiveStubs
  import opened ArtifactReader
  import opened BreadthFirst
  import opened ViewSpec
  import opened ViewLookup
  import opened ViewMembers

  // ---- edges

  // The edges of a name are those of the class or stub its best reference stands for.
  lemma {:induction false} ViewEdgesExactly(scope: Scope, n: string)
    requires n in NamesIn(scope, scope.layers)
    ensures n in ParentGraph(scope) && Best(scope, n).Some?
    ensures match Best(scope, n).value
      case OverlayRef(bucket, _) =>
        && Resolve(scope, Best(scope, n).value).Some?
        && var c := Resolve(scope, Best(scope, n).value).value;
           c in bucket && c.internalName == n && LeadTo(ParentGraph(scope)[n], c.superName, c.interfaces)
      case ArtifactRef(handle) =>
        && StubOf(scope, handle).Some?
        && var stub := StubOf(scope, handle).value;
           stub.internalName == n && LeadTo(ParentGraph(scope)[n], stub.superName, stub.interfaces)
  {
    NamesAreResolvable(scope, scope.layers, n);
    var ref := Best(scope, n).value;
    var names := ParentNames(scope, ref);
    NonEmptyIsFilter(names);
    FilterMembers(NotBlank, names);
    match ref
    case OverlayRef(bucket, name) =>
      FirstWithIsFirst(InternalName, bucket, name);
      var c := Resolve(scope, ref).value;
      ParentsSplit(c.superName, c.interfaces);
    case ArtifactRef(handle) =>
      var stub := StubOf(scope, handle).value;
      ParentsSplit(stub.superName, stub.interfaces);
  }

  lemma {:induction false} ParentsSplit(superName: Option<string>, interfaces: seq<string>)
    ensures LeadTo(NonEmpty((if superName.Some? then [superName.value] else []) + interfaces), superName, interfaces)
  {
    var first := if superName.Some? then [superName.value] else [];
    assert superName.Some? ==> Front(first) == [];
    assert Filter(NotBlank, first) == if superName.None? || superName.value == "" then [] else [superName.value];
    hide Filter, NonEmpty;
    NonEmptyIsFilter(first + interfaces);
    FilterConcat(NotBlank, first, interfaces);
    FilterMembers(NotBlank, first + interfaces);
  }

  // Nearest first, and within a depth along the edges in order.
  lemma {:induction false} ViewHierarchyByDiscovery(scope: Scope, name: string)
    ensures ByDiscovery(ParentGraph(scope), name, HierarchyNames(scope, name))
  {
    WalkIsByDiscovery(ParentGraph(scope), name);
  }

  // ---- the order of the listing

  // The names a layer lists: a bucket's classes in slot order, an archive's stubs in slot order.
  ghost function NameRow(scope: Scope, layer: Layer): seq<string> {
    match layer
    case OverlayLayer(bucket) => seq(|bucket|, i requires 0 <= i < |bucket| => bucket[i].internalName)
    case ArtifactLayer(id) =>
      var archive := scope.ArchiveOf(id);
      seq(|archive|, i requires 0 <= i < |archive| => archive[i].internalName)
  }

  ghost function NameRows(scope: Scope, layers: seq<Layer>): seq<seq<string>> {
    seq(|layers|, i requires 0 <= i < |layers| => NameRow(scope, layers[i]))
  }

  lemma {:induction false} LayerNamesInOrder(scope: Scope, layer: Layer)
    ensures NamesOf(scope, LayerRefs(scope, layer)) == NameRow(scope, layer)
  {
    LayerRefsNamed(scope, layer);
    NamesOfAll(scope, LayerRefs(scope, layer));
  }

  lemma {:induction false} AllNamesInOrder(scope: Scope, layers: seq<Layer>)
    ensures NamesOf(scope, AllRefs(scope, layers)) == Flatten(NameRows(scope, layers))
  {
    if layers != [] {
      AllNamesInOrder(scope, Front(layers));
      LayerNamesInOrder(scope, Last(layers));
      NamesOfConcat(scope, AllRefs(scope, Front(layers)), LayerRefs(scope, Last(layers)));
      assert Front(NameRows(scope, layers)) == NameRows(scope, Front(layers));
    }
  }

  // The listing names the classes layer by layer and slot by slot, each where it first appears.
  lemma {:induction false} ListingInOrder(scope: Scope)
    ensures NamesOf(scope, AllClasses(scope)) == KeepFirst(ViewLookup.Text, Flatten(NameRows(scope, scope.layers)))
  {
    AllRefsNamed(scope, scope.layers);
    MergeKeepsBest(scope, AllRefs(scope, scope.layers));
    AllNamesInOrder(scope, scope.layers);
  }

  // ---- collected members

  ghost function MethodRows(scope: Scope, refs: seq<ClassRef>): seq<seq<MethodSummary>> {
    seq(|refs|, i requires 0 <= i < |refs| => MethodsOf(scope, refs[i]))
  }

  ghost function FieldRows(scope: Scope, refs: seq<ClassRef>): seq<seq<FieldSummary>> {
    seq(|refs|, i requires 0 <= i < |refs| => FieldsOf(scope, refs[i]))
  }

  lemma {:induction false} MetIsRows(scope: Scope, refs: seq<ClassRef>)
    ensures MethodsMet(scope, refs) == Flatten(MethodRows(scope, refs))
    ensures FieldsMet(scope, refs) == Flatten(FieldRows(scope, refs))
  {
    if refs != [] {
      MetIsRows(scope, Front(refs));
      assert Front(MethodRows(scope, refs)) == MethodRows(scope, Front(refs));
      assert Front(FieldRows(scope, refs)) == FieldRows(scope, Front(refs));
    }
  }

  // Two generic signatures are compared, two descriptors are, and a signature with a descriptor.
  predicate SameText(g: Option<string>, d: string, h: Option<string>, e: string) {
    match (g, h)
    case (Some(x), Some(y)) => x == y
    case (None, None) => d == e
    case (Some(x), None) => x == e
    case (None, Some(y)) => d == y
  }

  predicate Shadows(a: MethodSummary, b: MethodSummary) {
    a.name == b.name && SameText(a.genericSignature, Desc(a), b.genericSignature, Desc(b))
  }

  predicate HidesField(a: FieldSummary, b: FieldSummary) {
    a.name == b.name
  }

  // Class by class along the walk, a method is collected exactly when none met before has its name
  // and text; a field, when none met before has its name.
  lemma {:induction false} CollectedExactly(scope: Scope, name: string) returns (methods: seq<Spot>, fields: seq<Spot>)
    ensures var refs := HierarchyRefs(scope, name);
      && KeptAt(Shadows, MethodRows(scope, refs), CollectedMethods(scope, name), methods)
      && KeptAt(HidesField, FieldRows(scope, refs), CollectedFields(scope, name), fields)
  {
    var refs := HierarchyRefs(scope, name);
    MetIsRows(scope, refs);
    methods := KeptSpots(ShadowKey, Shadows, MethodRows(scope, refs));
    fields := KeptSpots(FieldName, HidesField, FieldRows(scope, refs));
  }

  // Looking a name up selects the collected methods of that name, and the collected field of that
  // name, of which there is at most one.
  lemma {:induction false} LookedUpExactly(scope: Scope, class_: string, name: string)
    ensures forall m :: m in MethodsNamed(scope, class_, name) <==> m in CollectedMethods(scope, class_) && m.name == name
    ensures match FieldNamed(CollectedFields(scope, class_), name)
      case Some(f) => f in CollectedFields(scope, class_) && f.name == name
      case None => forall f :: f in CollectedFields(scope, class_) ==> f.name != name
  {
    FilterMembers(Named(name), CollectedMethods(scope, class_));
    FirstWithIsFirst(FieldName, CollectedFields(scope, class_), name);
  }

  // ---- references to methods

  // A method as its class or stub declares it, and the reference to it.
  datatype Declared = Declared(name: string, generic: Option<string>, descriptor: string, ref: MethodRef)

  ghost function DeclaredIn(scope: Scope, ref: ClassRef): seq<Declared> {
    match ref
    case OverlayRef(_, owner) =>
      var methods := MethodsOf(scope, ref);
      seq(|methods|, i requires 0 <= i < |methods| =>
        Declared(methods[i].name, methods[i].genericSignature, Desc(methods[i]),
          MethodRef(SourceType(owner), methods[i].name, Desc(methods[i]), methods[i].accessFlags, None)))
    case ArtifactRef(handle) =>
      var stub := StubOf(scope, handle);
      if stub.None? then []
      else
        var stubs := stub.value.methods;
        seq(|stubs|, i requires 0 <= i < |stubs| =>
          Declared(stubs[i].name, stubs[i].genericSignature, stubs[i].descriptor,
            MethodRef(ArtifactType(stub.value.internalName, handle), stubs[i].name, stubs[i].descriptor, stubs[i].accessFlags,
              Some(MethodHandle(handle, i)))))
  }

  ghost function DeclaredRows(scope: Scope, refs: seq<ClassRef>): seq<seq<Declared>> {
    seq(|refs|, i requires 0 <= i < |refs| => DeclaredIn(scope, refs[i]))
  }

  predicate ShadowsRef(a: Declared, b: Declared) {
    a.name == b.name && SameText(a.generic, a.descriptor, b.generic, b.descriptor)
  }

  function RefNamed(name: string): Declared -> bool {
    (d: Declared) => d.name == name
  }

  function ReferenceOf(d: Declared): MethodRef { d.ref }

  function TextKey(d: Declared): (string, string) {
    (d.name, if d.generic.Some? then d.generic.value else d.descriptor)
  }

  // Sites and declarations in step: the same keys and the same references.
  ghost predicate InStep(sites: seq<MethodSite>, declared: seq<Declared>) {
    |sites| == |declared| && forall i :: 0 <= i < |sites| ==> sites[i].shadow == TextKey(declared[i]) && sites[i].ref == declared[i].ref
  }

  lemma {:induction false} OverlayInStep(owner: TypeRef, methods: seq<MethodSummary>, declared: seq<Declared>, name: string)
    requires |declared| == |methods| && forall i :: 0 <= i < |methods| ==>
      declared[i] == Declared(methods[i].name, methods[i].genericSignature, Desc(methods[i]),
        MethodRef(owner, methods[i].name, Desc(methods[i]), methods[i].accessFlags, None))
    ensures InStep(OverlaySites(owner, methods, name), Filter(RefNamed(name), declared))
  {
    hide Desc;
    if methods != [] {
      OverlayInStep(owner, Front(methods), Front(declared), name);
    }
  }

  lemma {:induction false} ArtifactInStep(owner: TypeRef, handle: ClassHandle, stubs: seq<MethodStub>, declared: seq<Declared>, name: string)
    requires |declared| == |stubs| && forall i :: 0 <= i < |stubs| ==>
      declared[i] == Declared(stubs[i].name, stubs[i].genericSignature, stubs[i].descriptor,
        MethodRef(owner, stubs[i].name, stubs[i].descriptor, stubs[i].accessFlags, Some(MethodHandle(handle, i))))
    ensures InStep(ArtifactSites(owner, handle, stubs, name), Filter(RefNamed(name), declared))
  {
    hide MethodOf;
    if stubs != [] {
      ArtifactInStep(owner, handle, Front(stubs), Front(declared), name);
    }
  }

  lemma {:induction false} ClassInStep(scope: Scope, ref: ClassRef, name: string)
    ensures InStep(SitesOf(scope, ref, name), Filter(RefNamed(name), DeclaredIn(scope, ref)))
  {
    hide InStep, OverlaySites, ArtifactSites, Desc;
    match ref
    case OverlayRef(_, owner) =>
      if Resolve(scope, ref).Some? {
        OverlayInStep(SourceType(owner), MethodsOf(scope, ref), DeclaredIn(scope, ref), name);
      } else {
        assert DeclaredIn(scope, ref) == [];
        NothingInStep(name);
      }
    case ArtifactRef(handle) =>
      var stub := StubOf(scope, handle);
      if stub.Some? {
        ArtifactInStep(ArtifactType(stub.value.internalName, handle), handle, stub.value.methods, DeclaredIn(scope, ref), name);
      } else {
        NothingInStep(name);
      }
  }

  lemma NothingInStep(name: string)
    ensures InStep([], Filter(RefNamed(name), []))
  {
  }

  lemma {:induction false} BothInStep(a: seq<MethodSite>, d: seq<Declared>, b: seq<MethodSite>, e: seq<Declared>)
    requires InStep(a, d) && InStep(b, e)
    ensures InStep(a + b, d + e)
  {
  }

  lemma {:induction false} WalkInStep(scope: Scope, refs: seq<ClassRef>, name: string)
    ensures InStep(SitesAlong(scope, refs, name), Filter(RefNamed(name), Flatten(DeclaredRows(scope, refs))))
  {
    hide InStep, SitesOf, DeclaredIn, RefNamed, Filter;
    if refs == [] {
      NothingInStep(name);
    } else {
      var before, last := Flatten(DeclaredRows(scope, Front(refs))), DeclaredIn(scope, Last(refs));
      WalkInStep(scope, Front(refs), name);
      ClassInStep(scope, Last(refs), name);
      assert Front(DeclaredRows(scope, refs)) == DeclaredRows(scope, Front(refs));
      FilterConcat(RefNamed(name), before, last);
      BothInStep(SitesAlong(scope, Front(refs), name), Filter(RefNamed(name), before), SitesOf(scope, Last(refs), name), Filter(RefNamed(name), last));
    }
  }

  lemma {:induction false} KeptInStep(sites: seq<MethodSite>, declared: seq<Declared>)
    requires InStep(sites, declared)
    ensures Keys(Shadow, sites) == Keys(TextKey, declared)
    ensures Map(Handed, KeepFirst(Shadow, sites)) == Map(ReferenceOf, KeepFirst(TextKey, declared))
  {
    if sites != [] {
      KeptInStep(Front(sites), Front(declared));
      MapSnoc(Handed, KeepFirst(Shadow, Front(sites)), Last(sites));
      MapSnoc(ReferenceOf, KeepFirst(TextKey, Front(declared)), Last(declared));
    }
  }

  // The references handed out are those of the declarations of that name that are kept, and of all
  // declarations met on the walk one is kept exactly when none met before has its name and text,
  // read off the method of a source class and off the stub of an archive class.
  lemma {:induction false} MethodRefsExactly(scope: Scope, class_: string, name: string)
    returns (kept: seq<Declared>, spots: seq<Spot>)
    ensures KeptAt(ShadowsRef, DeclaredRows(scope, HierarchyRefs(scope, class_)), kept, spots)
    ensures MethodRefs(scope, class_, name) == Map(ReferenceOf, Filter(RefNamed(name), kept))
  {
    var refs := HierarchyRefs(scope, class_);
    var rows := DeclaredRows(scope, refs);
    kept := KeepFirst(TextKey, Flatten(rows));
    spots := KeptSpots(TextKey, ShadowsRef, rows);
    WalkInStep(scope, refs, name);
    KeptInStep(SitesAlong(scope, refs, name), Filter(RefNamed(name), Flatten(rows)));
    KeepFirstOfFilter(RefNamed(name), TextKey, (k: (string, string)) => k.0 == name, Flatten(rows));
  }

  // ---- references to fields

  ghost predicate DeclaresFieldAt(scope: Scope, ref: ClassRef, name: string, slot: nat) {
    && slot < |FieldsOf(scope, ref)| && FieldsOf(scope, ref)[slot].name == name
    && forall j :: 0 <= j < slot ==> FieldsOf(scope, ref)[j].name != name
  }

  // What a reference to the field in a slot of a class says.
  ghost predicate RefersTo(scope: Scope, ref: ClassRef, slot: nat, r: FieldRef) {
    && slot < |FieldsOf(scope, ref)|
    && var f := FieldsOf(scope, ref)[slot];
       && r.name == f.name && r.descriptor == f.descriptor && r.accessFlags == f.accessFlags
       && match ref
          case OverlayRef(_, owner) => r.owner == SourceType(owner) && r.artifact == None
          case ArtifactRef(handle) =>
            && NameOf(scope, ref).Some?
            && r.owner == ArtifactType(NameOf(scope, ref).value, handle) && r.artifact == Some(FieldHandle(handle, slot))
  }

  lemma {:induction false} FieldRefInExactly(scope: Scope, ref: ClassRef, name: string)
    requires Found(scope, ref)
    ensures FieldRefIn(scope, ref, name).None? <==> forall slot: nat :: !DeclaresFieldAt(scope, ref, name, slot)
    ensures FieldRefIn(scope, ref, name).Some? ==>
      exists slot: nat :: DeclaresFieldAt(scope, ref, name, slot) && RefersTo(scope, ref, slot, FieldRefIn(scope, ref, name).value)
  {
    NamesAreResolvable(scope, scope.layers, NameOf(scope, ref).value);
    match ref
    case OverlayRef(_, _) =>
      var fields := FieldsOf(scope, ref);
      FirstWithIsFirst(FieldName, fields, name);
      var i := FirstWith(FieldName, fields, name);
      assert i.Some? ==> DeclaresFieldAt(scope, ref, name, i.value);
    case ArtifactRef(handle) =>
      var fields := StubOf(scope, handle).value.fields;
      FirstWithIsFirst(StubFieldName, fields, name);
      var i := FirstWith(StubFieldName, fields, name);
      assert forall j :: 0 <= j < |fields| ==> FieldsOf(scope, ref)[j].name == fields[j].name;
      assert i.Some? ==> DeclaresFieldAt(scope, ref, name, i.value);
  }

  ghost predicate NoneBefore(scope: Scope, refs: seq<ClassRef>, name: string, i: nat) {
    i <= |refs| && forall j: nat, slot: nat :: j < i ==> !DeclaresFieldAt(scope, refs[j], name, slot)
  }

  // The reference handed out is to the first class met that declares the field, to the first slot
  // there, with that field's own name, type and flags; none only when no class met declares it.
  lemma {:induction false} FieldRefExactly(scope: Scope, refs: seq<ClassRef>, name: string)
    requires forall ref :: ref in refs ==> Found(scope, ref)
    ensures FirstFieldRef(scope, refs, name).None? <==> NoneBefore(scope, refs, name, |refs|)
    ensures FirstFieldRef(scope, refs, name).Some? ==> exists i: nat, slot: nat ::
      i < |refs| && NoneBefore(scope, refs, name, i) && DeclaresFieldAt(scope, refs[i], name, slot)
      && RefersTo(scope, refs[i], slot, FirstFieldRef(scope, refs, name).value)
  {
    if refs != [] {
      hide DeclaresFieldAt, RefersTo, FieldRefIn, Found;
      var front, last := Front(refs), Last(refs);
      assert refs == front + [last];
      FieldRefExactly(scope, front, name);
      FieldRefInExactly(scope, last, name);
      if FirstFieldRef(scope, front, name).Some? {
        var i: nat, slot: nat :| i < |front| && NoneBefore(scope, front, name, i) && DeclaresFieldAt(scope, front[i], name, slot)
          && RefersTo(scope, front[i], slot, FirstFieldRef(scope, front, name).value);
        assert refs[i] == front[i] && NoneBefore(scope, refs, name, i);
      } else {
        assert NoneBefore(scope, refs, name, |front|);
      }
    }
  }

  // ---- projected classes

  // One projected class for every class met, its own but for the members that are hidden.
  lemma {:induction false} ProjectedEach(scope: Scope, refs: seq<ClassRef>)
    requires forall ref :: ref in refs ==> Resolve(scope, ref).Some?
    ensures |Projected(scope, refs)| == |refs|
    ensures forall i :: 0 <= i < |refs| ==>
      var c, p := Resolve(scope, refs[i]).value, Projected(scope, refs)[i];
      && p == c.(methods := p.methods, fields := p.fields)
      && (forall m :: m in p.methods ==> m in c.methods) && (forall f :: f in p.fields ==> f in c.fields)
  {
    if refs != [] {
      assert refs == Front(refs) + [Last(refs)];
      ProjectedEach(scope, Front(refs));
      var c := Resolve(scope, Last(refs)).value;
      UnseenMembers(ShadowKey, MethodsMet(scope, Front(refs)), c.methods);
      UnseenMembers(FieldName, FieldsMet(scope, Front(refs)), c.fields);
    }
  }

  lemma {:induction false} UnseenMembers<T(!new), K>(key: T -> K, before: seq<T>, items: seq<T>)
    ensures forall x :: x in Unseen(key, before, items) ==> x in items
  {
    if items != [] {
      UnseenMembers(key, before, Front(items));
      assert items == Front(items) + [Last(items)];
    }
  }
}
