// A frozen scope: layers of buckets and archives in visibility order, and which class each
// name stands for in it.
module ViewSpec {
  import opened Seqs
  import opened ClassModel
  import opened ArchiveStubs
  import opened ArtifactReader
  import opened BreadthFirst

  // A bucket nobody is editing: its classes in slot order.
  type FrozenBucket = seq<ClassMetadata>

  datatype Layer = OverlayLayer(bucket: FrozenBucket) | ArtifactLayer(id: nat)

  // An artifact without an archive answers like an empty one.
  datatype Scope = Scope(layers: seq<Layer>, archives: map<nat, Archive>) {
    function ArchiveOf(id: nat): Archive {
      if id in archives then archives[id] else []
    }
  }

  datatype ClassRef = OverlayRef(bucket: FrozenBucket, internalName: string) | ArtifactRef(handle: ClassHandle)

  function InternalName(c: ClassMetadata): string { c.internalName }

  function BucketClass(bucket: FrozenBucket, name: string): (c: Option<ClassMetadata>)
    ensures c.Some? ==> c.value.internalName == name
  {
    var i := FirstWith(InternalName, bucket, name);
    if i.Some? then Some(bucket[i.value]) else None
  }

  function StubOf(scope: Scope, handle: ClassHandle): Option<ClassStub> {
    StubAt(handle.artifact, scope.ArchiveOf(handle.artifact), handle)
  }

  function Resolve(scope: Scope, ref: ClassRef): Option<ClassMetadata> {
    match ref
    case OverlayRef(bucket, name) => BucketClass(bucket, name)
    case ArtifactRef(handle) =>
      var stub := StubOf(scope, handle);
      if stub.Some? then Some(ClassOf(stub.value)) else None
  }

  function NameOf(scope: Scope, ref: ClassRef): Option<string> {
    match ref
    case OverlayRef(_, name) => Some(name)
    case ArtifactRef(handle) =>
      var stub := StubOf(scope, handle);
      if stub.Some? then Some(stub.value.internalName) else None
  }

  function OriginPrecedence(origin: ClassOrigin): nat {
    if origin.SourceFile? then 2 else 1
  }

  function Precedence(scope: Scope, ref: ClassRef): nat {
    match ref
    case OverlayRef(bucket, name) =>
      var c := BucketClass(bucket, name);
      if c.Some? then OriginPrecedence(c.value.origin) else 0
    case ArtifactRef(handle) =>
      var stub := StubOf(scope, handle);
      if stub.Some? then OriginPrecedence(stub.value.origin) else 0
  }

  function ParentNames(scope: Scope, ref: ClassRef): seq<string> {
    match ref
    case OverlayRef(bucket, name) =>
      var c := BucketClass(bucket, name);
      if c.None? then [] else (if c.value.superName.Some? then [c.value.superName.value] else []) + c.value.interfaces
    case ArtifactRef(handle) =>
      var stub := StubOf(scope, handle);
      if stub.None? then []
      else (if stub.value.superName.Some? then [stub.value.superName.value] else []) + stub.value.interfaces
  }

  // ---- one layer

  function LayerRef(scope: Scope, layer: Layer, name: string): Option<ClassRef> {
    match layer
    case OverlayLayer(bucket) => if BucketClass(bucket, name).Some? then Some(OverlayRef(bucket, name)) else None
    case ArtifactLayer(id) =>
      var handle := HandleNamed(id, scope.ArchiveOf(id), name);
      if handle.Some? then Some(ArtifactRef(handle.value)) else None
  }

  function LayerRefs(scope: Scope, layer: Layer): seq<ClassRef> {
    match layer
    case OverlayLayer(bucket) => seq(|bucket|, i requires 0 <= i < |bucket| => OverlayRef(bucket, bucket[i].internalName))
    case ArtifactLayer(id) => seq(|scope.ArchiveOf(id)|, i requires 0 <= i => ArtifactRef(ClassHandle(id, i)))
  }

  function LayerNames(scope: Scope, layer: Layer): set<string> {
    match layer
    case OverlayLayer(bucket) => set c | c in bucket :: c.internalName
    case ArtifactLayer(id) => set stub | stub in scope.ArchiveOf(id) :: stub.internalName
  }

  // Buckets never hold a name twice; archives are assumed not to.
  ghost predicate DistinctLayer(scope: Scope, layer: Layer) {
    match layer
    case OverlayLayer(bucket) => forall i, j :: 0 <= i < j < |bucket| ==> bucket[i].internalName != bucket[j].internalName
    case ArtifactLayer(id) => DistinctNames(scope.ArchiveOf(id))
  }

  ghost predicate DistinctScope(scope: Scope) {
    forall layer :: layer in scope.layers ==> DistinctLayer(scope, layer)
  }

  lemma {:induction false} LayerRefResolves(scope: Scope, layer: Layer, name: string)
    ensures LayerRef(scope, layer, name).Some? <==> name in LayerNames(scope, layer)
    ensures LayerRef(scope, layer, name).Some? ==>
      var ref := LayerRef(scope, layer, name).value;
      NameOf(scope, ref) == Some(name) && Resolve(scope, ref).Some? && Resolve(scope, ref).value.internalName == name
      && Precedence(scope, ref) == OriginPrecedence(Resolve(scope, ref).value.origin) > 0
  {
    match layer
    case OverlayLayer(bucket) =>
      FirstWithIsFirst(InternalName, bucket, name);
      if name in LayerNames(scope, layer) {
        var c :| c in bucket && c.internalName == name;
      }
    case ArtifactLayer(id) =>
      LastNamedIsLast(scope.ArchiveOf(id), name);
      if name in LayerNames(scope, layer) {
        var stub :| stub in scope.ArchiveOf(id) && stub.internalName == name;
      }
  }

  // ---- all layers

  function Choose(scope: Scope, current: Option<ClassRef>, candidate: Option<ClassRef>): Option<ClassRef> {
    if candidate.None? then current
    else if current.None? || Precedence(scope, candidate.value) > Precedence(scope, current.value) then candidate
    else current
  }

  function BestIn(scope: Scope, layers: seq<Layer>, name: string): Option<ClassRef> {
    if layers == [] then None
    else Choose(scope, BestIn(scope, Front(layers), name), LayerRef(scope, Last(layers), name))
  }

  function Best(scope: Scope, name: string): Option<ClassRef> {
    BestIn(scope, scope.layers, name)
  }

  function ClassNamed(scope: Scope, name: string): Option<ClassMetadata> {
    var ref := Best(scope, name);
    if ref.Some? then Resolve(scope, ref.value) else None
  }

  function NamesIn(scope: Scope, layers: seq<Layer>): set<string> {
    if layers == [] then {} else NamesIn(scope, Front(layers)) + LayerNames(scope, Last(layers))
  }

  ghost predicate Offers(scope: Scope, layers: seq<Layer>, i: nat, name: string, ref: ClassRef) {
    i < |layers| && LayerRef(scope, layers[i], name) == Some(ref)
  }

  // The highest origin precedence wins, and among equals the earliest layer.
  ghost predicate Wins(scope: Scope, layers: seq<Layer>, name: string, i: nat, ref: ClassRef) {
    && Offers(scope, layers, i, name, ref)
    && (forall j: nat, other :: Offers(scope, layers, j, name, other) ==>
         Precedence(scope, other) <= Precedence(scope, ref) && (j < i ==> Precedence(scope, other) < Precedence(scope, ref)))
  }

  lemma {:induction false} BestWins(scope: Scope, layers: seq<Layer>, name: string)
    ensures BestIn(scope, layers, name).None? <==> forall i: nat, ref :: !Offers(scope, layers, i, name, ref)
    ensures BestIn(scope, layers, name).Some? ==> exists i: nat :: Wins(scope, layers, name, i, BestIn(scope, layers, name).value)
  {
    if layers != [] {
      var front := Front(layers);
      BestWins(scope, front, name);
      forall j: nat, other ensures Offers(scope, layers, j, name, other) <==>
        Offers(scope, front, j, name, other) || (j == |front| && LayerRef(scope, Last(layers), name) == Some(other))
      {
      }
      var last := LayerRef(scope, Last(layers), name);
      if last.Some? && BestIn(scope, layers, name) == last && BestIn(scope, front, name) != last {
        if BestIn(scope, front, name).Some? {
          var i: nat :| Wins(scope, front, name, i, BestIn(scope, front, name).value);
        }
        assert Wins(scope, layers, name, |front|, last.value);
      } else if BestIn(scope, front, name).Some? {
        var i: nat :| Wins(scope, front, name, i, BestIn(scope, front, name).value);
        assert Wins(scope, layers, name, i, BestIn(scope, front, name).value);
      }
    }
  }

  lemma {:induction false} NamesAreResolvable(scope: Scope, layers: seq<Layer>, name: string)
    ensures name in NamesIn(scope, layers) <==> BestIn(scope, layers, name).Some?
    ensures BestIn(scope, layers, name).Some? ==>
      var ref := BestIn(scope, layers, name).value;
      NameOf(scope, ref) == Some(name) && Resolve(scope, ref).Some? && Resolve(scope, ref).value.internalName == name
  {
    if layers != [] {
      NamesAreResolvable(scope, Front(layers), name);
      LayerRefResolves(scope, Last(layers), name);
    }
  }

  lemma {:induction false} BestConcat(scope: Scope, a: seq<Layer>, b: seq<Layer>, name: string)
    ensures BestIn(scope, a + b, name) == Choose(scope, BestIn(scope, a, name), BestIn(scope, b, name))
  {
    if b == [] {
      assert a + b == a;
    } else {
      assert Front(a + b) == a + Front(b);
      BestConcat(scope, a, Front(b), name);
    }
  }

  // A prepended overlay answers for its own names, unless its class is no source file and
  // another layer has a source file of that name.
  lemma {:induction false} PrependedOverlay(scope: Scope, bucket: FrozenBucket, name: string)
    ensures var with_ := scope.(layers := [OverlayLayer(bucket)] + scope.layers);
      Best(with_, name) ==
        if BucketClass(bucket, name).None? then Best(scope, name)
        else if BucketClass(bucket, name).value.origin.SourceFile? || ClassNamed(scope, name).None?
          || !ClassNamed(scope, name).value.origin.SourceFile?
        then Some(OverlayRef(bucket, name))
        else Best(scope, name)
  {
    var with_ := scope.(layers := [OverlayLayer(bucket)] + scope.layers);
    BestConcat(with_, [OverlayLayer(bucket)], scope.layers, name);
    assert Front([OverlayLayer(bucket)]) == [];
    SameArchives(scope, with_, scope.layers, name);
    NamesAreResolvable(scope, scope.layers, name);
  }

  // What a scope answers depends on its layers and archives only.
  lemma {:induction false} SameArchives(a: Scope, b: Scope, layers: seq<Layer>, name: string)
    requires a.archives == b.archives
    ensures BestIn(a, layers, name) == BestIn(b, layers, name)
    ensures NamesIn(a, layers) == NamesIn(b, layers)
  {
    if layers != [] {
      SameArchives(a, b, Front(layers), name);
      SameLayer(a, b, Last(layers), name);
    }
  }

  lemma {:induction false} SameLayer(a: Scope, b: Scope, layer: Layer, name: string)
    requires a.archives == b.archives
    ensures LayerRef(a, layer, name) == LayerRef(b, layer, name) && LayerNames(a, layer) == LayerNames(b, layer)
  {
  }

  // ---- merging what every layer lists

  function Position(scope: Scope, refs: seq<ClassRef>, name: string): (i: Option<nat>)
    ensures i.Some? ==> i.value < |refs| && NameOf(scope, refs[i.value]) == Some(name)
  {
    FirstWith(ref => NameOf(scope, ref), refs, Some(name))
  }

  function AddRef(scope: Scope, merged: seq<ClassRef>, ref: ClassRef): seq<ClassRef> {
    var key := NameOf(scope, ref);
    if key.None? then merged
    else
      var existing := Position(scope, merged, key.value);
      if existing.None? then merged + [ref]
      else if Precedence(scope, ref) > Precedence(scope, merged[existing.value]) then merged[existing.value := ref]
      else merged
  }

  function MergedRefs(scope: Scope, refs: seq<ClassRef>): seq<ClassRef> {
    if refs == [] then [] else AddRef(scope, MergedRefs(scope, Front(refs)), Last(refs))
  }

  function BestAmong(scope: Scope, refs: seq<ClassRef>, name: string): Option<ClassRef> {
    if refs == [] then None
    else Choose(scope, BestAmong(scope, Front(refs), name), if NameOf(scope, Last(refs)) == Some(name) then Some(Last(refs)) else None)
  }

  function NamesOf(scope: Scope, refs: seq<ClassRef>): seq<string> {
    if refs == [] then []
    else NamesOf(scope, Front(refs)) + (if NameOf(scope, Last(refs)).Some? then [NameOf(scope, Last(refs)).value] else [])
  }

  function AllRefs(scope: Scope, layers: seq<Layer>): seq<ClassRef> {
    if layers == [] then [] else AllRefs(scope, Front(layers)) + LayerRefs(scope, Last(layers))
  }

  // ---- inheritance

  ghost function ParentsOf(scope: Scope, name: string): seq<string> {
    var ref := Best(scope, name);
    if ref.Some? then NonEmpty(ParentNames(scope, ref.value)) else []
  }

  ghost function ParentGraph(scope: Scope): map<string, seq<string>> {
    map n | n in NamesIn(scope, scope.layers) :: ParentsOf(scope, n)
  }

  ghost function HierarchyNames(scope: Scope, name: string): seq<string> {
    Walk(ParentGraph(scope), [name], {})
  }

  ghost function RefsFor(scope: Scope, names: seq<string>): seq<ClassRef> {
    if names == [] then []
    else RefsFor(scope, Front(names)) + (if Best(scope, Last(names)).Some? then [Best(scope, Last(names)).value] else [])
  }

  ghost function HierarchyRefs(scope: Scope, name: string): seq<ClassRef> {
    RefsFor(scope, HierarchyNames(scope, name))
  }
}
