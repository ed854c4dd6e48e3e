// Listing every class of a scope and looking one up by name agree, whatever the layers repeat.
module ViewLookup {
  import opened Seqs
  import opened ClassModel
  import opened ArchiveStubs
  import opened ArtifactReader
  import opened BreadthFirst
  import opened ViewSpec

  function Text(n: string): string { n }

  ghost predicate AllNamed(scope: Scope, refs: seq<ClassRef>) {
    forall i :: 0 <= i < |refs| ==> NameOf(scope, refs[i]).Some?
  }

  lemma {:induction false} NamesOfAll(scope: Scope, refs: seq<ClassRef>)
    requires AllNamed(scope, refs)
    ensures |NamesOf(scope, refs)| == |refs|
    ensures forall i :: 0 <= i < |refs| ==> NameOf(scope, refs[i]) == Some(NamesOf(scope, refs)[i])
  {
    if refs != [] {
      NamesOfAll(scope, Front(refs));
    }
  }

  lemma {:induction false} NamesOfConcat(scope: Scope, a: seq<ClassRef>, b: seq<ClassRef>)
    ensures NamesOf(scope, a + b) == NamesOf(scope, a) + NamesOf(scope, b)
  {
    if b == [] {
      assert a + b == a;
    } else {
      assert Front(a + b) == a + Front(b) && Last(a + b) == Last(b);
      NamesOfConcat(scope, a, Front(b));
    }
  }

  lemma {:induction false} BestAmongConcat(scope: Scope, a: seq<ClassRef>, b: seq<ClassRef>, name: string)
    ensures BestAmong(scope, a + b, name) == Choose(scope, BestAmong(scope, a, name), BestAmong(scope, b, name))
  {
    if b == [] {
      assert a + b == a;
    } else {
      assert Front(a + b) == a + Front(b) && Last(a + b) == Last(b);
      BestAmongConcat(scope, a, Front(b), name);
    }
  }

  // The merged list so far: the offered names in order of first appearance, each standing
  // for the best reference offered under it.
  ghost predicate MergeInvariant(scope: Scope, refs: seq<ClassRef>, merged: seq<ClassRef>) {
    && AllNamed(scope, merged)
    && NamesOf(scope, merged) == KeepFirst(Text, NamesOf(scope, refs))
    && (forall i :: 0 <= i < |merged| ==> BestAmong(scope, refs, NameOf(scope, merged[i]).value) == Some(merged[i]))
    && (forall n :: BestAmong(scope, refs, n).Some? ==> n in NamesOf(scope, refs))
  }

  lemma {:induction false} PositionFinds(scope: Scope, refs: seq<ClassRef>, name: string)
    requires AllNamed(scope, refs)
    ensures Position(scope, refs, name).Some? <==> name in NamesOf(scope, refs)
  {
    NamesOfAll(scope, refs);
    FirstWithIsFirst(ref => NameOf(scope, ref), refs, Some(name));
  }

  lemma {:induction false} NamesKept(scope: Scope, merged: seq<ClassRef>, i: nat, ref: ClassRef)
    requires AllNamed(scope, merged) && i < |merged| && NameOf(scope, ref) == NameOf(scope, merged[i])
    ensures AllNamed(scope, merged[i := ref])
    ensures NamesOf(scope, merged[i := ref]) == NamesOf(scope, merged)
  {
    NamesOfAll(scope, merged);
    NamesOfAll(scope, merged[i := ref]);
    forall k | 0 <= k < |merged| ensures NamesOf(scope, merged[i := ref])[k] == NamesOf(scope, merged)[k] {
      assert NameOf(scope, merged[i := ref][k]) == NameOf(scope, merged[k]);
    }
  }

  lemma {:induction false} KeepFirstMembership(names: seq<string>)
    ensures forall n :: n in KeepFirst(Text, names) <==> n in names
    ensures Keys(Text, names) == set n | n in names
    ensures NoDup(KeepFirst(Text, names))
  {
    KeysMembers(Text, names);
    KeepFirstMembers(Text, names);
    KeepFirstKeys(Text, names);
    KeysMembers(Text, KeepFirst(Text, names));
    forall n | n in names ensures n in KeepFirst(Text, names) {
      assert Text(n) in Keys(Text, KeepFirst(Text, names));
    }
    forall n | n in Keys(Text, names) ensures n in names {
      var m :| m in names && Text(m) == n;
    }
    forall n | n in names ensures n in Keys(Text, names) {
      assert Text(n) in Keys(Text, names);
    }
  }

  lemma {:induction false} BestWithOneMore(scope: Scope, refs: seq<ClassRef>, ref: ClassRef, n: string)
    ensures BestAmong(scope, refs + [ref], n)
      == if NameOf(scope, ref) == Some(n) then Choose(scope, BestAmong(scope, refs, n), Some(ref)) else BestAmong(scope, refs, n)
  {
    assert Front(refs + [ref]) == refs;
  }

  lemma {:induction false} NamesWithOneMore(scope: Scope, refs: seq<ClassRef>, ref: ClassRef)
    requires NameOf(scope, ref).Some?
    ensures NamesOf(scope, refs + [ref]) == NamesOf(scope, refs) + [NameOf(scope, ref).value]
  {
    assert Front(refs + [ref]) == refs;
  }

  lemma {:induction false} AddNew(scope: Scope, refs: seq<ClassRef>, merged: seq<ClassRef>, ref: ClassRef)
    requires MergeInvariant(scope, refs, merged)
    requires NameOf(scope, ref).Some? && NameOf(scope, ref).value !in NamesOf(scope, refs)
    ensures MergeInvariant(scope, refs + [ref], merged + [ref])
  {
    hide NameOf, NamesOf, BestAmong, KeepFirst, Keys;
    var name := NameOf(scope, ref).value;
    NamesWithOneMore(scope, refs, ref);
    NamesWithOneMore(scope, merged, ref);
    KeepFirstMembership(NamesOf(scope, refs));
    KeepFirstSnoc(Text, NamesOf(scope, refs), name);
    NamesOfAll(scope, merged);
    forall i | 0 <= i < |merged| ensures NameOf(scope, merged[i]) != Some(name) {
      assert NamesOf(scope, merged)[i] in NamesOf(scope, merged);
    }
    forall n ensures BestAmong(scope, refs + [ref], n) == if n == name then Some(ref) else BestAmong(scope, refs, n) {
      BestWithOneMore(scope, refs, ref, n);
    }
  }

  function Replaced(scope: Scope, merged: seq<ClassRef>, i: nat, ref: ClassRef): seq<ClassRef>
    requires i < |merged|
  {
    if Precedence(scope, ref) > Precedence(scope, merged[i]) then merged[i := ref] else merged
  }

  lemma {:induction false} KnownAt(scope: Scope, merged: seq<ClassRef>, ref: ClassRef) returns (i: nat)
    requires AllNamed(scope, merged) && NameOf(scope, ref).Some? && NameOf(scope, ref).value in NamesOf(scope, merged)
    ensures i < |merged| && NameOf(scope, merged[i]) == NameOf(scope, ref)
    ensures AddRef(scope, merged, ref) == Replaced(scope, merged, i, ref)
  {
    PositionFinds(scope, merged, NameOf(scope, ref).value);
    i := Position(scope, merged, NameOf(scope, ref).value).value;
  }

  lemma {:induction false} ReplacedIsBest(scope: Scope, refs: seq<ClassRef>, merged: seq<ClassRef>, ref: ClassRef, i: nat, k: nat)
    requires MergeInvariant(scope, refs, merged)
    requires i < |merged| && NameOf(scope, merged[i]) == NameOf(scope, ref) && k < |merged|
    ensures var after := Replaced(scope, merged, i, ref);
      NameOf(scope, after[k]).Some? && BestAmong(scope, refs + [ref], NameOf(scope, after[k]).value) == Some(after[k])
  {
    BestWithOneMore(scope, refs, ref, NameOf(scope, merged[k]).value);
    if k != i {
      NamesOfAll(scope, merged);
      KeepFirstMembership(NamesOf(scope, refs));
      assert NamesOf(scope, merged)[k] != NamesOf(scope, merged)[i];
    }
  }

  lemma {:induction false} AddKnown(scope: Scope, refs: seq<ClassRef>, merged: seq<ClassRef>, ref: ClassRef)
    requires MergeInvariant(scope, refs, merged)
    requires NameOf(scope, ref).Some? && NameOf(scope, ref).value in NamesOf(scope, refs)
    ensures MergeInvariant(scope, refs + [ref], AddRef(scope, merged, ref))
  {
    assert Front(refs + [ref]) == refs;
    var name, after := NameOf(scope, ref).value, AddRef(scope, merged, ref);
    KeepFirstMembership(NamesOf(scope, refs));
    var i := KnownAt(scope, merged, ref);
    assert Front(NamesOf(scope, refs) + [name]) == NamesOf(scope, refs);
    NamesKept(scope, merged, i, ref);
    forall k | 0 <= k < |after| ensures BestAmong(scope, refs + [ref], NameOf(scope, after[k]).value) == Some(after[k]) {
      ReplacedIsBest(scope, refs, merged, ref, i, k);
    }
    forall n | BestAmong(scope, refs + [ref], n).Some? ensures n in NamesOf(scope, refs + [ref]) {
      BestWithOneMore(scope, refs, ref, n);
    }
  }

  lemma {:induction false} MergeKeepsBest(scope: Scope, refs: seq<ClassRef>)
    requires AllNamed(scope, refs)
    ensures MergeInvariant(scope, refs, MergedRefs(scope, refs))
  {
    if refs != [] {
      MergeKeepsBest(scope, Front(refs));
      assert Front(refs) + [Last(refs)] == refs;
      var merged, name := MergedRefs(scope, Front(refs)), NameOf(scope, Last(refs)).value;
      KeepFirstMembership(NamesOf(scope, Front(refs)));
      PositionFinds(scope, merged, name);
      if name in NamesOf(scope, Front(refs)) {
        AddKnown(scope, Front(refs), merged, Last(refs));
      } else {
        AddNew(scope, Front(refs), merged, Last(refs));
      }
    }
  }

  // ---- what one layer lists

  lemma {:induction false} LayerRefsNamed(scope: Scope, layer: Layer)
    ensures AllNamed(scope, LayerRefs(scope, layer))
    ensures forall n :: n in NamesOf(scope, LayerRefs(scope, layer)) <==> n in LayerNames(scope, layer)
  {
    var refs := LayerRefs(scope, layer);
    NamesOfAll(scope, refs);
    match layer
    case OverlayLayer(bucket) =>
      forall n | n in LayerNames(scope, layer) ensures n in NamesOf(scope, refs) {
        var i :| 0 <= i < |bucket| && bucket[i].internalName == n;
        assert NamesOf(scope, refs)[i] == n;
      }
    case ArtifactLayer(id) =>
      forall n | n in LayerNames(scope, layer) ensures n in NamesOf(scope, refs) {
        var i :| 0 <= i < |scope.ArchiveOf(id)| && scope.ArchiveOf(id)[i].internalName == n;
        assert NamesOf(scope, refs)[i] == n;
      }
  }

  lemma {:induction false} BestOfOne(scope: Scope, refs: seq<ClassRef>, name: string, i: nat)
    requires i < |refs| && NameOf(scope, refs[i]) == Some(name)
    requires forall j :: 0 <= j < |refs| && j != i ==> NameOf(scope, refs[j]) != Some(name)
    ensures BestAmong(scope, refs, name) == Some(refs[i])
  {
    if i < |refs| - 1 {
      BestOfOne(scope, Front(refs), name, i);
    } else {
      BestOfNone(scope, Front(refs), name);
    }
  }

  lemma {:induction false} BestOfNone(scope: Scope, refs: seq<ClassRef>, name: string)
    requires forall j :: 0 <= j < |refs| ==> NameOf(scope, refs[j]) != Some(name)
    ensures BestAmong(scope, refs, name) == None
  {
    if refs != [] {
      BestOfNone(scope, Front(refs), name);
    }
  }

  lemma {:induction false} LayerListsItsOwn(scope: Scope, layer: Layer, name: string)
    requires DistinctLayer(scope, layer)
    ensures BestAmong(scope, LayerRefs(scope, layer), name) == LayerRef(scope, layer, name)
  {
    var refs := LayerRefs(scope, layer);
    match layer
    case OverlayLayer(bucket) =>
      FirstWithIsFirst(InternalName, bucket, name);
      var i := FirstWith(InternalName, bucket, name);
      if i.Some? {
        BestOfOne(scope, refs, name, i.value);
      } else {
        BestOfNone(scope, refs, name);
      }
    case ArtifactLayer(id) =>
      LastNamedIsLast(scope.ArchiveOf(id), name);
      var i := LastNamed(scope.ArchiveOf(id), name);
      if i.Some? {
        BestOfOne(scope, refs, name, i.value);
      } else {
        BestOfNone(scope, refs, name);
      }
  }

  lemma {:induction false} AllRefsNamed(scope: Scope, layers: seq<Layer>)
    ensures AllNamed(scope, AllRefs(scope, layers))
    ensures forall n :: n in NamesOf(scope, AllRefs(scope, layers)) <==> n in NamesIn(scope, layers)
  {
    if layers != [] {
      AllRefsNamed(scope, Front(layers));
      LayerRefsNamed(scope, Last(layers));
      NamesOfConcat(scope, AllRefs(scope, Front(layers)), LayerRefs(scope, Last(layers)));
    }
  }

  lemma {:induction false} BestAmongAll(scope: Scope, layers: seq<Layer>, name: string)
    requires forall layer :: layer in layers ==> DistinctLayer(scope, layer)
    ensures BestAmong(scope, AllRefs(scope, layers), name) == BestIn(scope, layers, name)
  {
    if layers != [] {
      BestAmongAll(scope, Front(layers), name);
      LayerListsItsOwn(scope, Last(layers), name);
      BestAmongConcat(scope, AllRefs(scope, Front(layers)), LayerRefs(scope, Last(layers)), name);
    }
  }

  // ---- the whole listing

  ghost function AllClasses(scope: Scope): seq<ClassRef> {
    MergedRefs(scope, AllRefs(scope, scope.layers))
  }

  function Resolved(scope: Scope, refs: seq<ClassRef>): seq<ClassMetadata> {
    if refs == [] then []
    else Resolved(scope, Front(refs)) + (if Resolve(scope, Last(refs)).Some? then [Resolve(scope, Last(refs)).value] else [])
  }

  lemma {:induction false} ResolvedEach(scope: Scope, refs: seq<ClassRef>)
    requires forall i :: 0 <= i < |refs| ==> Resolve(scope, refs[i]).Some?
    ensures |Resolved(scope, refs)| == |refs|
    ensures forall i :: 0 <= i < |refs| ==> Resolve(scope, refs[i]) == Some(Resolved(scope, refs)[i])
  {
    if refs != [] {
      ResolvedEach(scope, Front(refs));
    }
  }

  lemma {:induction false} ListedRefs(scope: Scope)
    requires DistinctScope(scope)
    ensures AllNamed(scope, AllClasses(scope)) && NoDup(NamesOf(scope, AllClasses(scope)))
    ensures forall n :: n in NamesOf(scope, AllClasses(scope)) <==> n in NamesIn(scope, scope.layers)
    ensures forall i :: 0 <= i < |AllClasses(scope)| ==>
      Best(scope, NameOf(scope, AllClasses(scope)[i]).value) == Some(AllClasses(scope)[i])
  {
    var refs := AllRefs(scope, scope.layers);
    AllRefsNamed(scope, scope.layers);
    MergeKeepsBest(scope, refs);
    KeepFirstMembership(NamesOf(scope, refs));
    forall i | 0 <= i < |AllClasses(scope)| ensures Best(scope, NameOf(scope, AllClasses(scope)[i]).value) == Some(AllClasses(scope)[i]) {
      BestAmongAll(scope, scope.layers, NameOf(scope, AllClasses(scope)[i]).value);
    }
  }

  // Every visible name is listed once, as exactly the class its lookup answers with.
  lemma {:induction false} ListingAgreesWithLookup(scope: Scope)
    requires DistinctScope(scope)
    ensures var listed := Resolved(scope, AllClasses(scope));
      && (forall i, j :: 0 <= i < j < |listed| ==> listed[i].internalName != listed[j].internalName)
      && (forall c :: c in listed ==> ClassNamed(scope, c.internalName) == Some(c))
      && (forall n :: n in NamesIn(scope, scope.layers) <==> exists c :: c in listed && c.internalName == n)
  {
    var refs := AllClasses(scope);
    ListedRefs(scope);
    NamesOfAll(scope, refs);
    forall i | 0 <= i < |refs|
      ensures Resolve(scope, refs[i]).Some? && Resolve(scope, refs[i]).value.internalName == NamesOf(scope, refs)[i]
    {
      NamesAreResolvable(scope, scope.layers, NamesOf(scope, refs)[i]);
    }
    ResolvedEach(scope, refs);
    var listed := Resolved(scope, refs);
    forall n | n in NamesIn(scope, scope.layers) ensures exists c :: c in listed && c.internalName == n {
      var i :| 0 <= i < |refs| && NamesOf(scope, refs)[i] == n;
      assert listed[i] in listed;
    }
    forall c | c in listed ensures ClassNamed(scope, c.internalName) == Some(c) && c.internalName in NamesIn(scope, scope.layers) {
      var i :| 0 <= i < |listed| && listed[i] == c;
      assert NamesOf(scope, refs)[i] in NamesOf(scope, refs);
    }
  }

  // ---- archives that repeat a name

  // What the listing takes from one layer: its first slot of highest precedence.
  function ListedIn(scope: Scope, layer: Layer, name: string): Option<ClassRef> {
    BestAmong(scope, LayerRefs(scope, layer), name)
  }

  ghost predicate Lists(scope: Scope, layers: seq<Layer>, i: nat, name: string, ref: ClassRef) {
    i < |layers| && ListedIn(scope, layers[i], name) == Some(ref)
  }

  // The layer the listing shows the name from.
  ghost predicate WinsListing(scope: Scope, layers: seq<Layer>, name: string, i: nat, ref: ClassRef) {
    && Lists(scope, layers, i, name, ref)
    && (forall j: nat, other :: Lists(scope, layers, j, name, other) ==>
         Precedence(scope, other) <= Precedence(scope, ref) && (j < i ==> Precedence(scope, other) < Precedence(scope, ref)))
  }

  lemma {:induction false} ListedBest(scope: Scope, layers: seq<Layer>, name: string)
    requires layers != []
    ensures BestAmong(scope, AllRefs(scope, layers), name)
      == Choose(scope, BestAmong(scope, AllRefs(scope, Front(layers)), name), ListedIn(scope, Last(layers), name))
  {
    BestAmongConcat(scope, AllRefs(scope, Front(layers)), LayerRefs(scope, Last(layers)), name);
  }

  lemma {:induction false} ListsMore(scope: Scope, layers: seq<Layer>, name: string)
    requires layers != []
    ensures forall j: nat, other :: Lists(scope, layers, j, name, other) <==>
      Lists(scope, Front(layers), j, name, other) || (j == |layers| - 1 && ListedIn(scope, Last(layers), name) == Some(other))
  {
  }

  lemma {:induction false} OneMoreLists(scope: Scope, layers: seq<Layer>, name: string, before: Option<ClassRef>)
    requires layers != []
    requires before.None? <==> forall i: nat, ref :: !Lists(scope, Front(layers), i, name, ref)
    requires before.Some? ==> exists i: nat :: WinsListing(scope, Front(layers), name, i, before.value)
    ensures var best := Choose(scope, before, ListedIn(scope, Last(layers), name));
      && (best.None? <==> forall i: nat, ref :: !Lists(scope, layers, i, name, ref))
      && (best.Some? ==> exists i: nat :: WinsListing(scope, layers, name, i, best.value))
  {
    hide ListedIn;
    var front, last := Front(layers), ListedIn(scope, Last(layers), name);
    var best := Choose(scope, before, last);
    ListsMore(scope, layers, name);
    hide Lists;
    if last.Some? && best == last && before != last {
      if before.Some? {
        var i: nat :| WinsListing(scope, front, name, i, before.value);
      }
      assert WinsListing(scope, layers, name, |front|, last.value);
    } else if before.Some? {
      var i: nat :| WinsListing(scope, front, name, i, before.value);
      assert WinsListing(scope, layers, name, i, before.value);
    }
  }

  lemma {:induction false} BestAmongWins(scope: Scope, layers: seq<Layer>, name: string)
    ensures BestAmong(scope, AllRefs(scope, layers), name).None? <==> forall i: nat, ref :: !Lists(scope, layers, i, name, ref)
    ensures BestAmong(scope, AllRefs(scope, layers), name).Some? ==>
      exists i: nat :: WinsListing(scope, layers, name, i, BestAmong(scope, AllRefs(scope, layers), name).value)
  {
    if layers != [] {
      hide WinsListing, Lists, Choose;
      BestAmongWins(scope, Front(layers), name);
      ListedBest(scope, layers, name);
      OneMoreLists(scope, layers, name, BestAmong(scope, AllRefs(scope, Front(layers)), name));
    } else {
      assert AllRefs(scope, layers) == [];
    }
  }

  lemma {:induction false} BestAmongHighest(scope: Scope, refs: seq<ClassRef>, name: string, ref: ClassRef)
    requires ref in refs && NameOf(scope, ref) == Some(name)
    ensures BestAmong(scope, refs, name).Some?
    ensures Precedence(scope, ref) <= Precedence(scope, BestAmong(scope, refs, name).value)
  {
    if ref in Front(refs) {
      BestAmongHighest(scope, Front(refs), name, ref);
    } else {
      assert refs == Front(refs) + [Last(refs)];
      assert ref == Last(refs);
    }
  }

  lemma {:induction false} BestAmongMember(scope: Scope, refs: seq<ClassRef>, name: string)
    ensures BestAmong(scope, refs, name).Some? ==>
      BestAmong(scope, refs, name).value in refs && NameOf(scope, BestAmong(scope, refs, name).value) == Some(name)
  {
    if refs != [] {
      BestAmongMember(scope, Front(refs), name);
      assert refs == Front(refs) + [Last(refs)];
    }
  }

  // The listing takes from a layer something at least as high as the lookup does.
  lemma {:induction false} ListedAtLeast(scope: Scope, layer: Layer, name: string)
    ensures ListedIn(scope, layer, name).Some? <==> LayerRef(scope, layer, name).Some?
    ensures LayerRef(scope, layer, name).Some? ==>
      Precedence(scope, LayerRef(scope, layer, name).value) <= Precedence(scope, ListedIn(scope, layer, name).value)
  {
    var refs := LayerRefs(scope, layer);
    LayerRefResolves(scope, layer, name);
    if LayerRef(scope, layer, name).Some? {
      LayerRefListed(scope, layer, name);
      BestAmongHighest(scope, refs, name, LayerRef(scope, layer, name).value);
    } else {
      LayerRefsNamed(scope, layer);
      NamesOfAll(scope, refs);
      forall i | 0 <= i < |refs| ensures NameOf(scope, refs[i]) != Some(name) {
        assert NamesOf(scope, refs)[i] in NamesOf(scope, refs);
      }
      BestOfNone(scope, refs, name);
    }
  }

  lemma {:induction false} LayerRefListed(scope: Scope, layer: Layer, name: string)
    requires LayerRef(scope, layer, name).Some?
    ensures LayerRef(scope, layer, name).value in LayerRefs(scope, layer)
  {
    var refs := LayerRefs(scope, layer);
    match layer
    case OverlayLayer(bucket) => assert refs[FirstWith(InternalName, bucket, name).value] in refs;
    case ArtifactLayer(id) => assert refs[LastNamed(scope.ArchiveOf(id), name).value] in refs;
  }

  // A reference tells which layer it came from.
  lemma {:induction false} RefTellsLayer(scope: Scope, a: Layer, b: Layer, ref: ClassRef)
    requires ref in LayerRefs(scope, a) && ref in LayerRefs(scope, b)
    ensures a == b
  {
  }

  lemma {:induction false} OneWinner(scope: Scope, layers: seq<Layer>, name: string, i: nat, ref: ClassRef, j: nat, other: ClassRef)
    requires Wins(scope, layers, name, i, ref) && Wins(scope, layers, name, j, other)
    ensures i == j && ref == other
  {
  }

  // For every name and all layers: listing and lookup agree exactly when, in the layer the
  // listing shows the name from, the slot shown is the one the layer's own lookup finds.
  lemma {:induction false} AgreeExactlyWhen(scope: Scope, layers: seq<Layer>, name: string, i: nat, ref: ClassRef)
    requires WinsListing(scope, layers, name, i, ref)
    ensures BestAmong(scope, AllRefs(scope, layers), name) == BestIn(scope, layers, name) <==> LayerRef(scope, layers[i], name) == Some(ref)
  {
    BestAmongWins(scope, layers, name);
    var w: nat :| WinsListing(scope, layers, name, w, BestAmong(scope, AllRefs(scope, layers), name).value);
    assert w == i;
    BestWins(scope, layers, name);
    if LayerRef(scope, layers[i], name) == Some(ref) {
      forall j: nat, other | Offers(scope, layers, j, name, other)
        ensures Precedence(scope, other) <= Precedence(scope, ref) && (j < i ==> Precedence(scope, other) < Precedence(scope, ref))
      {
        ListedAtLeast(scope, layers[j], name);
        assert Lists(scope, layers, j, name, ListedIn(scope, layers[j], name).value);
      }
      assert Wins(scope, layers, name, i, ref);
      assert Offers(scope, layers, i, name, ref);
      var k: nat :| Wins(scope, layers, name, k, BestIn(scope, layers, name).value);
      OneWinner(scope, layers, name, i, ref, k, BestIn(scope, layers, name).value);
    } else if BestIn(scope, layers, name) == Some(ref) {
      var k: nat :| Wins(scope, layers, name, k, ref);
      BestAmongMember(scope, LayerRefs(scope, layers[i]), name);
      LayerRefListed(scope, layers[k], name);
      RefTellsLayer(scope, layers[i], layers[k], ref);
    }
  }

  // ---- one precedence per archive

  ghost predicate OnePrecedence(scope: Scope, layer: Layer) {
    forall a, b :: a in LayerRefs(scope, layer) && b in LayerRefs(scope, layer) ==> Precedence(scope, a) == Precedence(scope, b)
  }

  ghost predicate HeldOnce(scope: Scope, layer: Layer, name: string) {
    var refs := LayerRefs(scope, layer);
    forall i, j :: 0 <= i < j < |refs| ==> !(NameOf(scope, refs[i]) == Some(name) && NameOf(scope, refs[j]) == Some(name))
  }

  // Buckets hold a name once; an archive's classes all come from the archive.
  ghost predicate PlainLayer(scope: Scope, layer: Layer) {
    if layer.OverlayLayer? then DistinctLayer(scope, layer) else OnePrecedence(scope, layer)
  }

  lemma {:induction false} EqualPrecedenceKeepsFirst(scope: Scope, refs: seq<ClassRef>, name: string, i: nat)
    requires i < |refs| && NameOf(scope, refs[i]) == Some(name)
    requires forall j :: 0 <= j < i ==> NameOf(scope, refs[j]) != Some(name)
    requires forall a, b :: a in refs && b in refs ==> Precedence(scope, a) == Precedence(scope, b)
    ensures BestAmong(scope, refs, name) == Some(refs[i])
  {
    assert refs == Front(refs) + [Last(refs)];
    if i < |refs| - 1 {
      EqualPrecedenceKeepsFirst(scope, Front(refs), name, i);
    } else {
      BestOfNone(scope, Front(refs), name);
    }
  }

  // On a plain layer the slot listed is the slot looked up exactly when there is just one.
  lemma {:induction false} PlainLayerAgrees(scope: Scope, layer: Layer, name: string)
    requires PlainLayer(scope, layer) && LayerRef(scope, layer, name).Some?
    ensures ListedIn(scope, layer, name) == LayerRef(scope, layer, name) <==> HeldOnce(scope, layer, name)
    ensures ListedIn(scope, layer, name).Some?
    ensures Precedence(scope, ListedIn(scope, layer, name).value) == Precedence(scope, LayerRef(scope, layer, name).value)
  {
    var refs := LayerRefs(scope, layer);
    if layer.OverlayLayer? {
      LayerListsItsOwn(scope, layer, name);
    } else {
      var archive := scope.ArchiveOf(layer.id);
      LastNamedIsLast(archive, name);
      FirstWithIsFirst((stub: ClassStub) => stub.internalName, archive, name);
      var first, last := FirstWith((stub: ClassStub) => stub.internalName, archive, name), LastNamed(archive, name).value;
      EqualPrecedenceKeepsFirst(scope, refs, name, first.value);
      assert refs[first.value] in refs && refs[last] in refs;
      assert first.value < last ==> NameOf(scope, refs[first.value]) == Some(name) && NameOf(scope, refs[last]) == Some(name);
    }
  }

  lemma {:induction false} SameWinner(scope: Scope, layers: seq<Layer>, name: string, i: nat, ref: ClassRef)
    requires forall layer :: layer in layers ==> PlainLayer(scope, layer)
    requires Wins(scope, layers, name, i, ref)
    ensures ListedIn(scope, layers[i], name).Some? && WinsListing(scope, layers, name, i, ListedIn(scope, layers[i], name).value)
  {
    ListedAtLeast(scope, layers[i], name);
    PlainLayerAgrees(scope, layers[i], name);
    forall j: nat, other | Lists(scope, layers, j, name, other)
      ensures Precedence(scope, other) <= Precedence(scope, ref) && (j < i ==> Precedence(scope, other) < Precedence(scope, ref))
    {
      ListedAtLeast(scope, layers[j], name);
      PlainLayerAgrees(scope, layers[j], name);
      assert Offers(scope, layers, j, name, LayerRef(scope, layers[j], name).value);
    }
  }

  // What the listing shows under a name is what the lookup of the name answers.
  ghost predicate Agree(scope: Scope, layers: seq<Layer>, name: string) {
    BestAmong(scope, AllRefs(scope, layers), name) == BestIn(scope, layers, name)
  }

  ghost predicate WonFromOneSlot(scope: Scope, layers: seq<Layer>, name: string) {
    forall i: nat, ref :: Wins(scope, layers, name, i, ref) ==> HeldOnce(scope, layers[i], name)
  }

  lemma {:induction false} PlainLayersAgree(scope: Scope, layers: seq<Layer>, name: string)
    requires forall layer :: layer in layers ==> PlainLayer(scope, layer)
    ensures Agree(scope, layers, name) <==> WonFromOneSlot(scope, layers, name)
  {
    BestWins(scope, layers, name);
    if BestIn(scope, layers, name).None? {
      NoneListed(scope, layers, name);
    } else {
      var w: nat :| Wins(scope, layers, name, w, BestIn(scope, layers, name).value);
      SameWinner(scope, layers, name, w, BestIn(scope, layers, name).value);
      PlainLayerAgrees(scope, layers[w], name);
      AgreeExactlyWhen(scope, layers, name, w, ListedIn(scope, layers[w], name).value);
      forall i: nat, ref | Wins(scope, layers, name, i, ref) ensures i == w {
        OneWinner(scope, layers, name, i, ref, w, BestIn(scope, layers, name).value);
      }
    }
  }

  lemma {:induction false} NoneListed(scope: Scope, layers: seq<Layer>, name: string)
    requires BestIn(scope, layers, name).None?
    ensures BestAmong(scope, AllRefs(scope, layers), name).None?
  {
    BestWins(scope, layers, name);
    BestAmongWins(scope, layers, name);
    forall i: nat, ref ensures !Lists(scope, layers, i, name, ref) {
      if Lists(scope, layers, i, name, ref) {
        ListedAtLeast(scope, layers[i], name);
        assert Offers(scope, layers, i, name, LayerRef(scope, layers[i], name).value);
      }
    }
  }

  // The exact condition: the listing shows every name as its lookup answers it if and only if
  // every name sits in one slot of the layer that wins it. Repetitions elsewhere do no harm.
  lemma {:induction false} ListingAgreesExactlyWhen(scope: Scope)
    requires forall layer :: layer in scope.layers ==> PlainLayer(scope, layer)
    ensures (forall n :: Agree(scope, scope.layers, n)) <==> (forall n :: WonFromOneSlot(scope, scope.layers, n))
    ensures MergeInvariant(scope, AllRefs(scope, scope.layers), AllClasses(scope))
  {
    hide Agree, WonFromOneSlot, MergeInvariant;
    AllRefsNamed(scope, scope.layers);
    MergeKeepsBest(scope, AllRefs(scope, scope.layers));
    forall n ensures Agree(scope, scope.layers, n) <==> WonFromOneSlot(scope, scope.layers, n) {
      PlainLayersAgree(scope, scope.layers, n);
    }
  }

  // Where the winning archive does repeat the name, the two name different slots.
  lemma {:induction false} RepeatedNameDisagrees(scope: Scope, name: string, i: nat, ref: ClassRef)
    requires forall layer :: layer in scope.layers ==> PlainLayer(scope, layer)
    requires Wins(scope, scope.layers, name, i, ref) && !HeldOnce(scope, scope.layers[i], name)
    ensures !Agree(scope, scope.layers, name)
  {
    PlainLayersAgree(scope, scope.layers, name);
  }

  // An instance: of two slots with one name the listing shows the first and the lookup the last.
  lemma {:induction false} TwoSlotsDisagree(scope: Scope, id: nat, first: ClassStub, second: ClassStub)
    requires scope.layers == [ArtifactLayer(id)] && scope.ArchiveOf(id) == [first, second]
    requires first.internalName == second.internalName && OriginPrecedence(first.origin) == OriginPrecedence(second.origin)
    ensures Resolved(scope, AllClasses(scope)) == [ClassOf(first)]
    ensures ClassNamed(scope, first.internalName) == Some(ClassOf(second))
  {
    var layer, a, b := ArtifactLayer(id), ArtifactRef(ClassHandle(id, 0)), ArtifactRef(ClassHandle(id, 1));
    assert LayerRefs(scope, layer) == [a, b];
    assert Front([a, b]) == [a] && Front([a]) == [];
    OneLayer(scope, layer, first.internalName);
    assert LastNamed([first, second], first.internalName) == Some(1);
    assert Best(scope, first.internalName) == Some(b);
    assert Position(scope, [], first.internalName) == None;
    assert MergedRefs(scope, [a]) == [a];
    FirstWithIsFirst(ref => NameOf(scope, ref), [a], Some(first.internalName));
    assert Position(scope, [a], first.internalName) == Some(0);
    assert MergedRefs(scope, [a, b]) == [a];
  }

  // ---- the inheritance walk

  lemma {:induction false} RefsForEach(scope: Scope, names: seq<string>)
    requires forall n :: n in names ==> n in NamesIn(scope, scope.layers)
    ensures |RefsFor(scope, names)| == |names|
    ensures forall i :: 0 <= i < |names| ==> Best(scope, names[i]) == Some(RefsFor(scope, names)[i])
  {
    if names != [] {
      assert names == Front(names) + [Last(names)];
      RefsForEach(scope, Front(names));
      NamesAreResolvable(scope, scope.layers, Last(names));
    }
  }

  // The walk lists exactly the resolvable classes reachable through resolvable, non-empty
  // parent names, each once, nearest first; cycles included.
  lemma {:induction false} HierarchyIsNearestFirst(scope: Scope, name: string)
    ensures var names, refs := HierarchyNames(scope, name), HierarchyRefs(scope, name);
      && NearestFirst(ParentGraph(scope), name, names)
      && |refs| == |names|
      && (forall i :: 0 <= i < |refs| ==> Best(scope, names[i]) == Some(refs[i]))
  {
    var g, names := ParentGraph(scope), HierarchyNames(scope, name);
    WalkIsNearestFirst(g, name);
    forall n | n in names ensures n in NamesIn(scope, scope.layers) {
      assert Reachable(g, name, n);
      var d: nat :| n in Within(g, name, d);
      WithinGrows(g, name, d, d);
    }
    RefsForEach(scope, names);
  }

  // ---- repeating a layer

  lemma {:induction false} NamesInConcat(scope: Scope, a: seq<Layer>, b: seq<Layer>)
    ensures NamesIn(scope, a + b) == NamesIn(scope, a) + NamesIn(scope, b)
  {
    if b == [] {
      assert a + b == a;
    } else {
      assert Front(a + b) == a + Front(b) && Last(a + b) == Last(b);
      NamesInConcat(scope, a, Front(b));
    }
  }

  lemma {:induction false} OneLayer(scope: Scope, layer: Layer, name: string)
    ensures BestIn(scope, [layer], name) == LayerRef(scope, layer, name)
    ensures NamesIn(scope, [layer]) == LayerNames(scope, layer)
    ensures AllRefs(scope, [layer]) == LayerRefs(scope, layer)
  {
    assert Front([layer]) == [];
  }

  lemma {:induction false} LaterCopyLoses(scope: Scope, before: seq<Layer>, layer: Layer, name: string)
    requires layer in before
    ensures BestIn(scope, before + [layer], name) == BestIn(scope, before, name)
    ensures NamesIn(scope, before + [layer]) == NamesIn(scope, before)
  {
    assert Front(before + [layer]) == before;
    BestWins(scope, before, name);
    var i :| 0 <= i < |before| && before[i] == layer;
    if LayerRef(scope, layer, name).Some? {
      assert Offers(scope, before, i, name, LayerRef(scope, layer, name).value);
    }
    LayerNamesIncluded(scope, before, i);
  }

  lemma {:induction false} LayerNamesIncluded(scope: Scope, layers: seq<Layer>, i: nat)
    requires i < |layers|
    ensures LayerNames(scope, layers[i]) <= NamesIn(scope, layers)
  {
    if i < |layers| - 1 {
      LayerNamesIncluded(scope, Front(layers), i);
    }
  }

  // Repeating a layer later in the list changes no lookup, no name and no walk.
  lemma {:induction false} RepeatedLayerChangesNothing(scope: Scope, before: seq<Layer>, layer: Layer, after: seq<Layer>, name: string)
    requires scope.layers == before + after && layer in before
    ensures var again := scope.(layers := before + [layer] + after);
      && Best(again, name) == Best(scope, name)
      && NamesIn(again, again.layers) == NamesIn(scope, scope.layers)
      && ClassNamed(again, name) == ClassNamed(scope, name)
  {
    var again := scope.(layers := before + [layer] + after);
    LaterCopyLoses(scope, before, layer, name);
    BestConcat(scope, before + [layer], after, name);
    BestConcat(scope, before, after, name);
    NamesInConcat(scope, before + [layer], after);
    NamesInConcat(scope, before, after);
    SameArchives(scope, again, again.layers, name);
  }

  lemma {:induction false} SameParents(a: Scope, b: Scope, n: string)
    requires a.archives == b.archives && Best(a, n) == Best(b, n)
    ensures ParentsOf(a, n) == ParentsOf(b, n)
  {
    if Best(a, n).Some? && Best(a, n).value.ArtifactRef? {
      assert StubOf(a, Best(a, n).value.handle) == StubOf(b, Best(b, n).value.handle);
    }
  }

  lemma {:induction false} SameGraph(a: Scope, b: Scope)
    requires a.archives == b.archives
    requires NamesIn(a, a.layers) == NamesIn(b, b.layers) && forall n :: Best(a, n) == Best(b, n)
    ensures ParentGraph(a) == ParentGraph(b)
  {
    forall n ensures ParentsOf(a, n) == ParentsOf(b, n) {
      SameParents(a, b, n);
    }
  }

  lemma {:induction false} SameHierarchy(a: Scope, b: Scope, names: seq<string>)
    requires a.archives == b.archives
    requires NamesIn(a, a.layers) == NamesIn(b, b.layers) && forall n :: Best(a, n) == Best(b, n)
    ensures ParentGraph(a) == ParentGraph(b)
    ensures RefsFor(a, names) == RefsFor(b, names)
  {
    SameGraph(a, b);
    if names != [] {
      SameHierarchy(a, b, Front(names));
    }
  }

  lemma {:induction false} RepeatedLayerKeepsHierarchy(scope: Scope, before: seq<Layer>, layer: Layer, after: seq<Layer>, name: string)
    requires scope.layers == before + after && layer in before
    ensures HierarchyRefs(scope.(layers := before + [layer] + after), name) == HierarchyRefs(scope, name)
  {
    var again := scope.(layers := before + [layer] + after);
    RepeatedLayerChangesNothing(scope, before, layer, after, name);
    forall n ensures Best(again, n) == Best(scope, n) {
      RepeatedLayerChangesNothing(scope, before, layer, after, n);
    }
    SameHierarchy(again, scope, HierarchyNames(scope, name));
  }

  // ---- ... nor the listing, order included

  lemma {:induction false} KnownKeysVanish(a: seq<string>, b: seq<string>)
    requires forall n :: n in b ==> n in a
    ensures KeepFirst(Text, a + b) == KeepFirst(Text, a)
  {
    if b == [] {
      assert a + b == a;
    } else {
      assert Front(a + b) == a + Front(b) && Last(a + b) == Last(b);
      KnownKeysVanish(a, Front(b));
      KeepFirstMembership(a + Front(b));
      assert Last(b) in b;
    }
  }

  lemma {:induction false} SameKeysSameRest(a: seq<string>, b: seq<string>, c: seq<string>)
    requires KeepFirst(Text, a) == KeepFirst(Text, b)
    ensures KeepFirst(Text, a + c) == KeepFirst(Text, b + c)
  {
    if c == [] {
      assert a + c == a && b + c == b;
    } else {
      assert Front(a + c) == a + Front(c) && Front(b + c) == b + Front(c);
      SameKeysSameRest(a, b, Front(c));
      KeepFirstMembership(a + Front(c));
      KeepFirstMembership(b + Front(c));
    }
  }

  lemma {:induction false} AllRefsConcat(scope: Scope, a: seq<Layer>, b: seq<Layer>)
    ensures AllRefs(scope, a + b) == AllRefs(scope, a) + AllRefs(scope, b)
  {
    if b == [] {
      assert a + b == a;
    } else {
      assert Front(a + b) == a + Front(b) && Last(a + b) == Last(b);
      AllRefsConcat(scope, a, Front(b));
    }
  }

  lemma {:induction false} RepeatedNames(scope: Scope, before: seq<Layer>, layer: Layer, after: seq<Layer>)
    requires layer in before
    ensures KeepFirst(Text, NamesOf(scope, AllRefs(scope, before + [layer] + after)))
      == KeepFirst(Text, NamesOf(scope, AllRefs(scope, before + after)))
  {
    var a, b, c := AllRefs(scope, before), AllRefs(scope, [layer]), AllRefs(scope, after);
    AllRefsConcat(scope, before + [layer], after);
    AllRefsConcat(scope, before, [layer]);
    AllRefsConcat(scope, before, after);
    NamesOfConcat(scope, a + b, c);
    NamesOfConcat(scope, a, b);
    NamesOfConcat(scope, a, c);
    AllRefsNamed(scope, before);
    AllRefsNamed(scope, [layer]);
    OneLayer(scope, layer, "");
    var i :| 0 <= i < |before| && before[i] == layer;
    LayerNamesIncluded(scope, before, i);
    KnownKeysVanish(NamesOf(scope, a), NamesOf(scope, b));
    SameKeysSameRest(NamesOf(scope, a) + NamesOf(scope, b), NamesOf(scope, a), NamesOf(scope, c));
  }

  lemma {:induction false} SameArchivesSameRefs(a: Scope, b: Scope, layers: seq<Layer>)
    requires a.archives == b.archives
    ensures AllRefs(a, layers) == AllRefs(b, layers)
  {
    if layers != [] {
      SameArchivesSameRefs(a, b, Front(layers));
    }
  }

  lemma {:induction false} SameArchivesSameNames(a: Scope, b: Scope, refs: seq<ClassRef>)
    requires a.archives == b.archives
    ensures NamesOf(a, refs) == NamesOf(b, refs)
  {
    if refs != [] {
      SameArchivesSameNames(a, b, Front(refs));
    }
  }

  lemma {:induction false} RepeatedLayerKeepsListing(scope: Scope, before: seq<Layer>, layer: Layer, after: seq<Layer>)
    requires scope.layers == before + after && layer in before && DistinctScope(scope)
    ensures AllClasses(scope.(layers := before + [layer] + after)) == AllClasses(scope)
  {
    var again := scope.(layers := before + [layer] + after);
    forall l | l in again.layers ensures DistinctLayer(again, l) {
      assert l in scope.layers;
    }
    AllRefsNamed(scope, scope.layers);
    AllRefsNamed(again, again.layers);
    MergeKeepsBest(scope, AllRefs(scope, scope.layers));
    MergeKeepsBest(again, AllRefs(again, again.layers));
    ListedRefs(scope);
    ListedRefs(again);
    RepeatedNames(scope, before, layer, after);
    SameArchivesSameRefs(again, scope, again.layers);
    SameArchivesSameNames(again, scope, AllRefs(again, again.layers));
    SameArchivesSameNames(again, scope, AllClasses(again));
    NamesOfAll(scope, AllClasses(scope));
    NamesOfAll(again, AllClasses(again));
    forall i | 0 <= i < |AllClasses(scope)| ensures AllClasses(again)[i] == AllClasses(scope)[i] {
      RepeatedLayerChangesNothing(scope, before, layer, after, NamesOf(scope, AllClasses(scope))[i]);
    }
  }
}
