// Queries over a view by simple name, package, owner or annotation flag: every layer lists the
// classes it has under the key, and the lists are merged like the full listing.
module ViewQueries {
  import opened Seqs
  import opened ClassModel
  import opened ArtifactReader
  import opened ViewSpec
  import opened ViewLookup
  import opened View

  // Whether the class behind a reference has the key asked for.
  function Has(scope: Scope, key: ClassMetadata -> bool): ClassRef -> bool {
    ref => Resolve(scope, ref).Some? && key(Resolve(scope, ref).value)
  }

  // Archives list their matching slots in order, buckets their matching classes in any order.
  ghost predicate ListsMatching(scope: Scope, layer: Layer, has: ClassRef -> bool, refs: seq<ClassRef>) {
    match layer
    case OverlayLayer(_) =>
      DistinctLayer(scope, layer) && NoDup(refs) && forall ref :: ref in refs <==> ref in LayerRefs(scope, layer) && has(ref)
    case ArtifactLayer(_) => refs == Filter(has, LayerRefs(scope, layer))
  }

  ghost predicate Fetches(scope: Scope, has: ClassRef -> bool, fetch: Layer -> seq<ClassRef>) {
    forall layer :: layer in scope.layers ==> ListsMatching(scope, layer, has, fetch(layer))
  }

  ghost function Answer(scope: Scope, fetch: Layer -> seq<ClassRef>): seq<ClassRef> {
    MergedRefs(scope, Fetched(fetch, scope.layers))
  }

  ghost predicate SelectedFrom(has: ClassRef -> bool, answer: seq<ClassRef>, listing: seq<ClassRef>) {
    forall ref :: ref in answer <==> ref in listing && has(ref)
  }

  // ---- the best of the matching references under one name

  lemma {:induction false} MatchingIsLower(scope: Scope, has: ClassRef -> bool, refs: seq<ClassRef>, name: string)
    requires BestAmong(scope, Filter(has, refs), name).Some?
    ensures BestAmong(scope, refs, name).Some?
    ensures var shown := BestAmong(scope, Filter(has, refs), name).value;
      shown in refs && has(shown) && NameOf(scope, shown) == Some(name)
      && Precedence(scope, shown) <= Precedence(scope, BestAmong(scope, refs, name).value)
  {
    FilterMembers(has, refs);
    BestAmongMember(scope, Filter(has, refs), name);
    BestAmongHighest(scope, refs, name, BestAmong(scope, Filter(has, refs), name).value);
  }

  // The best reference of all stays the best among those that match, if it matches.
  lemma {:induction false} BestStaysBest(scope: Scope, has: ClassRef -> bool, refs: seq<ClassRef>, name: string)
    requires BestAmong(scope, refs, name).Some? && has(BestAmong(scope, refs, name).value)
    ensures BestAmong(scope, Filter(has, refs), name) == BestAmong(scope, refs, name)
  {
    var front, x := Front(refs), Last(refs);
    FilterSnoc(has, front, x);
    assert refs == front + [x];
    if BestAmong(scope, refs, name) == BestAmong(scope, front, name) {
      BestStaysBest(scope, has, front, name);
    } else if BestAmong(scope, Filter(has, front), name).Some? {
      MatchingIsLower(scope, has, front, name);
    }
    if has(x) {
      BestWithOneMore(scope, Filter(has, front), x, name);
    } else {
      assert Filter(has, refs) == Filter(has, front);
    }
  }

  // No class hidden behind the one a name shows has the key when that one lacks it.
  ghost predicate NothingHidden(scope: Scope, has: ClassRef -> bool, refs: seq<ClassRef>, name: string) {
    BestAmong(scope, refs, name).Some? && !has(BestAmong(scope, refs, name).value) ==>
      forall ref :: ref in refs && NameOf(scope, ref) == Some(name) ==> !has(ref)
  }

  ghost predicate NothingHiddenIn(scope: Scope, has: ClassRef -> bool, refs: seq<ClassRef>) {
    forall n :: NothingHidden(scope, has, refs, n)
  }

  ghost function ShownWith(scope: Scope, has: ClassRef -> bool, refs: seq<ClassRef>, name: string): Option<ClassRef> {
    var best := BestAmong(scope, refs, name);
    if best.Some? && has(best.value) then best else None
  }

  lemma {:induction false} MatchingAgrees(scope: Scope, has: ClassRef -> bool, refs: seq<ClassRef>, name: string)
    ensures BestAmong(scope, Filter(has, refs), name) == ShownWith(scope, has, refs, name) <==> NothingHidden(scope, has, refs, name)
  {
    var best, matching := BestAmong(scope, refs, name), Filter(has, refs);
    FilterMembers(has, refs);
    if best.Some? && has(best.value) {
      BestStaysBest(scope, has, refs, name);
    } else if BestAmong(scope, matching, name).Some? {
      MatchingIsLower(scope, has, refs, name);
    } else {
      forall ref | ref in refs && NameOf(scope, ref) == Some(name) ensures !has(ref) {
        if has(ref) {
          BestAmongHighest(scope, matching, name, ref);
        }
      }
    }
  }

  // ---- what the layers list

  // With one reference to a name at most, the order of a list does not matter.
  lemma {:induction false} OrderWithinBucket(scope: Scope, layer: Layer, has: ClassRef -> bool, refs: seq<ClassRef>, name: string)
    requires ListsMatching(scope, layer, has, refs)
    ensures BestAmong(scope, refs, name) == BestAmong(scope, Filter(has, LayerRefs(scope, layer)), name)
  {
    if layer.OverlayLayer? {
      var all := Filter(has, LayerRefs(scope, layer));
      FilterMembers(has, LayerRefs(scope, layer));
      BestAmongMember(scope, refs, name);
      BestAmongMember(scope, all, name);
      if BestAmong(scope, refs, name).Some? {
        BestAmongHighest(scope, all, name, BestAmong(scope, refs, name).value);
      }
      if BestAmong(scope, all, name).Some? {
        BestAmongHighest(scope, refs, name, BestAmong(scope, all, name).value);
      }
    }
  }

  lemma {:induction false} FetchedLikeFiltered(scope: Scope, has: ClassRef -> bool, fetch: Layer -> seq<ClassRef>, layers: seq<Layer>, name: string)
    requires forall layer :: layer in layers ==> ListsMatching(scope, layer, has, fetch(layer))
    ensures BestAmong(scope, Fetched(fetch, layers), name) == BestAmong(scope, Filter(has, AllRefs(scope, layers)), name)
  {
    if layers != [] {
      var front, last := Front(layers), Last(layers);
      assert layers == front + [last];
      FetchedLikeFiltered(scope, has, fetch, front, name);
      OrderWithinBucket(scope, last, has, fetch(last), name);
      BestAmongConcat(scope, Fetched(fetch, front), fetch(last), name);
      FilterConcat(has, AllRefs(scope, front), LayerRefs(scope, last));
      BestAmongConcat(scope, Filter(has, AllRefs(scope, front)), Filter(has, LayerRefs(scope, last)), name);
    }
  }

  lemma {:induction false} FetchedNamed(scope: Scope, has: ClassRef -> bool, fetch: Layer -> seq<ClassRef>, layers: seq<Layer>)
    requires forall layer :: layer in layers ==> ListsMatching(scope, layer, has, fetch(layer))
    ensures AllNamed(scope, Fetched(fetch, layers))
  {
    if layers != [] {
      var front, last := Front(layers), Last(layers);
      assert layers == front + [last];
      FetchedNamed(scope, has, fetch, front);
      LayerRefsNamed(scope, last);
      FilterMembers(has, LayerRefs(scope, last));
      forall ref | ref in fetch(last) ensures NameOf(scope, ref).Some? {
        assert ref in LayerRefs(scope, last);
      }
      assert forall i :: 0 <= i < |fetch(last)| ==> fetch(last)[i] in fetch(last);
    }
  }

  // ---- the answer against the full listing

  // The merged list holds exactly the best reference of every name.
  lemma {:induction false} MergedMembers(scope: Scope, refs: seq<ClassRef>, ref: ClassRef)
    requires AllNamed(scope, refs)
    ensures ref in MergedRefs(scope, refs) <==> NameOf(scope, ref).Some? && BestAmong(scope, refs, NameOf(scope, ref).value) == Some(ref)
  {
    var merged := MergedRefs(scope, refs);
    MergeKeepsBest(scope, refs);
    NamesOfAll(scope, merged);
    KeepFirstMembership(NamesOf(scope, refs));
    if NameOf(scope, ref).Some? && BestAmong(scope, refs, NameOf(scope, ref).value) == Some(ref) {
      assert NameOf(scope, ref).value in NamesOf(scope, merged);
      var i :| 0 <= i < |merged| && NamesOf(scope, merged)[i] == NameOf(scope, ref).value;
      assert merged[i] == ref;
    }
  }

  ghost predicate ShowsSelected(scope: Scope, has: ClassRef -> bool, a: seq<ClassRef>, b: seq<ClassRef>) {
    forall n :: BestAmong(scope, a, n) == ShownWith(scope, has, b, n)
  }

  lemma {:induction false} SameMembers(scope: Scope, has: ClassRef -> bool, a: seq<ClassRef>, b: seq<ClassRef>)
    requires AllNamed(scope, a) && AllNamed(scope, b)
    ensures SelectedFrom(has, MergedRefs(scope, a), MergedRefs(scope, b))
      <==> ShowsSelected(scope, has, a, b)
  {
    hide MergedRefs, BestAmong;
    forall ref
      ensures ref in MergedRefs(scope, a) <==> NameOf(scope, ref).Some? && BestAmong(scope, a, NameOf(scope, ref).value) == Some(ref)
      ensures ref in MergedRefs(scope, b) <==> NameOf(scope, ref).Some? && BestAmong(scope, b, NameOf(scope, ref).value) == Some(ref)
    {
      MergedMembers(scope, a, ref);
      MergedMembers(scope, b, ref);
    }
    if SelectedFrom(has, MergedRefs(scope, a), MergedRefs(scope, b)) {
      forall n ensures BestAmong(scope, a, n) == ShownWith(scope, has, b, n) {
        BestAmongMember(scope, a, n);
        BestAmongMember(scope, b, n);
        var shown, best := BestAmong(scope, a, n), BestAmong(scope, b, n);
        assert shown.Some? ==> shown.value in MergedRefs(scope, a);
        assert best.Some? ==> best.value in MergedRefs(scope, b);
      }
    }
  }

  // A query answers with exactly the listed classes that have the key if and only if, wherever the
  // class listed under a name lacks the key, every other class of that name lacks it too.
  lemma {:induction false} QueryAgreesExactlyWhen(scope: Scope, key: ClassMetadata -> bool, fetch: Layer -> seq<ClassRef>)
    requires Fetches(scope, Has(scope, key), fetch)
    ensures SelectedFrom(Has(scope, key), Answer(scope, fetch), AllClasses(scope))
      <==> NothingHiddenIn(scope, Has(scope, key), AllRefs(scope, scope.layers))
    ensures MergeInvariant(scope, Fetched(fetch, scope.layers), Answer(scope, fetch))
  {
    hide MergedRefs, BestAmong, MergeInvariant, ListsMatching, Fetched, AllRefs, Has, SelectedFrom;
    var has, refs, fetched := Has(scope, key), AllRefs(scope, scope.layers), Fetched(fetch, scope.layers);
    AllRefsNamed(scope, scope.layers);
    FetchedNamed(scope, has, fetch, scope.layers);
    MergeKeepsBest(scope, fetched);
    SameMembers(scope, has, fetched, refs);
    QueriesShowAlike(scope, has, fetch);
  }

  lemma {:induction false} QueriesShowAlike(scope: Scope, has: ClassRef -> bool, fetch: Layer -> seq<ClassRef>)
    requires Fetches(scope, has, fetch)
    ensures var refs := AllRefs(scope, scope.layers);
      ShowsSelected(scope, has, Fetched(fetch, scope.layers), refs) <==> NothingHiddenIn(scope, has, refs)
  {
    hide BestAmong, NothingHidden, ListsMatching, Fetched, AllRefs, ShownWith;
    var refs, fetched := AllRefs(scope, scope.layers), Fetched(fetch, scope.layers);
    forall n ensures BestAmong(scope, fetched, n) == ShownWith(scope, has, refs, n) <==> NothingHidden(scope, has, refs, n) {
      FetchedLikeFiltered(scope, has, fetch, scope.layers, n);
      MatchingAgrees(scope, has, refs, n);
    }
  }

  // So queries by a key that the internal name determines always agree with the listing.
  lemma {:induction false} KeyOfNameAgrees(scope: Scope, key: ClassMetadata -> bool, fetch: Layer -> seq<ClassRef>)
    requires Fetches(scope, Has(scope, key), fetch)
    requires forall a, b :: a in AllRefs(scope, scope.layers) && b in AllRefs(scope, scope.layers) && NameOf(scope, a) == NameOf(scope, b) ==>
      Has(scope, key)(a) == Has(scope, key)(b)
    ensures SelectedFrom(Has(scope, key), Answer(scope, fetch), AllClasses(scope))
  {
    hide Has, Answer, AllClasses, MergeInvariant, BestAmong;
    forall n ensures NothingHidden(scope, Has(scope, key), AllRefs(scope, scope.layers), n) {
      BestAmongMember(scope, AllRefs(scope, scope.layers), n);
    }
    QueryAgreesExactlyWhen(scope, key, fetch);
  }

  lemma {:induction false} MergedPair(scope: Scope, a: ClassRef, b: ClassRef)
    requires NameOf(scope, a).Some? && NameOf(scope, b) == NameOf(scope, a) && Precedence(scope, b) <= Precedence(scope, a)
    ensures MergedRefs(scope, [a]) == [a] && MergedRefs(scope, [b]) == [b] && MergedRefs(scope, [a, b]) == [a]
  {
    var name := NameOf(scope, a).value;
    assert Front([a]) == [] && Front([b]) == [] && Front([a, b]) == [a];
    assert Position(scope, [], name) == None;
    FirstWithIsFirst(ref => NameOf(scope, ref), [a], Some(name));
    assert Position(scope, [a], name) == Some(0);
  }

  // Two buckets with one internal name: the query by the second one's simple name answers with a
  // class that the listing does not show.
  lemma {:induction false} HiddenClassAnswers(scope: Scope, a: ClassMetadata, b: ClassMetadata, fetch: Layer -> seq<ClassRef>)
    requires scope.layers == [OverlayLayer([a]), OverlayLayer([b])]
    requires a.internalName == b.internalName && a.name != b.name && a.origin == b.origin
    requires Fetches(scope, Has(scope, SimpleNameIs(b.name)), fetch)
    ensures Resolved(scope, AllClasses(scope)) == [a]
    ensures Resolved(scope, Answer(scope, fetch)) == [b]
  {
    var one, two := OverlayLayer([a]), OverlayLayer([b]);
    var first, second := OverlayRef([a], a.internalName), OverlayRef([b], b.internalName);
    OnlySecondMatches(scope, a, b, fetch);
    ResolvedOne(scope, a);
    ResolvedOne(scope, b);
    MergedPair(scope, first, second);
    hide Resolved, MergedRefs, LayerRefs, Has, ListsMatching, Precedence;
    assert Front(scope.layers) == [one] && Front([one]) == [];
    assert AllRefs(scope, []) + LayerRefs(scope, one) == [first];
    assert AllRefs(scope, scope.layers) == [first, second];
    assert Fetched(fetch, []) + fetch(one) == [];
    assert Fetched(fetch, scope.layers) == [] + fetch(two);
  }

  lemma {:induction false} ResolvedOne(scope: Scope, c: ClassMetadata)
    ensures var ref := OverlayRef([c], c.internalName);
      Resolved(scope, [ref]) == [c] && Precedence(scope, ref) == OriginPrecedence(c.origin)
  {
    var ref := OverlayRef([c], c.internalName);
    FirstWithIsFirst(InternalName, [c], c.internalName);
    assert Front([ref]) == [];
  }

  lemma {:induction false} OnlySecondMatches(scope: Scope, a: ClassMetadata, b: ClassMetadata, fetch: Layer -> seq<ClassRef>)
    requires scope.layers == [OverlayLayer([a]), OverlayLayer([b])] && a.name != b.name
    requires Fetches(scope, Has(scope, SimpleNameIs(b.name)), fetch)
    ensures fetch(OverlayLayer([a])) == [] && fetch(OverlayLayer([b])) == [OverlayRef([b], b.internalName)]
    ensures LayerRefs(scope, OverlayLayer([a])) == [OverlayRef([a], a.internalName)]
    ensures LayerRefs(scope, OverlayLayer([b])) == [OverlayRef([b], b.internalName)]
  {
    var one, two := OverlayLayer([a]), OverlayLayer([b]);
    var has := Has(scope, SimpleNameIs(b.name));
    assert one in scope.layers && two in scope.layers;
    var first, second := OverlayRef([a], a.internalName), OverlayRef([b], b.internalName);
    assert LayerRefs(scope, one) == [first] && LayerRefs(scope, two) == [second];
    FirstWithIsFirst(InternalName, [a], a.internalName);
    FirstWithIsFirst(InternalName, [b], b.internalName);
    assert Resolve(scope, first) == Some(a) && Resolve(scope, second) == Some(b);
    assert !SimpleNameIs(b.name)(a) && SimpleNameIs(b.name)(b);
    assert !has(first) && has(second);
    OnlyMember(fetch(two), second);
    FirstMember(fetch(one));
  }

  lemma FirstMember<T>(s: seq<T>)
    ensures s != [] ==> s[0] in s
  {
  }

  lemma {:induction false} OnlyMember<T>(s: seq<T>, x: T)
    requires NoDup(s) && forall y :: y in s <==> y == x
    ensures s == [x]
  {
    MultisetOfDistinct(s, {x});
    assert |multiset(s)| == 1;
    assert s[0] in s;
  }
}
