// The request-scoped view over a frozen scope: every answer is computed from the layers once
// and remembered.
module View {
  import opened Seqs
  import opened ClassModel
  import opened ArchiveStubs
  import opened ArtifactReader
  import opened BreadthFirst
  import opened ViewSpec
  import opened ViewLookup
  import opened ViewMembers

  type MemberKey = (string, string)

  // ---- merging

  function Fetched(fetch: Layer -> seq<ClassRef>, layers: seq<Layer>): seq<ClassRef> {
    if layers == [] then [] else Fetched(fetch, Front(layers)) + fetch(Last(layers))
  }

  lemma {:induction false} FetchedAll(scope: Scope, fetch: Layer -> seq<ClassRef>, layers: seq<Layer>)
    requires forall layer :: fetch(layer) == LayerRefs(scope, layer)
    ensures Fetched(fetch, layers) == AllRefs(scope, layers)
  {
    if layers != [] {
      FetchedAll(scope, fetch, Front(layers));
    }
  }

  ghost predicate Placed(scope: Scope, positions: map<string, nat>, merged: seq<ClassRef>) {
    forall n :: (if n in positions then Some(positions[n]) else None) == Position(scope, merged, n)
  }

  lemma {:induction false} PlacedAppended(scope: Scope, positions: map<string, nat>, merged: seq<ClassRef>, ref: ClassRef)
    requires Placed(scope, positions, merged) && NameOf(scope, ref).Some? && NameOf(scope, ref).value !in positions
    ensures Placed(scope, positions[NameOf(scope, ref).value := |merged|], merged + [ref])
  {
    assert Front(merged + [ref]) == merged;
    forall n ensures Position(scope, merged + [ref], n)
      == if Position(scope, merged, n).Some? then Position(scope, merged, n)
         else if NameOf(scope, ref) == Some(n) then Some(|merged|) else None
    {
    }
  }

  lemma {:induction false} PositionReplaced(scope: Scope, merged: seq<ClassRef>, i: nat, ref: ClassRef, n: string)
    requires i < |merged| && NameOf(scope, ref) == NameOf(scope, merged[i])
    ensures Position(scope, merged[i := ref], n) == Position(scope, merged, n)
  {
    var key := (r: ClassRef) => NameOf(scope, r);
    FirstWithSameKeys(key, merged[i := ref], key, merged, Some(n));
    assert Position(scope, merged, n) == FirstWith(key, merged, Some(n));
  }

  // ---- what the caches may hold

  ghost predicate ClassesRemembered(scope: Scope, cache: map<string, Option<ClassRef>>) {
    forall n :: n in cache ==> cache[n] == Best(scope, n)
  }

  ghost predicate WalksRemembered(scope: Scope, cache: map<string, seq<ClassRef>>) {
    forall n :: n in cache ==> cache[n] == HierarchyRefs(scope, n)
  }

  ghost predicate MethodsRemembered(scope: Scope, cache: map<MemberKey, seq<MethodSummary>>) {
    forall k :: k in cache ==> cache[k] == MethodsNamed(scope, k.0, k.1)
  }

  ghost predicate FieldsRemembered(scope: Scope, cache: map<MemberKey, Option<FieldSummary>>) {
    forall k :: k in cache ==> cache[k] == FieldNamed(CollectedFields(scope, k.0), k.1)
  }

  ghost predicate MethodRefsRemembered(scope: Scope, cache: map<MemberKey, seq<MethodRef>>) {
    forall k :: k in cache ==> cache[k] == MethodRefs(scope, k.0, k.1)
  }

  ghost predicate FieldRefsRemembered(scope: Scope, cache: map<MemberKey, Option<FieldRef>>) {
    forall k :: k in cache ==> cache[k] == FirstFieldRef(scope, HierarchyRefs(scope, k.0), k.1)
  }

  class IndexView {
    const scope: Scope
    var classByInternal: map<string, Option<ClassRef>>
    var hierarchies: map<string, seq<ClassRef>>
    var methodsByName: map<MemberKey, seq<MethodSummary>>
    var fieldsByName: map<MemberKey, Option<FieldSummary>>
    var methodRefsByName: map<MemberKey, seq<MethodRef>>
    var fieldRefsByName: map<MemberKey, Option<FieldRef>>
    var allClasses: Option<seq<ClassRef>>
    var nameTable: Option<set<string>>

    // Every remembered answer is what the layers answer.
    ghost predicate Valid()
      reads this
    {
      && ClassesRemembered(scope, classByInternal)
      && WalksRemembered(scope, hierarchies)
      && MethodsRemembered(scope, methodsByName)
      && FieldsRemembered(scope, fieldsByName)
      && MethodRefsRemembered(scope, methodRefsByName)
      && FieldRefsRemembered(scope, fieldRefsByName)
      && (allClasses.Some? ==> allClasses.value == AllClasses(scope))
      && (nameTable.Some? ==> nameTable.value == NamesIn(scope, scope.layers))
    }

    constructor (scope: Scope)
      ensures Valid() && this.scope == scope
    {
      this.scope := scope;
      classByInternal, hierarchies, methodsByName, fieldsByName := map[], map[], map[], map[];
      methodRefsByName, fieldRefsByName, allClasses, nameTable := map[], map[], None, None;
    }

    // ---- lookup

    method GetClassRef(name: string) returns (best: Option<ClassRef>)
      requires Valid()
      modifies this`classByInternal
      ensures Valid() && best == Best(scope, name)
    {
      if name in classByInternal {
        return classByInternal[name];
      }
      best := None;
      for i := 0 to |scope.layers|
        invariant best == BestIn(scope, scope.layers[..i], name)
      {
        assert Front(scope.layers[..i + 1]) == scope.layers[..i];
        var candidate := LayerRef(scope, scope.layers[i], name);
        if candidate.None? {
          continue;
        }
        if best.None? || Precedence(scope, candidate.value) > Precedence(scope, best.value) {
          best := candidate;
        }
      }
      assert scope.layers[..|scope.layers|] == scope.layers;
      classByInternal := classByInternal[name := best];
    }

    method GetClass(name: string) returns (c: Option<ClassMetadata>)
      requires Valid()
      modifies this`classByInternal
      ensures Valid() && c == ClassNamed(scope, name)
    {
      var ref := GetClassRef(name);
      c := if ref.Some? then Resolve(scope, ref.value) else None;
    }

    method MergeClassRefs(fetch: Layer -> seq<ClassRef>) returns (merged: seq<ClassRef>)
      ensures merged == MergedRefs(scope, Fetched(fetch, scope.layers))
    {
      merged := [];
      var positions: map<string, nat> := map[];
      for i := 0 to |scope.layers|
        invariant merged == MergedRefs(scope, Fetched(fetch, scope.layers[..i]))
        invariant Placed(scope, positions, merged)
      {
        assert Front(scope.layers[..i + 1]) == scope.layers[..i];
        merged, positions := MergeLayer(fetch(scope.layers[i]), merged, positions, Fetched(fetch, scope.layers[..i]));
      }
      assert scope.layers[..|scope.layers|] == scope.layers;
    }

    method MergeLayer(refs: seq<ClassRef>, before: seq<ClassRef>, known: map<string, nat>, ghost earlier: seq<ClassRef>)
      returns (merged: seq<ClassRef>, positions: map<string, nat>)
      requires before == MergedRefs(scope, earlier) && Placed(scope, known, before)
      ensures merged == MergedRefs(scope, earlier + refs) && Placed(scope, positions, merged)
    {
      merged, positions := before, known;
      assert earlier + refs[..0] == earlier;
      for i := 0 to |refs|
        invariant merged == MergedRefs(scope, earlier + refs[..i]) && Placed(scope, positions, merged)
      {
        assert Front(earlier + refs[..i + 1]) == earlier + refs[..i] && Last(earlier + refs[..i + 1]) == refs[i];
        merged, positions := MergeRef(refs[i], merged, positions);
      }
      assert refs[..|refs|] == refs;
    }

    method MergeRef(ref: ClassRef, before: seq<ClassRef>, known: map<string, nat>)
      returns (merged: seq<ClassRef>, positions: map<string, nat>)
      requires Placed(scope, known, before)
      ensures merged == AddRef(scope, before, ref) && Placed(scope, positions, merged)
    {
      merged, positions := before, known;
      var key := NameOf(scope, ref);
      if key.None? {
        return;
      }
      assert (if key.value in known then Some(known[key.value]) else None) == Position(scope, before, key.value);
      if key.value in positions {
        var existing := positions[key.value];
        if Precedence(scope, ref) > Precedence(scope, merged[existing]) {
          forall n ensures Position(scope, before[existing := ref], n) == Position(scope, before, n) {
            PositionReplaced(scope, before, existing, ref, n);
          }
          merged := merged[existing := ref];
        }
      } else {
        PlacedAppended(scope, positions, merged, ref);
        positions := positions[key.value := |merged|];
        merged := merged + [ref];
      }
    }

    method ResolveClassRefs(refs: seq<ClassRef>) returns (cs: seq<ClassMetadata>)
      ensures cs == Resolved(scope, refs)
    {
      cs := [];
      for i := 0 to |refs|
        invariant cs == Resolved(scope, refs[..i])
      {
        assert Front(refs[..i + 1]) == refs[..i];
        var c := Resolve(scope, refs[i]);
        if c.Some? {
          cs := cs + [c.value];
        }
      }
      assert refs[..|refs|] == refs;
    }

    method IterAllClasses() returns (cs: seq<ClassMetadata>)
      requires Valid()
      modifies this`allClasses
      ensures Valid() && cs == Resolved(scope, AllClasses(scope))
    {
      if allClasses.None? {
        FetchedAll(scope, layer => LayerRefs(scope, layer), scope.layers);
        var merged := MergeClassRefs(layer => LayerRefs(scope, layer));
        allClasses := Some(merged);
      }
      cs := ResolveClassRefs(allClasses.value);
    }

    method BuildNameTable() returns (names: set<string>)
      requires Valid()
      modifies this`nameTable
      ensures Valid() && names == NamesIn(scope, scope.layers)
    {
      if nameTable.Some? {
        return nameTable.value;
      }
      names := {};
      for i := 0 to |scope.layers|
        invariant names == NamesIn(scope, scope.layers[..i])
      {
        assert Front(scope.layers[..i + 1]) == scope.layers[..i];
        names := names + LayerNames(scope, scope.layers[i]);
      }
      assert scope.layers[..|scope.layers|] == scope.layers;
      nameTable := Some(names);
    }

    // ---- the inheritance walk

    method PushParents(queue: seq<string>, parents: seq<string>) returns (longer: seq<string>)
      ensures longer == queue + NonEmpty(parents)
    {
      longer := queue;
      for i := 0 to |parents|
        invariant longer == queue + NonEmpty(parents[..i])
      {
        assert Front(parents[..i + 1]) == parents[..i];
        if parents[i] != "" {
          longer := longer + [parents[i]];
        }
      }
      assert parents[..|parents|] == parents;
    }

    method HierarchyOrder(name: string) returns (order: seq<ClassRef>)
      requires Valid()
      modifies this`classByInternal, this`hierarchies
      ensures Valid() && order == HierarchyRefs(scope, name)
    {
      if name in hierarchies {
        return hierarchies[name];
      }
      order := WalkHierarchy(name);
      hierarchies := hierarchies[name := order];
    }

    method WalkHierarchy(name: string) returns (order: seq<ClassRef>)
      requires Valid()
      modifies this`classByInternal
      ensures Valid() && order == HierarchyRefs(scope, name)
    {
      ghost var g := ParentGraph(scope);
      ghost var names: seq<string> := [];
      order := [];
      var seen: set<string>, queue: seq<string> := {}, [name];
      while queue != []
        invariant Valid()
        invariant names + Walk(g, queue, seen) == HierarchyNames(scope, name)
        invariant order == RefsFor(scope, names)
        decreases |g.Keys - seen|, |queue|
      {
        LoopTurn(g, HierarchyNames(scope, name), names, queue, seen);
        var internal := queue[0];
        queue := queue[1..];
        if internal in seen {
          continue;
        }
        seen := seen + {internal};
        var ref := GetClassRef(internal);
        NamesAreResolvable(scope, scope.layers, internal);
        if ref.None? {
          continue;
        }
        assert Front(names + [internal]) == names;
        order := order + [ref.value];
        names := names + [internal];
        queue := PushParents(queue, ParentNames(scope, ref.value));
      }
      assert names == HierarchyNames(scope, name);
    }

    // ---- members

    method ProjectHierarchyClasses(order: seq<ClassRef>) returns (result: seq<ClassMetadata>)
      ensures result == Projected(scope, order)
    {
      result := [];
      var seenMethods: set<(string, string)>, seenFields: set<string> := {}, {};
      for i := 0 to |order|
        invariant result == Projected(scope, order[..i])
        invariant seenMethods == Keys(ShadowKey, MethodsMet(scope, order[..i]))
        invariant seenFields == Keys(FieldName, FieldsMet(scope, order[..i]))
      {
        assert Front(order[..i + 1]) == order[..i] && Last(order[..i + 1]) == order[i];
        var meta := Resolve(scope, order[i]);
        if meta.None? {
          assert MethodsMet(scope, order[..i]) + [] == MethodsMet(scope, order[..i]);
          assert FieldsMet(scope, order[..i]) + [] == FieldsMet(scope, order[..i]);
          continue;
        }
        var methods, fields;
        methods, seenMethods := RetainUnseen(ShadowKey, meta.value.methods, seenMethods, MethodsMet(scope, order[..i]));
        fields, seenFields := RetainUnseen(FieldName, meta.value.fields, seenFields, FieldsMet(scope, order[..i]));
        result := result + [meta.value.(methods := methods, fields := fields)];
      }
      assert order[..|order|] == order;
    }

    method Mro(name: string) returns (result: seq<ClassMetadata>)
      requires Valid()
      modifies this`classByInternal, this`hierarchies
      ensures Valid() && result == Projected(scope, HierarchyRefs(scope, name))
    {
      var order := HierarchyOrder(name);
      result := ProjectHierarchyClasses(order);
    }

    method CollectInheritedMembers(name: string) returns (methods: seq<MethodSummary>, fields: seq<FieldSummary>)
      requires Valid()
      modifies this`classByInternal, this`hierarchies
      ensures Valid() && methods == CollectedMethods(scope, name) && fields == CollectedFields(scope, name)
    {
      var order := HierarchyOrder(name);
      methods, fields := CollectAlong(order);
    }

    method CollectAlong(order: seq<ClassRef>) returns (methods: seq<MethodSummary>, fields: seq<FieldSummary>)
      ensures methods == KeepFirst(ShadowKey, MethodsMet(scope, order))
      ensures fields == KeepFirst(FieldName, FieldsMet(scope, order))
    {
      methods, fields := [], [];
      var seenMethods: set<(string, string)>, seenFields: set<string> := {}, {};
      for i := 0 to |order|
        invariant methods == KeepFirst(ShadowKey, MethodsMet(scope, order[..i]))
        invariant fields == KeepFirst(FieldName, FieldsMet(scope, order[..i]))
        invariant seenMethods == Keys(ShadowKey, MethodsMet(scope, order[..i]))
        invariant seenFields == Keys(FieldName, FieldsMet(scope, order[..i]))
      {
        assert Front(order[..i + 1]) == order[..i] && Last(order[..i + 1]) == order[i];
        var ownMethods, ownFields := MembersOf(order[i]);
        methods, seenMethods := AppendUnseen(ShadowKey, ownMethods, methods, seenMethods, MethodsMet(scope, order[..i]));
        fields, seenFields := AppendUnseen(FieldName, ownFields, fields, seenFields, FieldsMet(scope, order[..i]));
      }
      assert order[..|order|] == order;
    }

    // Overlay classes hand out their members; archive members are materialised from their stubs.
    method MembersOf(ref: ClassRef) returns (methods: seq<MethodSummary>, fields: seq<FieldSummary>)
      ensures methods == MethodsOf(scope, ref) && fields == FieldsOf(scope, ref)
    {
      match ref
      case OverlayRef(_, _) =>
        var meta := Resolve(scope, ref);
        if meta.None? {
          return [], [];
        }
        return meta.value.methods, meta.value.fields;
      case ArtifactRef(handle) =>
        var stub := StubOf(scope, handle);
        if stub.None? {
          return [], [];
        }
        return MethodsFrom(stub.value.methods), MaterializeFields(stub.value.fields);
    }

    method LookupMethods(class_: string, name: string) returns (methods: seq<MethodSummary>)
      requires Valid()
      modifies this`classByInternal, this`hierarchies, this`methodsByName
      ensures Valid() && methods == MethodsNamed(scope, class_, name)
    {
      if (class_, name) in methodsByName {
        return methodsByName[(class_, name)];
      }
      var all, fields := CollectInheritedMembers(class_);
      methods := SelectNamed(all, name);
      methodsByName := methodsByName[(class_, name) := methods];
    }

    method LookupField(class_: string, name: string) returns (field: Option<FieldSummary>)
      requires Valid()
      modifies this`classByInternal, this`hierarchies, this`fieldsByName
      ensures Valid() && field == FieldNamed(CollectedFields(scope, class_), name)
    {
      if (class_, name) in fieldsByName {
        return fieldsByName[(class_, name)];
      }
      var methods, all := CollectInheritedMembers(class_);
      field := FieldNamed(all, name);
      fieldsByName := fieldsByName[(class_, name) := field];
    }

    // ---- members as references

    method LookupMethodRefs(class_: string, name: string) returns (refs: seq<MethodRef>)
      requires Valid()
      modifies this`classByInternal, this`hierarchies, this`methodRefsByName
      ensures Valid() && refs == MethodRefs(scope, class_, name)
    {
      if (class_, name) in methodRefsByName {
        return methodRefsByName[(class_, name)];
      }
      var order := HierarchyOrder(class_);
      refs := HandAlong(order, name);
      methodRefsByName := methodRefsByName[(class_, name) := refs];
    }

    method HandAlong(order: seq<ClassRef>, name: string) returns (refs: seq<MethodRef>)
      ensures refs == Map(Handed, KeepFirst(Shadow, SitesAlong(scope, order, name)))
    {
      refs := [];
      var seen: set<(string, string)> := {};
      for i := 0 to |order|
        invariant Handing(refs, seen, SitesAlong(scope, order[..i], name))
      {
        assert Front(order[..i + 1]) == order[..i] && Last(order[..i + 1]) == order[i];
        refs, seen := HandClass(order[i], name, refs, seen, SitesAlong(scope, order[..i], name));
      }
      assert order[..|order|] == order;
    }

    method HandClass(class_: ClassRef, name: string, before: seq<MethodRef>, known: set<(string, string)>, ghost sites: seq<MethodSite>)
      returns (refs: seq<MethodRef>, seen: set<(string, string)>)
      requires Handing(before, known, sites)
      ensures Handing(refs, seen, sites + SitesOf(scope, class_, name))
    {
      assert sites + [] == sites;
      var owner := TypeRefOf(scope, class_);
      if owner.None? {
        return before, known;
      }
      match class_
      case OverlayRef(_, _) =>
        var meta := Resolve(scope, class_);
        if meta.None? {
          return before, known;
        }
        refs, seen := HandOverlayMethods(owner.value, meta.value.methods, name, before, known, sites);
      case ArtifactRef(handle) =>
        var stub := StubOf(scope, handle);
        if stub.None? {
          return before, known;
        }
        refs, seen := HandArtifactMethods(owner.value, handle, stub.value.methods, name, before, known, sites);
    }

    method LookupFieldRef(class_: string, name: string) returns (field: Option<FieldRef>)
      requires Valid()
      modifies this`classByInternal, this`hierarchies, this`fieldRefsByName
      ensures Valid() && field == FirstFieldRef(scope, HierarchyRefs(scope, class_), name)
    {
      if (class_, name) in fieldRefsByName {
        return fieldRefsByName[(class_, name)];
      }
      var order := HierarchyOrder(class_);
      field := FindFieldRef(order, name);
      fieldRefsByName := fieldRefsByName[(class_, name) := field];
    }

    method FindFieldRef(order: seq<ClassRef>, name: string) returns (field: Option<FieldRef>)
      ensures field == FirstFieldRef(scope, order, name)
    {
      field := None;
      for i := 0 to |order|
        invariant field == FirstFieldRef(scope, order[..i], name)
      {
        assert Front(order[..i + 1]) == order[..i] && Last(order[..i + 1]) == order[i];
        if field.None? {
          field := FieldRefIn(scope, order[i], name);
        }
      }
      assert order[..|order|] == order;
    }

    method MaterializeMethodRef(r: MethodRef) returns (method_: Option<MethodSummary>)
      requires Valid()
      modifies this`classByInternal
      ensures Valid() && method_ == MaterializedMethod(scope, r)
    {
      if r.artifact.Some? {
        var stub := MethodStubAt(scope, r.artifact.value);
        return if stub.Some? then MaterializeMethod(stub.value) else None;
      }
      var owner := MaterializeClass(r.owner);
      if owner.None? {
        return None;
      }
      method_ := FindMethod(owner.value.methods, r.name, r.descriptor);
    }

    method MaterializeClass(owner: TypeRef) returns (c: Option<ClassMetadata>)
      requires Valid()
      modifies this`classByInternal
      ensures Valid() && c == MaterializedClass(scope, owner)
    {
      match owner
      case SourceType(name) => c := GetClass(name);
      case ArtifactType(_, handle) => c := Resolve(scope, ArtifactRef(handle));
    }
  }

  method SelectNamed(all: seq<MethodSummary>, name: string) returns (methods: seq<MethodSummary>)
    ensures methods == Filter(Named(name), all)
  {
    methods := [];
    for i := 0 to |all|
      invariant methods == Filter(Named(name), all[..i])
    {
      assert all[..i + 1] == all[..i] + [all[i]];
      FilterSnoc(Named(name), all[..i], all[i]);
      if all[i].name == name {
        methods := methods + [all[i]];
      }
    }
    assert all[..|all|] == all;
  }

  method FindMethod(methods: seq<MethodSummary>, name: string, descriptor: string) returns (found: Option<MethodSummary>)
    ensures var i := FirstWith(NameAndDesc, methods, (name, descriptor));
      found == if i.Some? then Some(methods[i.value]) else None
  {
    for i := 0 to |methods|
      invariant FirstWith(NameAndDesc, methods[..i], (name, descriptor)) == None
    {
      assert Front(methods[..i + 1]) == methods[..i] && Last(methods[..i + 1]) == methods[i];
      if methods[i].name == name && Desc(methods[i]) == descriptor {
        FirstOfPrefix(methods, i, (name, descriptor));
        return Some(methods[i]);
      }
    }
    assert methods[..|methods|] == methods;
    found := None;
  }

  lemma {:induction false} FirstOfPrefix(methods: seq<MethodSummary>, i: nat, k: (string, string))
    requires i < |methods| && NameAndDesc(methods[i]) == k && FirstWith(NameAndDesc, methods[..i], k) == None
    ensures FirstWith(NameAndDesc, methods, k) == Some(i)
  {
    FirstWithIsFirst(NameAndDesc, methods[..i], k);
    FirstWithIsFirst(NameAndDesc, methods, k);
    forall j | 0 <= j < i ensures NameAndDesc(methods[j]) != k {
      assert methods[..i][j] == methods[j];
    }
  }

  // ---- handing out references site by site

  ghost predicate Handing(refs: seq<MethodRef>, seen: set<(string, string)>, sites: seq<MethodSite>) {
    refs == Map(Handed, KeepFirst(Shadow, sites)) && seen == Keys(Shadow, sites)
  }

  lemma {:induction false} HandOne(refs: seq<MethodRef>, seen: set<(string, string)>, sites: seq<MethodSite>, s: MethodSite)
    requires Handing(refs, seen, sites)
    ensures if s.shadow in seen then Handing(refs, seen, sites + [s]) else Handing(refs + [s.ref], seen + {s.shadow}, sites + [s])
  {
    assert Front(sites + [s]) == sites;
    if s.shadow in seen {
      assert seen + {s.shadow} == seen;
    } else {
      MapSnoc(Handed, KeepFirst(Shadow, sites), s);
    }
  }

  lemma OneMore<T>(a: seq<T>, b: seq<T>, x: T)
    ensures a + (b + [x]) == a + b + [x]
  {
  }

  method HandOverlayMethods(owner: TypeRef, methods: seq<MethodSummary>, name: string,
      before: seq<MethodRef>, known: set<(string, string)>, ghost sites: seq<MethodSite>)
    returns (refs: seq<MethodRef>, seen: set<(string, string)>)
    requires Handing(before, known, sites)
    ensures Handing(refs, seen, sites + OverlaySites(owner, methods, name))
  {
    refs, seen := before, known;
    assert sites + [] == sites;
    for i := 0 to |methods|
      invariant Handing(refs, seen, sites + OverlaySites(owner, methods[..i], name))
    {
      var m := methods[i];
      assert Front(methods[..i + 1]) == methods[..i] && Last(methods[..i + 1]) == m;
      ghost var earlier := sites + OverlaySites(owner, methods[..i], name);
      if m.name == name {
        ghost var site := OverlaySite(owner, m);
        HandOne(refs, seen, earlier, site);
        OneMore(sites, OverlaySites(owner, methods[..i], name), site);
        var key := ShadowKey(m);
        if key !in seen {
          refs, seen := refs + [MethodRef(owner, m.name, Desc(m), m.accessFlags, None)], seen + {key};
        }
      } else {
        assert OverlaySites(owner, methods[..i + 1], name) == OverlaySites(owner, methods[..i], name);
      }
    }
    assert methods[..|methods|] == methods;
  }

  method HandArtifactMethods(owner: TypeRef, handle: ClassHandle, stubs: seq<MethodStub>, name: string,
      before: seq<MethodRef>, known: set<(string, string)>, ghost sites: seq<MethodSite>)
    returns (refs: seq<MethodRef>, seen: set<(string, string)>)
    requires Handing(before, known, sites)
    ensures Handing(refs, seen, sites + ArtifactSites(owner, handle, stubs, name))
  {
    refs, seen := before, known;
    assert sites + [] == sites;
    for slot := 0 to |stubs|
      invariant Handing(refs, seen, sites + ArtifactSites(owner, handle, stubs[..slot], name))
    {
      var stub := stubs[slot];
      assert Front(stubs[..slot + 1]) == stubs[..slot] && Last(stubs[..slot + 1]) == stub;
      ghost var earlier := sites + ArtifactSites(owner, handle, stubs[..slot], name);
      if stub.name == name {
        ghost var site := ArtifactSite(owner, handle, slot, stub);
        HandOne(refs, seen, earlier, site);
        OneMore(sites, ArtifactSites(owner, handle, stubs[..slot], name), site);
        var key := StubShadowKey(stub);
        if key !in seen {
          refs, seen := refs + [MethodRef(owner, stub.name, stub.descriptor, stub.accessFlags, Some(MethodHandle(handle, slot)))], seen + {key};
        }
      } else {
        assert ArtifactSites(owner, handle, stubs[..slot + 1], name) == ArtifactSites(owner, handle, stubs[..slot], name);
      }
    }
    assert stubs[..|stubs|] == stubs;
  }
}
