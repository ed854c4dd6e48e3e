// The compact form in which archive classes are stored, and its way back to full metadata.
module ArchiveStubs {
  import opened Seqs
  import opened ClassModel
  import opened JvmTypes
  import opened Descriptors

  datatype MethodStub = MethodStub(
    name: string,
    descriptor: string,
    paramNames: seq<string>,
    accessFlags: bv16,
    isSynthetic: bool,
    genericSignature: Option<string>)

  datatype FieldStub = FieldStub(
    name: string,
    descriptor: string,
    accessFlags: bv16,
    isSynthetic: bool,
    genericSignature: Option<string>)

  datatype ClassStub = ClassStub(
    package: Option<string>,
    name: string,
    internalName: string,
    superName: Option<string>,
    interfaces: seq<string>,
    methods: seq<MethodStub>,
    fields: seq<FieldStub>,
    accessFlags: bv16,
    genericSignature: Option<string>,
    innerClassOf: Option<string>,
    origin: ClassOrigin,
    annotationTargets: Option<seq<string>>,
    annotationRetention: Option<string>)

  function ParamNames(params: seq<MethodParam>): (names: seq<string>)
    ensures |names| == |params|
  {
    seq(|params|, i requires 0 <= i < |params| => params[i].name)
  }

  function StubMethod(m: MethodSummary): MethodStub {
    MethodStub(m.name, Desc(m), ParamNames(m.params), m.accessFlags, m.isSynthetic, m.genericSignature)
  }

  // The method a stub stands for, when materialising it returns at all.
  function MethodOf(s: MethodStub): MethodSummary {
    MethodSummary(s.name, NamedParams(Pieces(Inner(s.descriptor)), s.paramNames), [], s.accessFlags, s.isSynthetic,
      s.genericSignature, ReturnType(s.descriptor))
  }

  // None stands for a panic while slicing the descriptor.
  function MaterializeMethod(s: MethodStub): (m: Option<MethodSummary>)
    ensures m.Some? <==> Splittable(s.descriptor)
  {
    if Splittable(s.descriptor) then Some(MethodOf(s)) else None
  }

  function StubField(f: FieldSummary): FieldStub {
    FieldStub(f.name, f.descriptor, f.accessFlags, f.isSynthetic, f.genericSignature)
  }

  function MaterializeField(s: FieldStub): FieldSummary {
    FieldSummary(s.name, s.descriptor, s.accessFlags, [], s.isSynthetic, s.genericSignature)
  }

  function StubClass(c: ClassMetadata): ClassStub {
    ClassStub(c.package, c.name, c.internalName, c.superName, c.interfaces,
      seq(|c.methods|, i requires 0 <= i < |c.methods| => StubMethod(c.methods[i])),
      seq(|c.fields|, i requires 0 <= i < |c.fields| => StubField(c.fields[i])),
      c.accessFlags, c.genericSignature, c.innerClassOf, c.origin,
      AnnotationTargets(c.annotations), AnnotationRetention(c.annotations))
  }

  function Materialize(s: ClassStub): (c: Option<ClassMetadata>)
    ensures c.Some? <==> forall m :: m in s.methods ==> Splittable(m.descriptor)
  {
    if forall m :: m in s.methods ==> Splittable(m.descriptor) then Some(ClassOf(s)) else None
  }

  function ClassOf(s: ClassStub): ClassMetadata {
    ClassMetadata(s.package, s.name, s.internalName, s.superName, s.interfaces, MaterializeAnnotations(s),
      MethodsFrom(s.methods), MaterializeFields(s.fields),
      s.accessFlags, s.genericSignature, s.innerClassOf, s.origin)
  }

  function MethodsFrom(methods: seq<MethodStub>): (r: seq<MethodSummary>)
    ensures |r| == |methods|
  {
    seq(|methods|, i requires 0 <= i < |methods| => MethodOf(methods[i]))
  }

  function MaterializeFields(fields: seq<FieldStub>): (r: seq<FieldSummary>)
    ensures |r| == |fields|
  {
    seq(|fields|, i requires 0 <= i < |fields| => MaterializeField(fields[i]))
  }

  function TargetConsts(targets: seq<string>): (items: seq<AnnotationValue>)
    ensures |items| == |targets|
  {
    seq(|targets|, i requires 0 <= i < |targets| => EnumConst(TARGET_VALUE_TYPE, targets[i]))
  }

  function TargetAnnotation(targets: seq<string>): AnnotationSummary {
    AnnotationSummary(TARGET_INTERNAL, true,
      map["value" := if |targets| == 1 then EnumConst(TARGET_VALUE_TYPE, targets[0]) else Array(TargetConsts(targets))])
  }

  function RetentionAnnotation(retention: string): AnnotationSummary {
    AnnotationSummary(RETENTION_INTERNAL, true, map["value" := EnumConst(RETENTION_VALUE_TYPE, retention)])
  }

  function MaterializeAnnotations(s: ClassStub): seq<AnnotationSummary> {
    (if s.annotationTargets.Some? then [TargetAnnotation(s.annotationTargets.value)] else [])
    + (if s.annotationRetention.Some? then [RetentionAnnotation(s.annotationRetention.value)] else [])
  }

  // ---- re-stubbing a materialised stub

  // `(` pieces `)` and a return type that prints back to itself, and no slice through a character.
  predicate PrintedShape(descriptor: string) {
    var close := IndexOf(descriptor, ')');
    && descriptor != "" && descriptor[0] == '(' && close < |descriptor|
    && Splittable(descriptor)
    && CanonicalReturn(descriptor[close + 1..])
  }

  // A stub that could be written down: a printed descriptor with one name per piece.
  predicate WellFormedStub(s: MethodStub) {
    PrintedShape(s.descriptor) && |s.paramNames| == |Pieces(Inner(s.descriptor))|
  }

  predicate CanonicalReturn(text: string) {
    text == "V" || (Parse(text).Some? && Parse(text).value.0 != Primitive('V') && Signature(Parse(text).value.0) == text)
  }

  lemma {:induction false} DescriptorsOfNamed(pieces: seq<string>, names: seq<string>)
    ensures ParamDescriptors(NamedParams(pieces, names)) == Joined(pieces)
  {
    if pieces != [] {
      var params := NamedParams(pieces, names);
      assert Front(params) == NamedParams(Front(pieces), names);
      DescriptorsOfNamed(Front(pieces), names);
      JoinedSnoc(Front(pieces), Last(pieces));
      assert Front(pieces) + [Last(pieces)] == pieces;
    }
  }

  lemma {:induction false} JoinedSnoc(a: seq<string>, p: string)
    ensures Joined(a + [p]) == Joined(a) + p
  {
    if a == [] {
      assert [p][1..] == [];
    } else {
      assert (a + [p])[1..] == a[1..] + [p];
      JoinedSnoc(a[1..], p);
    }
  }

  lemma {:induction false} MaterializedDesc(s: MethodStub)
    ensures Desc(MethodOf(s)) == "(" + Inner(s.descriptor) + ")" +
      (if ReturnType(s.descriptor).Some? then ReturnType(s.descriptor).value else "V")
  {
    DescriptorsOfNamed(Pieces(Inner(s.descriptor)), s.paramNames);
    PiecesConcatenate(Inner(s.descriptor));
  }

  lemma {:induction false} SplitAtParentheses(d: string)
    requires d != "" && d[0] == '(' && IndexOf(d, ')') < |d|
    ensures d == "(" + Inner(d) + ")" + d[IndexOf(d, ')') + 1..]
  {
    IndexOfFirst(d, '(', 0);
  }

  lemma {:induction false} HasParentheses(inner: string, tail: string)
    ensures var d := "(" + inner + ")" + tail; d[0] == '(' && IndexOf(d, ')') < |d|
  {
    assert ("(" + inner + ")" + tail)[1 + |inner|] == ')';
  }

  lemma {:induction false} SameDescriptor(s: MethodStub)
    ensures Desc(MethodOf(s)) == s.descriptor <==>
      s.descriptor != "" && s.descriptor[0] == '(' && IndexOf(s.descriptor, ')') < |s.descriptor|
      && CanonicalReturn(s.descriptor[IndexOf(s.descriptor, ')') + 1..])
  {
    var d, close := s.descriptor, IndexOf(s.descriptor, ')');
    var ret := if ReturnType(d).Some? then ReturnType(d).value else "V";
    MaterializedDesc(s);
    HasParentheses(Inner(d), ret);
    if d != "" && d[0] == '(' && close < |d| {
      SplitAtParentheses(d);
      SameTail("(" + Inner(d) + ")", d[close + 1..], ret);
    }
  }

  // Materialising returns a method with the stub's own descriptor exactly when that has the
  // printed shape.
  lemma {:induction false} DescSurvives(s: MethodStub)
    ensures MaterializeMethod(s).Some? && Desc(MaterializeMethod(s).value) == s.descriptor <==> PrintedShape(s.descriptor)
  {
    SameDescriptor(s);
  }

  lemma SameTail(head: string, a: string, b: string)
    ensures head + a == head + b <==> a == b
  {
    assert (head + a)[|head|..] == a && (head + b)[|head|..] == b;
  }

  lemma {:induction false} RestubMethod(s: MethodStub)
    ensures MaterializeMethod(s).Some? && StubMethod(MaterializeMethod(s).value) == s <==> WellFormedStub(s)
  {
    DescSurvives(s);
    var names := ParamNames(MethodOf(s).params);
    if |s.paramNames| == |Pieces(Inner(s.descriptor))| {
      assert names == s.paramNames;
    }
  }

  lemma {:induction false} ConstNamesOfTargets(targets: seq<string>)
    ensures ConstNames(TargetConsts(targets)) == targets
  {
    if targets != [] {
      assert TargetConsts(targets)[1..] == TargetConsts(targets[1..]);
      ConstNamesOfTargets(targets[1..]);
    }
  }

  lemma {:induction false} AnnotationsSurvive(s: ClassStub)
    ensures AnnotationTargets(ClassOf(s).annotations) == s.annotationTargets
    ensures AnnotationRetention(ClassOf(s).annotations) == s.annotationRetention
  {
    assert |TARGET_INTERNAL| != |RETENTION_INTERNAL|;
    var annotations := MaterializeAnnotations(s);
    var retention := if s.annotationRetention.Some? then [RetentionAnnotation(s.annotationRetention.value)] else [];
    assert FindAnnotation(retention, TARGET_INTERNAL) == None;
    if s.annotationTargets.Some? {
      var targets := s.annotationTargets.value;
      ConstNamesOfTargets(targets);
      assert |targets| == 1 ==> [targets[0]] == targets;
      assert annotations[0] == TargetAnnotation(s.annotationTargets.value) && annotations[1..] == retention;
      assert FindAnnotation(annotations, TARGET_INTERNAL) == Some(annotations[0]);
      assert FindAnnotation(annotations, RETENTION_INTERNAL) == FindAnnotation(retention, RETENTION_INTERNAL);
    } else {
      assert annotations == retention;
    }
  }

  // Materialising returns and re-stubbing gives the stub back exactly for classes all of whose
  // method stubs are well formed.
  lemma {:induction false} RestubClass(s: ClassStub)
    ensures Materialize(s).Some? && StubClass(Materialize(s).value) == s <==> forall m :: m in s.methods ==> WellFormedStub(m)
  {
    AnnotationsSurvive(s);
    var again := StubClass(ClassOf(s));
    assert again.fields == s.fields;
    forall i | 0 <= i < |s.methods| ensures Splittable(s.methods[i].descriptor) && again.methods[i] == s.methods[i] <==> WellFormedStub(s.methods[i]) {
      RestubMethod(s.methods[i]);
    }
    if forall m :: m in s.methods ==> WellFormedStub(m) {
      forall i | 0 <= i < |s.methods| ensures again.methods[i] == s.methods[i] {
        assert s.methods[i] in s.methods;
      }
    }
  }

  // A stub whose restored method would print the same text although materialising it panics.
  lemma PanickingDescriptor()
    ensures var s := MethodStub("f", "(\U{00E9})V", ["x"], 0, false, None);
      Desc(MethodOf(s)) == s.descriptor && MaterializeMethod(s) == None && !WellFormedStub(s)
  {
    var d := "(\U{00E9})V";
    var s := MethodStub("f", d, ["x"], 0, false, None);
    IndexOfFirst(d, '(', 0);
    IndexOfFirst(d, ')', 2);
    assert Inner(d) == "\U{00E9}";
    assert !HeadSliceable(Inner(d));
    assert d[3..] == "V";
    SameDescriptor(s);
  }

  // A method of Java source or bytecode: field-descriptor parameters and return type.
  ghost predicate HasTypes(m: MethodSummary, ts: seq<JvmType>, ret: JvmType) {
    && |m.params| == |ts|
    && (forall i :: 0 <= i < |ts| ==> IsFieldType(ts[i]) && m.params[i].descriptor == Signature(ts[i]))
    && (if ret == Primitive('V') then m.returnType == None else m.returnType == Some(Signature(ret)))
    && WellFormed(ret)
    && ')' !in Joined(Descs(ts))
  }

  lemma {:induction false} DescsAt(ts: seq<JvmType>)
    ensures |Descs(ts)| == |ts| && forall i :: 0 <= i < |ts| ==> Descs(ts)[i] == Signature(ts[i])
  {
    if ts != [] {
      DescsAt(ts[1..]);
    }
  }

  lemma {:induction false} ParamDescriptorsJoined(params: seq<MethodParam>, pieces: seq<string>)
    requires |params| == |pieces| && forall i :: 0 <= i < |params| ==> params[i].descriptor == pieces[i]
    ensures ParamDescriptors(params) == Joined(pieces)
  {
    if pieces != [] {
      ParamDescriptorsJoined(Front(params), Front(pieces));
      JoinedSnoc(Front(pieces), Last(pieces));
      assert Front(pieces) + [Last(pieces)] == pieces;
    }
  }

  lemma {:induction false} TypedDesc(m: MethodSummary, ts: seq<JvmType>, ret: JvmType)
    requires HasTypes(m, ts, ret)
    ensures Desc(m) == "(" + Joined(Descs(ts)) + ")" + Signature(ret)
    ensures Pieces(Inner(Desc(m))) == Descs(ts)
    ensures ReturnType(Desc(m)) == m.returnType
    ensures Splittable(Desc(m))
  {
    DescsAt(ts);
    ParamDescriptorsJoined(m.params, Descs(ts));
    DescriptorRoundTrip(ts, Signature(ret));
    ReturnTypeRoundTrip(Joined(Descs(ts)), ret);
  }

  lemma {:induction false} TypedShape(m: MethodSummary, ts: seq<JvmType>, ret: JvmType)
    requires HasTypes(m, ts, ret)
    ensures PrintedShape(Desc(m))
  {
    hide Splittable, Pieces, Inner;
    TypedDesc(m, ts, ret);
    InnerOfPrinted(Joined(Descs(ts)), Signature(ret));
    assert Desc(m)[2 + |Joined(Descs(ts))|..] == Signature(ret);
    assert Signature(ret) + "" == Signature(ret);
    ParseSignature(ret, "");
  }

  lemma {:induction false} TypedStubWellFormed(m: MethodSummary, ts: seq<JvmType>, ret: JvmType)
    requires HasTypes(m, ts, ret)
    ensures WellFormedStub(StubMethod(m))
  {
    hide PrintedShape, Pieces, Inner;
    TypedShape(m, ts, ret);
    TypedDesc(m, ts, ret);
    DescsAt(ts);
  }

  // Stubbing a typed method and materialising it returns, keeps its name, types, parameter names
  // and flags, and the stub is a fixed point.
  lemma {:induction false} TypedMethodSurvives(m: MethodSummary, ts: seq<JvmType>, ret: JvmType)
    requires HasTypes(m, ts, ret)
    ensures MaterializeMethod(StubMethod(m)).Some?
    ensures var back := MaterializeMethod(StubMethod(m)).value;
      && StubMethod(back) == StubMethod(m)
      && |back.params| == |m.params|
      && (forall i :: 0 <= i < |ts| ==> back.params[i] == MethodParam(m.params[i].descriptor, m.params[i].name, []))
      && back.returnType == m.returnType
      && Desc(back) == Desc(m)
  {
    TypedStubWellFormed(m, ts, ret);
    RestubMethod(StubMethod(m));
    TypedDesc(m, ts, ret);
    DescsAt(ts);
  }

  // ---- what the fields of stubs and annotations are

  // Materialising carries every field over under its own name.
  lemma {:induction false} MaterializedFields(s: ClassStub)
    ensures var c := ClassOf(s);
      && c.package == s.package && c.name == s.name && c.internalName == s.internalName
      && c.superName == s.superName && c.interfaces == s.interfaces
      && c.accessFlags == s.accessFlags && c.genericSignature == s.genericSignature
      && c.innerClassOf == s.innerClassOf && c.origin == s.origin
      && |c.methods| == |s.methods| && |c.fields| == |s.fields|
      && (forall i :: 0 <= i < |s.methods| ==>
           && c.methods[i].name == s.methods[i].name && c.methods[i].accessFlags == s.methods[i].accessFlags
           && c.methods[i].isSynthetic == s.methods[i].isSynthetic && c.methods[i].genericSignature == s.methods[i].genericSignature
           && c.methods[i].annotations == [])
      && (forall i :: 0 <= i < |s.fields| ==>
           && c.fields[i].name == s.fields[i].name && c.fields[i].descriptor == s.fields[i].descriptor
           && c.fields[i].accessFlags == s.fields[i].accessFlags && c.fields[i].isSynthetic == s.fields[i].isSynthetic
           && c.fields[i].genericSignature == s.fields[i].genericSignature && c.fields[i].annotations == [])
  {
  }

  // Stubbing carries every field over too; of the parameters, their descriptors and names.
  lemma {:induction false} StubbedFields(c: ClassMetadata)
    ensures var s := StubClass(c);
      && s.package == c.package && s.name == c.name && s.internalName == c.internalName
      && s.superName == c.superName && s.interfaces == c.interfaces
      && s.accessFlags == c.accessFlags && s.genericSignature == c.genericSignature
      && s.innerClassOf == c.innerClassOf && s.origin == c.origin
      && |s.methods| == |c.methods| && |s.fields| == |c.fields|
      && (forall i :: 0 <= i < |c.methods| ==>
           && s.methods[i].name == c.methods[i].name && s.methods[i].descriptor == Desc(c.methods[i])
           && s.methods[i].accessFlags == c.methods[i].accessFlags && s.methods[i].isSynthetic == c.methods[i].isSynthetic
           && s.methods[i].genericSignature == c.methods[i].genericSignature
           && |s.methods[i].paramNames| == |c.methods[i].params|
           && forall k :: 0 <= k < |c.methods[i].params| ==> s.methods[i].paramNames[k] == c.methods[i].params[k].name)
      && (forall i :: 0 <= i < |c.fields| ==>
           && s.fields[i].name == c.fields[i].name && s.fields[i].descriptor == c.fields[i].descriptor
           && s.fields[i].accessFlags == c.fields[i].accessFlags && s.fields[i].isSynthetic == c.fields[i].isSynthetic
           && s.fields[i].genericSignature == c.fields[i].genericSignature)
  {
  }

  // Section 9.6.4 of the Java Language Specification names the two meta-annotations; one target is
  // a constant, several are an array.
  lemma {:induction false} MadeUpAnnotations(s: ClassStub)
    ensures var made := ClassOf(s).annotations;
      var targets := if s.annotationTargets.Some? then 1 else 0;
      && |made| == targets + (if s.annotationRetention.Some? then 1 else 0)
      && (s.annotationTargets.Some? ==>
           && made[0].internalName == "java/lang/annotation/Target" && made[0].runtimeVisible && made[0].elements.Keys == {"value"}
           && var names, value := s.annotationTargets.value, made[0].elements["value"];
              && (|names| == 1 ==> value == EnumConst("java/lang/annotation/ElementType", names[0]))
              && (|names| != 1 ==> value.Array? && |value.items| == |names|)
              && (|names| != 1 ==> forall i :: 0 <= i < |names| ==> value.items[i] == EnumConst("java/lang/annotation/ElementType", names[i])))
      && (s.annotationRetention.Some? ==> made[targets] == AnnotationSummary("java/lang/annotation/Retention", true,
           map["value" := EnumConst("java/lang/annotation/RetentionPolicy", s.annotationRetention.value)]))
  {
  }
}
