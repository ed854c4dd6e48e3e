// The records the index stores: classes, their members, their annotations and where
// they came from.
module ClassModel {
  import opened Seqs

  datatype ClassOrigin =
    | Jar(path: string)
    | SourceFile(uri: string)
    | ZipSource(zipPath: string, entryName: string)
    | Unknown

  // Numeric, boolean and character constants play no part in the index and share Scalar.
  datatype AnnotationValue =
    | Scalar(bits: int)
    | Text(text: string)
    | EnumConst(typeName: string, constName: string)
    | ClassLiteral(descriptor: string)
    | Nested(annotation: AnnotationSummary)
    | Array(items: seq<AnnotationValue>)
    | Unrecognised

  datatype AnnotationSummary = AnnotationSummary(internalName: string, runtimeVisible: bool, elements: map<string, AnnotationValue>)

  datatype MethodParam = MethodParam(descriptor: string, name: string, annotations: seq<AnnotationSummary>)

  datatype MethodSummary = MethodSummary(
    name: string,
    params: seq<MethodParam>,
    annotations: seq<AnnotationSummary>,
    accessFlags: bv16,
    isSynthetic: bool,
    genericSignature: Option<string>,
    returnType: Option<string>)

  datatype FieldSummary = FieldSummary(
    name: string,
    descriptor: string,
    accessFlags: bv16,
    annotations: seq<AnnotationSummary>,
    isSynthetic: bool,
    genericSignature: Option<string>)

  datatype ClassMetadata = ClassMetadata(
    package: Option<string>,
    name: string,
    internalName: string,
    superName: Option<string>,
    interfaces: seq<string>,
    annotations: seq<AnnotationSummary>,
    methods: seq<MethodSummary>,
    fields: seq<FieldSummary>,
    accessFlags: bv16,
    genericSignature: Option<string>,
    innerClassOf: Option<string>,
    origin: ClassOrigin)

  function ParamDescriptors(params: seq<MethodParam>): string {
    if params == [] then "" else ParamDescriptors(Front(params)) + Last(params).descriptor
  }

  function Desc(m: MethodSummary): string {
    "(" + ParamDescriptors(m.params) + ")" + (if m.returnType.Some? then m.returnType.value else "V")
  }

  method RenderDesc(m: MethodSummary) returns (out: string)
    ensures out == Desc(m)
  {
    out := "(";
    for i := 0 to |m.params|
      invariant out == "(" + ParamDescriptors(m.params[..i])
    {
      assert Front(m.params[..i + 1]) == m.params[..i];
      out := out + m.params[i].descriptor;
    }
    assert m.params[..|m.params|] == m.params;
    out := out + ")" + (if m.returnType.Some? then m.returnType.value else "V");
  }

  function FieldName(f: FieldSummary): string { f.name }

  // Parent internal names in walk order: the superclass, then the interfaces, empty names dropped.
  function Parents(c: ClassMetadata): seq<string> {
    (if c.superName.Some? && c.superName.value != "" then [c.superName.value] else [])
    + NonEmpty(c.interfaces)
  }

  function NonEmpty(names: seq<string>): seq<string> {
    if names == [] then []
    else NonEmpty(Front(names)) + (if Last(names) != "" then [Last(names)] else [])
  }

  function NotBlank(name: string): bool { name != "" }

  // Edges that lead to the superclass, then to the interfaces in declared order, and nowhere else.
  ghost predicate LeadTo(edges: seq<string>, superName: Option<string>, interfaces: seq<string>) {
    && (forall p :: p in edges <==> p != "" && (superName == Some(p) || p in interfaces))
    && edges == (if superName.None? || superName.value == "" then [] else [superName.value]) + Filter(NotBlank, interfaces)
  }

  lemma {:induction false} NonEmptyIsFilter(names: seq<string>)
    ensures NonEmpty(names) == Filter(NotBlank, names)
  {
    if names != [] {
      NonEmptyIsFilter(Front(names));
    }
  }

  const TARGET_INTERNAL := "java/lang/annotation/Target"
  const TARGET_VALUE_TYPE := "java/lang/annotation/ElementType"
  const RETENTION_INTERNAL := "java/lang/annotation/Retention"
  const RETENTION_VALUE_TYPE := "java/lang/annotation/RetentionPolicy"

  function FindAnnotation(annotations: seq<AnnotationSummary>, internalName: string): Option<AnnotationSummary> {
    if annotations == [] then None
    else if annotations[0].internalName == internalName then Some(annotations[0])
    else FindAnnotation(annotations[1..], internalName)
  }

  function ConstNames(items: seq<AnnotationValue>): seq<string> {
    if items == [] then []
    else (if items[0].EnumConst? then [items[0].constName] else []) + ConstNames(items[1..])
  }

  function AnnotationTargets(annotations: seq<AnnotationSummary>): Option<seq<string>> {
    var target := FindAnnotation(annotations, TARGET_INTERNAL);
    if target.None? || "value" !in target.value.elements then None
    else match target.value.elements["value"]
      case EnumConst(_, constName) => Some([constName])
      case Array(items) => Some(ConstNames(items))
      case _ => None
  }

  function AnnotationRetention(annotations: seq<AnnotationSummary>): Option<string> {
    var retention := FindAnnotation(annotations, RETENTION_INTERNAL);
    if retention.None? || "value" !in retention.value.elements then None
    else match retention.value.elements["value"]
      case EnumConst(_, constName) => Some(constName)
      case _ => None
  }

  ghost predicate FirstNamed(annotations: seq<AnnotationSummary>, name: string, i: nat) {
    i < |annotations| && annotations[i].internalName == name && forall j :: 0 <= j < i ==> annotations[j].internalName != name
  }

  lemma {:induction false} FindAnnotationIsFirst(annotations: seq<AnnotationSummary>, name: string)
    ensures FindAnnotation(annotations, name).None? <==> forall a :: a in annotations ==> a.internalName != name
    ensures forall i: nat :: FirstNamed(annotations, name, i) ==> FindAnnotation(annotations, name) == Some(annotations[i])
  {
    if annotations != [] {
      var rest := annotations[1..];
      FindAnnotationIsFirst(rest, name);
      assert annotations == [annotations[0]] + rest;
      forall i: nat | FirstNamed(annotations, name, i) ensures FindAnnotation(annotations, name) == Some(annotations[i]) {
        if i > 0 {
          assert forall j :: 0 <= j < i - 1 ==> rest[j] == annotations[j + 1];
          assert FirstNamed(rest, name, i - 1);
        }
      }
    }
  }

  function IsConst(v: AnnotationValue): bool { v.EnumConst? }

  ghost function NameOfConst(v: AnnotationValue): string {
    if v.EnumConst? then v.constName else ""
  }

  lemma {:induction false} ConstNamesSnoc(items: seq<AnnotationValue>, v: AnnotationValue)
    ensures ConstNames(items + [v]) == ConstNames(items) + (if v.EnumConst? then [v.constName] else [])
  {
    if items == [] {
      assert [v][1..] == [];
    } else {
      var head := if items[0].EnumConst? then [items[0].constName] else [];
      assert (items + [v])[1..] == items[1..] + [v];
      assert ConstNames(items + [v]) == head + ConstNames(items[1..] + [v]);
      assert ConstNames(items) == head + ConstNames(items[1..]);
      hide ConstNames;
      ConstNamesSnoc(items[1..], v);
    }
  }

  lemma {:induction false} ConstNamesInOrder(items: seq<AnnotationValue>)
    ensures ConstNames(items) == Map(NameOfConst, Filter(IsConst, items))
  {
    if items != [] {
      assert items == Front(items) + [Last(items)];
      ConstNamesInOrder(Front(items));
      ConstNamesSnoc(Front(items), Last(items));
      MapSnoc(NameOfConst, Filter(IsConst, Front(items)), Last(items));
    }
  }

  // Targets are read off the first `Target` annotation: one constant, or the constants of an array.
  lemma {:induction false} TargetsRead(annotations: seq<AnnotationSummary>, i: nat)
    ensures (forall a :: a in annotations ==> a.internalName != "java/lang/annotation/Target") ==> AnnotationTargets(annotations) == None
    ensures FirstNamed(annotations, "java/lang/annotation/Target", i) ==>
      AnnotationTargets(annotations) ==
        if "value" !in annotations[i].elements then None
        else if annotations[i].elements["value"].EnumConst? then Some([annotations[i].elements["value"].constName])
        else if annotations[i].elements["value"].Array? then Some(Map(NameOfConst, Filter(IsConst, annotations[i].elements["value"].items)))
        else None
  {
    FindAnnotationIsFirst(annotations, "java/lang/annotation/Target");
    if FirstNamed(annotations, "java/lang/annotation/Target", i) && "value" in annotations[i].elements
      && annotations[i].elements["value"].Array? {
      ConstNamesInOrder(annotations[i].elements["value"].items);
    }
  }

  // The retention is read off the first `Retention` annotation.
  lemma {:induction false} RetentionRead(annotations: seq<AnnotationSummary>, i: nat)
    ensures (forall a :: a in annotations ==> a.internalName != "java/lang/annotation/Retention") ==> AnnotationRetention(annotations) == None
    ensures FirstNamed(annotations, "java/lang/annotation/Retention", i) ==>
      AnnotationRetention(annotations) ==
        if "value" in annotations[i].elements && annotations[i].elements["value"].EnumConst?
        then Some(annotations[i].elements["value"].constName) else None
  {
    FindAnnotationIsFirst(annotations, "java/lang/annotation/Retention");
  }

  function SimpleNameIs(name: string): ClassMetadata -> bool {
    (c: ClassMetadata) => c.name == name
  }
}
