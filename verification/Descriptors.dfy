// JVM method descriptors: splitting the parameter part into field descriptors and
// reading the return type, against the printer `ClassModel.Desc`.
module Descriptors {
  import opened Seqs
  import opened ClassModel
  import opened JvmTypes

  function IndexOf(s: string, c: char): (i: nat)
    ensures i <= |s|
    ensures i < |s| ==> s[i] == c
    ensures forall k :: 0 <= k < i ==> s[k] != c
  {
    if s == "" || s[0] == c then 0 else 1 + IndexOf(s[1..], c)
  }

  // The length of the field descriptor at the front of a text.
  function HeadLength(s: string): (n: nat)
    ensures n <= |s| && (s != "" ==> n > 0)
  {
    if s == "" then 0
    else if s[0] == 'L' then
      var end := IndexOf(s, ';');
      if end < |s| then end + 1 else |s|
    else if s[0] == '[' then 1 + HeadLength(s[1..])
    else 1
  }

  function Pieces(s: string): seq<string>
    decreases |s|
  {
    if s == "" then [] else [s[..HeadLength(s)]] + Pieces(s[HeadLength(s)..])
  }

  // The text between the first `(` and the first `)`.
  function Inner(descriptor: string): string {
    var l, r := IndexOf(descriptor, '('), IndexOf(descriptor, ')');
    if l < |descriptor| && r < |descriptor| && l < r then descriptor[l + 1..r] else ""
  }

  predicate IsAscii(c: char) { c < '\U{0080}' }

  // The splitter slices one byte after anything but `L` and `[`, which panics inside a
  // multi-byte character.
  predicate HeadSliceable(s: string) {
    if s == "" || s[0] == 'L' then true
    else if s[0] == '[' then HeadSliceable(s[1..])
    else IsAscii(s[0])
  }

  predicate Sliceable(s: string)
    decreases |s|
  {
    s == "" || (HeadSliceable(s) && Sliceable(s[HeadLength(s)..]))
  }

  // ... and slicing the inner text panics when the first `)` comes before the first `(`.
  predicate Splittable(descriptor: string) {
    var l, r := IndexOf(descriptor, '('), IndexOf(descriptor, ')');
    l < |descriptor| && r < |descriptor| ==> l < r && Sliceable(Inner(descriptor))
  }

  function ConsumeOne(s: string): (r: Option<(string, string)>)
    ensures r.Some? <==> HeadSliceable(s)
    ensures r.Some? ==> r.value == (s[..HeadLength(s)], s[HeadLength(s)..])
  {
    if s == "" then Some(("", ""))
    else if s[0] == 'L' then
      var end := IndexOf(s, ';');
      assert s[..|s|] == s && s[|s|..] == "";
      if end < |s| then Some((s[..end + 1], s[end + 1..])) else Some((s, ""))
    else if s[0] == '[' then
      var inner := ConsumeOne(s[1..]);
      if inner.None? then None
      else
        var consumed := |s| - |inner.value.1|;
        Some((s[..consumed], inner.value.1))
    else if IsAscii(s[0]) then Some((s[..1], s[1..]))
    else None
  }

  // None stands for a panic.
  method SplitParamDescriptors(descriptor: string) returns (out: Option<seq<string>>)
    ensures out.Some? <==> Splittable(descriptor)
    ensures out.Some? ==> out.value == Pieces(Inner(descriptor))
  {
    var l, r := IndexOf(descriptor, '('), IndexOf(descriptor, ')');
    if l == |descriptor| || r == |descriptor| {
      return Some([]);
    }
    if r <= l {
      return None;
    }
    var s := descriptor[l + 1..r];
    ghost var inner := s;
    var pieces: seq<string> := [];
    while s != ""
      invariant Sliceable(inner) <==> Sliceable(s)
      invariant pieces + Pieces(s) == Pieces(inner)
      decreases |s|
    {
      var one := ConsumeOne(s);
      if one.None? {
        return None;
      }
      pieces, s := pieces + [one.value.0], one.value.1;
    }
    out := Some(pieces);
  }

  function NamedParams(pieces: seq<string>, names: seq<string>): (params: seq<MethodParam>)
    ensures |params| == |pieces|
  {
    seq(|pieces|, i requires 0 <= i < |pieces| =>
      MethodParam(pieces[i], if i < |names| then names[i] else "", []))
  }

  function BareParams(s: string): seq<MethodParam>
    decreases |s|
  {
    if s == "" then [] else [MethodParam(s[..HeadLength(s)], "", [])] + BareParams(s[HeadLength(s)..])
  }

  lemma {:induction false} BareParamsNamed(s: string)
    ensures BareParams(s) == NamedParams(Pieces(s), [])
    decreases |s|
  {
    if s != "" {
      BareParamsNamed(s[HeadLength(s)..]);
    }
  }

  method FromMethodDescriptor(descriptor: string) returns (out: Option<seq<MethodParam>>)
    ensures out.Some? <==> Splittable(descriptor)
    ensures out.Some? ==> out.value == NamedParams(Pieces(Inner(descriptor)), [])
  {
    var l, r := IndexOf(descriptor, '('), IndexOf(descriptor, ')');
    if l == |descriptor| || r == |descriptor| {
      return Some([]);
    }
    if r <= l {
      return None;
    }
    var s := descriptor[l + 1..r];
    ghost var inner := s;
    var items: seq<MethodParam> := [];
    while s != ""
      invariant Sliceable(inner) <==> Sliceable(s)
      invariant items + BareParams(s) == BareParams(inner)
      decreases |s|
    {
      var one := ConsumeOne(s);
      if one.None? {
        return None;
      }
      items, s := items + [MethodParam(one.value.0, "", [])], one.value.1;
    }
    BareParamsNamed(Inner(descriptor));
    out := Some(items);
  }

  method FromDescriptorAndNames(descriptor: string, names: seq<string>) returns (out: Option<seq<MethodParam>>)
    ensures out.Some? <==> Splittable(descriptor)
    ensures out.Some? ==> out.value == NamedParams(Pieces(Inner(descriptor)), names)
  {
    var bare := FromMethodDescriptor(descriptor);
    if bare.None? {
      return None;
    }
    var items := bare.value;
    var pieces := Pieces(Inner(descriptor));
    for i := 0 to |items|
      invariant |items| == |pieces|
      invariant forall k :: 0 <= k < i ==> items[k] == NamedParams(pieces, names)[k]
      invariant forall k :: i <= k < |items| ==> items[k] == NamedParams(pieces, [])[k]
    {
      if i < |names| {
        items := items[i := items[i].(name := names[i])];
      }
    }
    out := Some(items);
  }

  function ReturnType(descriptor: string): Option<string> {
    var close := IndexOf(descriptor, ')');
    if close == |descriptor| then None
    else
      var parsed := Parse(descriptor[close + 1..]);
      if parsed.None? || parsed.value.0 == Primitive('V') then None else Some(Signature(parsed.value.0))
  }

  // ---- what the splitter promises

  function Joined(pieces: seq<string>): string {
    if pieces == [] then "" else pieces[0] + Joined(pieces[1..])
  }

  lemma {:induction false} JoinedCons(head: string, tail: seq<string>)
    ensures Joined([head] + tail) == head + Joined(tail)
  {
    assert ([head] + tail)[1..] == tail;
  }

  // No text is lost, duplicated or reordered, well-formed or not.
  lemma {:induction false} PiecesConcatenate(s: string)
    ensures Joined(Pieces(s)) == s
    ensures forall p :: p in Pieces(s) ==> p != ""
    decreases |s|
  {
    if s != "" {
      var n := HeadLength(s);
      var head, rest := s[..n], s[n..];
      PiecesConcatenate(rest);
      assert Pieces(s) == [head] + Pieces(rest);
      JoinedCons(head, Pieces(rest));
      assert s == head + rest;
    }
  }

  lemma {:induction false} AsciiHeadSliceable(s: string)
    requires forall c :: c in s ==> IsAscii(c)
    ensures HeadSliceable(s)
  {
    if s != "" && s[0] == '[' {
      AsciiHeadSliceable(s[1..]);
    }
  }

  lemma {:induction false} AsciiSliceable(s: string)
    requires forall c :: c in s ==> IsAscii(c)
    ensures Sliceable(s)
    decreases |s|
  {
    if s != "" {
      AsciiHeadSliceable(s);
      AsciiSliceable(s[HeadLength(s)..]);
    }
  }

  // Field descriptors, section 4.3.2 of the JVM Specification.
  ghost predicate IsFieldType(t: JvmType) {
    match t
    case ObjectType(name, args) => args == [] && ';' !in name
    case ArrayOf(elem) => IsFieldType(elem)
    case Primitive(code) => code in {'B', 'C', 'D', 'F', 'I', 'J', 'S', 'Z'}
    case _ => false
  }

  ghost function Descs(ts: seq<JvmType>): seq<string> {
    if ts == [] then [] else [Signature(ts[0])] + Descs(ts[1..])
  }

  lemma {:induction false} IndexOfFirst(s: string, c: char, i: nat)
    requires i < |s| && s[i] == c && forall k :: 0 <= k < i ==> s[k] != c
    ensures IndexOf(s, c) == i
  {
  }

  lemma {:induction false} FieldTypeHead(t: JvmType, rest: string)
    requires IsFieldType(t)
    ensures HeadLength(Signature(t) + rest) == |Signature(t)|
    ensures HeadSliceable(Signature(t) + rest)
    decreases t
  {
    var s := Signature(t) + rest;
    match t
    case ObjectType(name, _) =>
      assert s == "L" + name + ";" + rest;
      assert forall k :: 1 <= k < 1 + |name| ==> s[k] == name[k - 1] && s[k] in name;
      IndexOfFirst(s, ';', 1 + |name|);
    case ArrayOf(elem) =>
      assert s[1..] == Signature(elem) + rest;
      FieldTypeHead(elem, rest);
    case Primitive(_) =>
  }

  lemma {:induction false} PiecesOfFieldTypes(ts: seq<JvmType>)
    requires forall t :: t in ts ==> IsFieldType(t)
    ensures Pieces(Joined(Descs(ts))) == Descs(ts)
    ensures Sliceable(Joined(Descs(ts)))
  {
    if ts != [] {
      var rest := Joined(Descs(ts[1..]));
      assert Descs(ts)[1..] == Descs(ts[1..]);
      assert Joined(Descs(ts)) == Signature(ts[0]) + rest;
      FieldTypeHead(ts[0], rest);
      SignatureNonEmpty(ts[0]);
      assert (Signature(ts[0]) + rest)[|Signature(ts[0])|..] == rest;
      assert (Signature(ts[0]) + rest)[..|Signature(ts[0])|] == Signature(ts[0]);
      PiecesOfFieldTypes(ts[1..]);
    }
  }

  lemma {:induction false} SignatureNonEmpty(t: JvmType)
    ensures Signature(t) != ""
  {
  }

  // The parser sees the parameter text up to its first closing parenthesis.
  lemma {:induction false} InnerOfPrinted(inner: string, ret: string)
    ensures var d, cut := "(" + inner + ")" + ret, IndexOf(inner, ')');
      IndexOf(d, '(') == 0 && IndexOf(d, ')') == 1 + cut < |d| && Inner(d) == inner[..cut]
    ensures ')' !in inner <==> IndexOf(inner, ')') == |inner|
  {
    var d, cut := "(" + inner + ")" + ret, IndexOf(inner, ')');
    IndexOfFirst(d, '(', 0);
    assert forall k :: 1 <= k < 1 + cut ==> d[k] == inner[k - 1];
    IndexOfFirst(d, ')', 1 + cut);
    assert d[1..1 + cut] == inner[..cut];
  }

  // Parsing a printed descriptor gives the parameter descriptors back exactly when no
  // class name in them contains a closing parenthesis.
  lemma {:induction false} DescriptorRoundTrip(ts: seq<JvmType>, ret: string)
    requires forall t :: t in ts ==> IsFieldType(t)
    ensures var d := "(" + Joined(Descs(ts)) + ")" + ret;
      Pieces(Inner(d)) == Descs(ts) <==> ')' !in Joined(Descs(ts))
    ensures ')' !in Joined(Descs(ts)) ==> Splittable("(" + Joined(Descs(ts)) + ")" + ret)
  {
    var inner := Joined(Descs(ts));
    PiecesOfFieldTypes(ts);
    InnerOfPrinted(inner, ret);
    assert inner[..|inner|] == inner;
    PiecesConcatenate(inner[..IndexOf(inner, ')')]);
  }

  lemma UnclosedClassName()
    ensures Pieces("La") == ["La"]
  {
    assert IndexOf("La", ';') == 2;
    assert "La"[..2] == "La" && "La"[2..] == "";
  }

  lemma PrintedParenthesis()
    ensures var ts := [ObjectType("a)b", [])];
      (forall t :: t in ts ==> IsFieldType(t)) && Descs(ts) == ["La)b;"] && Joined(Descs(ts)) == "La)b;"
  {
    var t, inner := ObjectType("a)b", []), "La)b;";
    assert Signature(t) == inner;
    assert Descs([t]) == [inner] + Descs([t][1..]);
    JoinedCons(inner, []);
  }

  // The class `a)b` ends the parameters early.
  lemma ParenthesisEndsParameters()
    ensures var ts := [ObjectType("a)b", [])];
      (forall t :: t in ts ==> IsFieldType(t)) && Descs(ts) == ["La)b;"] && Pieces(Inner("(" + Joined(Descs(ts)) + ")" + "V")) == ["La"]
  {
    var inner := "La)b;";
    PrintedParenthesis();
    IndexOfFirst(inner, ')', 2);
    hide Pieces, Inner, IndexOf, Joined, Descs;
    InnerOfPrinted(inner, "V");
    assert inner[..2] == "La";
    UnclosedClassName();
  }

  // The return type comes back too; `V` and unparsable text both read as no return type.
  lemma {:induction false} ReturnTypeRoundTrip(inner: string, ret: JvmType)
    requires ')' !in inner && WellFormed(ret)
    ensures ReturnType("(" + inner + ")" + Signature(ret)) == if ret == Primitive('V') then None else Some(Signature(ret))
  {
    InnerOfPrinted(inner, Signature(ret));
    assert ("(" + inner + ")" + Signature(ret))[2 + |inner|..] == Signature(ret) + "";
    ParseSignature(ret, "");
  }

  // A return type of one letter: the primitive types are read, `V` is none, and so is any letter
  // that neither is a primitive type nor begins a longer one.
  lemma {:induction false} ReturnLetter(inner: string, c: char)
    requires ')' !in inner
    ensures var read := ReturnType("(" + inner + ")" + [c]);
      && (c in {'B', 'C', 'D', 'F', 'I', 'J', 'S', 'Z'} ==> read == Some([c]))
      && (c !in {'B', 'C', 'D', 'F', 'I', 'J', 'S', 'Z', 'L', 'T', '[', '*', '+', '-'} ==> read == None)
  {
    InnerOfPrinted(inner, [c]);
    var d := "(" + inner + ")" + [c];
    assert d[2 + |inner|..] == [c] + "";
    LettersParse(c, "");
  }

  // ---- malformed descriptors

  // A class name that nothing ends takes the rest of the text; a text without both parentheses has
  // no parameters, and one without the closing one no return type.
  lemma {:induction false} MalformedDescriptors(d: string, name: string)
    ensures ';' !in name ==> Pieces("L" + name) == ["L" + name]
    ensures '(' !in d || ')' !in d ==> Splittable(d) && Pieces(Inner(d)) == []
    ensures ')' !in d ==> ReturnType(d) == None
  {
    var s := "L" + name;
    assert IndexOf(d, '(') < |d| ==> d[IndexOf(d, '(')] in d;
    assert IndexOf(d, ')') < |d| ==> d[IndexOf(d, ')')] in d;
    if ';' !in name {
      assert s[..|s|] == s && s[|s|..] == "";
    }
  }

  // The pieces in order, each with the name at its position if there is one.
  lemma {:induction false} NamesByPosition(pieces: seq<string>, names: seq<string>)
    ensures |NamedParams(pieces, names)| == |pieces|
    ensures forall i :: 0 <= i < |pieces| ==>
      NamedParams(pieces, names)[i] == MethodParam(pieces[i], if i < |names| then names[i] else "", [])
  {
  }
}
