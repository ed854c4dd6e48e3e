// JVM type signatures: the parser that reads one type off the front of a text and the
// printer that writes it back.
module JvmTypes {
  import opened Seqs

  datatype JvmType =
    | ObjectType(name: string, args: seq<JvmType>)
    | TypeVar(name: string)
    | ArrayOf(elem: JvmType)
    | Primitive(code: char)
    | Wildcard
    | Bounded(sign: char, bound: JvmType)

  function NameEnd(s: string, i: nat): (end: nat)
    requires i <= |s|
    ensures i <= end <= |s|
    ensures end < |s| ==> s[end] == '<' || s[end] == ';'
    ensures forall k :: i <= k < end ==> s[k] != '<' && s[k] != ';'
    decreases |s| - i
  {
    if i == |s| || s[i] == '<' || s[i] == ';' then i else NameEnd(s, i + 1)
  }

  function SemicolonAt(s: string, i: nat): (end: nat)
    requires i <= |s|
    ensures i <= end <= |s|
    ensures end < |s| ==> s[end] == ';'
    ensures forall k :: i <= k < end ==> s[k] != ';'
    decreases |s| - i
  {
    if i == |s| || s[i] == ';' then i else SemicolonAt(s, i + 1)
  }

  function Parse(s: string): (r: Option<(JvmType, string)>)
    ensures r.Some? ==> |r.value.1| < |s|
    decreases |s|, 0
  {
    if s == "" then None
    else match s[0]
      case 'L' =>
        var i := NameEnd(s, 1);
        var args := if i < |s| && s[i] == '<' then ParseArgs(s[i + 1..]) else Some(([], s[i..]));
        if args.None? then None
        else
          var rest := args.value.1;
          Some((ObjectType(s[1..i], args.value.0), if rest != "" && rest[0] == ';' then rest[1..] else rest))
      case 'T' =>
        var end := SemicolonAt(s, 1);
        if end == |s| then None else Some((TypeVar(s[1..end]), s[end + 1..]))
      case '[' =>
        var inner := Parse(s[1..]);
        if inner.None? then None else Some((ArrayOf(inner.value.0), inner.value.1))
      case '*' => Some((Wildcard, s[1..]))
      case '+' | '-' =>
        var inner := Parse(s[1..]);
        if inner.None? then None else Some((Bounded(s[0], inner.value.0), inner.value.1))
      case 'V' | 'B' | 'C' | 'D' | 'F' | 'I' | 'J' | 'S' | 'Z' => Some((Primitive(s[0]), s[1..]))
      case _ => None
  }

  function ParseArgs(s: string): (r: Option<(seq<JvmType>, string)>)
    ensures r.Some? ==> |r.value.1| < |s|
    decreases |s|, 1
  {
    if s != "" && s[0] == '>' then Some(([], s[1..]))
    else
      var arg := Parse(s);
      if arg.None? then None
      else
        var more := ParseArgs(arg.value.1);
        if more.None? then None else Some(([arg.value.0] + more.value.0, more.value.1))
  }

  function Signature(t: JvmType): string
    decreases t
  {
    match t
    case ObjectType(name, args) =>
      if args == [] then "L" + name + ";" else "L" + name + "<" + Signatures(args) + ">;"
    case TypeVar(name) => "T" + name + ";"
    case ArrayOf(elem) => "[" + Signature(elem)
    case Primitive(code) => [code]
    case Wildcard => "*"
    case Bounded(sign, bound) => [sign] + Signature(bound)
  }

  function Signatures(ts: seq<JvmType>): string
    decreases ts
  {
    if ts == [] then "" else Signature(ts[0]) + Signatures(ts[1..])
  }

  // The signatures of section 4.7.9.1 of the JVM Specification without inner-class suffixes.
  ghost predicate WellFormed(t: JvmType) {
    match t
    case ObjectType(name, args) => '<' !in name && ';' !in name && forall a :: a in args ==> WellFormed(a)
    case TypeVar(name) => ';' !in name
    case ArrayOf(elem) => WellFormed(elem)
    case Primitive(code) => code in {'V', 'B', 'C', 'D', 'F', 'I', 'J', 'S', 'Z'}
    case Wildcard => true
    case Bounded(sign, bound) => (sign == '+' || sign == '-') && WellFormed(bound)
  }

  lemma {:induction false} SignatureHead(t: JvmType)
    requires WellFormed(t)
    ensures Signature(t) != "" && Signature(t)[0] != '>'
  {
  }

  lemma {:induction false} NameEndAt(s: string, i: nat, end: nat)
    requires i <= end < |s| && (s[end] == '<' || s[end] == ';')
    requires forall k :: i <= k < end ==> s[k] != '<' && s[k] != ';'
    ensures NameEnd(s, i) == end
  {
  }

  lemma {:induction false} SemicolonAtEnd(s: string, i: nat, end: nat)
    requires i <= end < |s| && s[end] == ';'
    requires forall k :: i <= k < end ==> s[k] != ';'
    ensures SemicolonAt(s, i) == end
  {
  }

  lemma {:induction false} ParsePlainObject(name: string, rest: string)
    requires '<' !in name && ';' !in name
    ensures Parse("L" + name + ";" + rest) == Some((ObjectType(name, []), rest))
  {
    var s, end := "L" + name + ";" + rest, 1 + |name|;
    assert s[1..end] == name && s[end..] == ";" + rest;
    NameEndAt(s, 1, end);
  }

  lemma {:induction false} ParseGenericObject(name: string, args: seq<JvmType>, inner: string, rest: string)
    requires '<' !in name && ';' !in name
    requires ParseArgs(inner + ">" + (";" + rest)) == Some((args, ";" + rest))
    ensures Parse("L" + name + "<" + inner + ">;" + rest) == Some((ObjectType(name, args), rest))
  {
    var s, end := "L" + name + "<" + inner + ">;" + rest, 1 + |name|;
    assert s[1..end] == name && s[end + 1..] == inner + ">" + (";" + rest);
    NameEndAt(s, 1, end);
    assert (";" + rest)[1..] == rest;
  }

  lemma {:induction false} ParseTypeVar(name: string, rest: string)
    requires ';' !in name
    ensures Parse("T" + name + ";" + rest) == Some((TypeVar(name), rest))
  {
    var s, end := "T" + name + ";" + rest, 1 + |name|;
    assert s[1..end] == name && s[end + 1..] == rest;
    SemicolonAtEnd(s, 1, end);
  }

  lemma {:induction false} ParseObject(name: string, args: seq<JvmType>, rest: string)
    requires '<' !in name && ';' !in name
    requires ParseArgs(Signatures(args) + ">" + (";" + rest)) == Some((args, ";" + rest))
    ensures Parse(Signature(ObjectType(name, args)) + rest) == Some((ObjectType(name, args), rest))
  {
    if args == [] {
      ParsePlainObject(name, rest);
    } else {
      ParseGenericObject(name, args, Signatures(args), rest);
    }
  }

  lemma {:induction false} ParseArray(elem: JvmType, rest: string)
    requires Parse(Signature(elem) + rest) == Some((elem, rest))
    ensures Parse(Signature(ArrayOf(elem)) + rest) == Some((ArrayOf(elem), rest))
  {
    assert (Signature(ArrayOf(elem)) + rest)[1..] == Signature(elem) + rest;
  }

  lemma {:induction false} ParseBounded(sign: char, bound: JvmType, rest: string)
    requires sign == '+' || sign == '-'
    requires Parse(Signature(bound) + rest) == Some((bound, rest))
    ensures Parse(Signature(Bounded(sign, bound)) + rest) == Some((Bounded(sign, bound), rest))
  {
    assert (Signature(Bounded(sign, bound)) + rest)[1..] == Signature(bound) + rest;
  }

  // Section 4.3.2 of the JVM Specification, and `V` for void: each of these letters is a whole
  // type, and a text that begins with none of them nor with a constructor's letter is none.
  lemma {:induction false} LettersParse(c: char, rest: string)
    ensures c in {'V', 'B', 'C', 'D', 'F', 'I', 'J', 'S', 'Z'} <==> Parse([c] + rest) == Some((Primitive(c), rest))
    ensures c == '*' ==> Parse([c] + rest) == Some((Wildcard, rest))
    ensures c !in {'V', 'B', 'C', 'D', 'F', 'I', 'J', 'S', 'Z', 'L', 'T', '[', '*', '+', '-'} ==> Parse([c] + rest) == None
  {
    assert ([c] + rest)[1..] == rest;
  }

  // Printing then parsing gives the type back and leaves what followed it untouched.
  lemma {:induction false} ParseSignature(t: JvmType, rest: string)
    requires WellFormed(t)
    ensures Parse(Signature(t) + rest) == Some((t, rest))
    decreases t
  {
    match t
    case ObjectType(name, args) =>
      ParseSignatures(args, ";" + rest);
      ParseObject(name, args, rest);
    case TypeVar(name) => ParseTypeVar(name, rest);
    case ArrayOf(elem) =>
      ParseSignature(elem, rest);
      ParseArray(elem, rest);
    case Primitive(code) => LettersParse(code, rest);
    case Wildcard => LettersParse('*', rest);
    case Bounded(sign, bound) =>
      ParseSignature(bound, rest);
      ParseBounded(sign, bound, rest);
  }

  lemma {:induction false} ParseSignatures(ts: seq<JvmType>, rest: string)
    requires forall t :: t in ts ==> WellFormed(t)
    ensures ParseArgs(Signatures(ts) + ">" + rest) == Some((ts, rest))
    decreases ts
  {
    if ts == [] {
      assert (Signatures(ts) + ">" + rest)[1..] == rest;
    } else {
      SignatureHead(ts[0]);
      assert Signatures(ts) + ">" + rest == Signature(ts[0]) + (Signatures(ts[1..]) + ">" + rest);
      ParseSignature(ts[0], Signatures(ts[1..]) + ">" + rest);
      ParseSignatures(ts[1..], rest);
      assert [ts[0]] + ts[1..] == ts;
    }
  }

  // ---- malformed signatures

  // A class name that nothing ends is still read, as is one whose type arguments no `;` follows;
  // a type variable needs its `;`, an array its element and a bound its type.
  lemma {:induction false} MalformedSignatures(name: string, c: char)
    requires '<' !in name && ';' !in name
    ensures Parse("") == None
    ensures Parse("L" + name) == Some((ObjectType(name, []), ""))
    ensures Parse("L" + name + "<*>") == Some((ObjectType(name, [Wildcard]), ""))
    ensures Parse("L" + name + "<") == None
    ensures Parse("T" + name) == None
    ensures Parse("[") == Parse("+") == Parse("-") == None
  {
    UnendedObject(name);
    UnendedArguments(name);
    UnendedVariable(name);
  }

  lemma {:induction false} UnendedObject(name: string)
    requires '<' !in name && ';' !in name
    ensures Parse("L" + name) == Some((ObjectType(name, []), ""))
  {
    var s := "L" + name;
    forall k | 1 <= k < |s| ensures s[k] != '<' && s[k] != ';' {
      assert s[k] == name[k - 1] && name[k - 1] in name;
    }
    assert NameEnd(s, 1) == |s|;
    assert s[1..|s|] == name && s[|s|..] == "";
  }

  lemma {:induction false} UnendedArguments(name: string)
    requires '<' !in name && ';' !in name
    ensures Parse("L" + name + "<*>") == Some((ObjectType(name, [Wildcard]), ""))
    ensures Parse("L" + name + "<") == None
  {
    var s, open, end := "L" + name + "<*>", "L" + name + "<", 1 + |name|;
    assert s[1..end] == name && s[end + 1..] == "*>";
    assert open[end + 1..] == "";
    NameEndAt(s, 1, end);
    NameEndAt(open, 1, end);
    assert "*>"[1..] == ">" && ">"[1..] == "";
    assert Parse("*>") == Some((Wildcard, ">"));
    assert ParseArgs(">") == Some(([], ""));
    assert [Wildcard] + [] == [Wildcard];
    assert ParseArgs("*>") == Some(([Wildcard], ""));
    assert Parse(s) == Some((ObjectType(name, [Wildcard]), ""));
  }

  lemma {:induction false} UnendedVariable(name: string)
    requires ';' !in name
    ensures Parse("T" + name) == None
  {
    var s := "T" + name;
    forall k | 1 <= k < |s| ensures s[k] != ';' {
      assert s[k] == name[k - 1] && name[k - 1] in name;
    }
  }
}
