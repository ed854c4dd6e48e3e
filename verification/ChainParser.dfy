// Splitting a receiver expression such as `a.<T>b(x, y)[0].c` into its segments: one pass over
// the characters with two depth counters.
module ChainParser {
  import opened Seqs

  datatype Segment = Segment(name: string, argCount: Option<nat>, argTexts: seq<string>)

  function Variable(name: string): Segment { Segment(name, None, []) }

  function Method(name: string, args: seq<string>): Segment { Segment(name, Some(|args|), args) }

  // Unicode White_Space, as `str::trim` uses it.
  predicate IsSpace(c: char) {
    || '\t' <= c <= '\r' || c == ' ' || c == '\U{0085}' || c == '\U{00A0}' || c == '\U{1680}'
    || '\U{2000}' <= c <= '\U{200A}' || c == '\U{2028}' || c == '\U{2029}' || c == '\U{202F}' || c == '\U{205F}' || c == '\U{3000}'
  }

  function TrimStart(s: string): string {
    if s != "" && IsSpace(s[0]) then TrimStart(s[1..]) else s
  }

  function TrimEnd(s: string): string {
    if s != "" && IsSpace(Last(s)) then TrimEnd(Front(s)) else s
  }

  function Trim(s: string): string { TrimEnd(TrimStart(s)) }

  // The text after the `>` that closes a head's leading type arguments.
  function AfterTypeArgs(head: string, i: nat, depth: nat): Option<string>
    requires i <= |head|
    decreases |head| - i
  {
    if i == |head| then None
    else if head[i] == '<' then AfterTypeArgs(head, i + 1, depth + 1)
    else if head[i] == '>' then
      if depth <= 1 then Some(head[i + 1..]) else AfterTypeArgs(head, i + 1, depth - 1)
    else AfterTypeArgs(head, i + 1, depth)
  }

  function MethodName(head: string): string {
    var trimmed := Trim(head);
    if trimmed == "" || trimmed[0] != '<' then trimmed
    else
      var rest := AfterTypeArgs(trimmed, 0, 0);
      if rest.Some? then TrimStart(rest.value) else trimmed
  }

  // `arg` is the text since the last argument boundary while inside a call.
  datatype Scan = Scan(
    segments: seq<Segment>,
    current: string,
    parens: nat,
    angles: nat,
    inMethod: bool,
    arg: string,
    argTexts: seq<string>)

  const START := Scan([], "", 0, 0, false, "", [])

  function Flush(segments: seq<Segment>, current: string): seq<Segment> {
    if Trim(current) == "" then segments else segments + [Variable(Trim(current))]
  }

  function WithLast(argTexts: seq<string>, arg: string): seq<string> {
    if Trim(arg) == "" then argTexts else argTexts + [Trim(arg)]
  }

  function Step(s: Scan, c: char): Scan {
    var s' := s.(arg := if s.inMethod then s.arg + [c] else "");
    match c
    case '<' => s'.(angles := s.angles + 1, current := if s.parens == 0 then s.current + [c] else s.current)
    case '>' => s'.(angles := if s.angles > 0 then s.angles - 1 else 0, current := if s.parens == 0 then s.current + [c] else s.current)
    case '(' =>
      if s.parens == 0 then s'.(parens := 1, inMethod := true, arg := "", argTexts := []) else s'.(parens := s.parens + 1)
    case ')' =>
      var parens := if s.parens > 0 then s.parens - 1 else 0;
      if parens == 0 && s.inMethod
      then Scan(s.segments + [Method(MethodName(s.current), WithLast(s.argTexts, s.arg))], "", 0, s.angles, false, "", [])
      else s'.(parens := parens)
    case _ =>
      if c == ',' && s.parens == 1 && s.inMethod && s.angles == 0 then s'.(argTexts := s.argTexts + [Trim(s.arg)], arg := "")
      else if c == '.' && s.parens == 0 && s.angles == 0 then
        s'.(segments := if s.inMethod then s.segments else Flush(s.segments, s.current), current := "")
      else if c == '[' && s.parens == 0 && s.angles == 0 && !s.inMethod then
        s'.(segments := Flush(s.segments, s.current), current := "[")
      else if c == ']' && s.parens == 0 && s.angles == 0 && !s.inMethod && s.current != "" && s.current[0] == '[' then
        s'.(segments := s.segments + [Variable(s.current + "]")], current := "")
      else s'.(current := if s.parens == 0 then s.current + [c] else s.current)
  }

  function Run(s: Scan, text: string): Scan {
    if text == "" then s else Step(Run(s, Front(text)), Last(text))
  }

  function Finish(s: Scan): seq<Segment> {
    if s.parens == 0 && !s.inMethod then Flush(s.segments, s.current) else s.segments
  }

  function Parsed(expr: string): seq<Segment> { Finish(Run(START, expr)) }

  ghost function ScanOf(expr: string, pos: nat): Scan
    requires pos <= |expr|
  {
    Run(START, expr[..pos])
  }

  lemma {:induction false} ScanEnds(expr: string)
    ensures ScanOf(expr, 0) == START && Finish(ScanOf(expr, |expr|)) == Parsed(expr)
  {
    assert expr[..|expr|] == expr;
  }

  lemma {:induction false} ScanNext(expr: string, pos: nat)
    requires pos < |expr|
    ensures ScanOf(expr, pos + 1) == Step(ScanOf(expr, pos), expr[pos])
  {
    assert Front(expr[..pos + 1]) == expr[..pos];
  }

  function Since(expr: string, start: nat, pos: nat): string
    requires start <= pos <= |expr|
  {
    expr[start..pos]
  }

  lemma {:induction false} SinceNext(expr: string, start: nat, pos: nat)
    requires start <= pos < |expr|
    ensures Since(expr, start, pos + 1) == Since(expr, start, pos) + [expr[pos]] && Since(expr, pos + 1, pos + 1) == ""
  {
  }

  // An angle bracket; a closing one with nothing open leaves the depth at zero.
  method ScanAngle(ghost s: Scan, current: string, parens: nat, angles: nat, c: char) returns (current': string, angles': nat)
    requires (c == '<' || c == '>') && current == s.current && parens == s.parens && angles == s.angles
    ensures Step(s, c) == s.(current := current', angles := angles', arg := if s.inMethod then s.arg + [c] else "")
  {
    current', angles' := current, angles;
    if c == '<' {
      angles' := angles + 1;
    } else if angles > 0 {
      angles' := angles - 1;
    }
    if parens == 0 {
      current' := current + [c];
    }
  }

  // The two steps that start a new argument: the parenthesis that opens a call, and a comma in it.
  lemma {:induction false} ArgumentStarts(s: Scan)
    ensures Step(s, '(') == if s.parens == 0 then s.(parens := 1, inMethod := true, arg := "", argTexts := [])
      else s.(parens := s.parens + 1, arg := if s.inMethod then s.arg + ['('] else "")
    ensures s.parens == 1 && s.inMethod && s.angles == 0 ==> Step(s, ',') == s.(argTexts := s.argTexts + [Trim(s.arg)], arg := "")
  {
    hide Trim;
  }

  // A closing parenthesis; the one that ends a call completes its segment.
  method ScanClose(ghost s: Scan, segments: seq<Segment>, current: string, parens: nat, inMethod: bool, arg: string, argTexts: seq<string>)
    returns (segments': seq<Segment>, current': string, parens': nat, inMethod': bool, argTexts': seq<string>)
    requires segments == s.segments && current == s.current && parens == s.parens && inMethod == s.inMethod && argTexts == s.argTexts
    requires inMethod ==> arg == s.arg
    ensures inMethod' ==> inMethod
    ensures Step(s, ')') == Scan(segments', current', parens', s.angles, inMethod', if inMethod' then s.arg + [')'] else "", argTexts')
  {
    hide Trim, MethodName, WithLast;
    segments', current', inMethod', argTexts' := segments, current, inMethod, argTexts;
    parens' := if parens > 0 then parens - 1 else 0;
    if parens' == 0 && inMethod {
      segments' := segments + [Method(MethodName(current), WithLast(argTexts, arg))];
      current', argTexts', inMethod' := "", [], false;
    }
  }

  // Any character that neither opens nor closes a call or generics nor separates arguments.
  method ScanText(ghost s: Scan, segments: seq<Segment>, current: string, parens: nat, angles: nat, inMethod: bool, c: char)
    returns (segments': seq<Segment>, current': string)
    requires c != '<' && c != '>' && c != '(' && c != ')' && !(c == ',' && parens == 1 && inMethod && angles == 0)
    requires s.segments == segments && s.current == current && s.parens == parens && s.angles == angles && s.inMethod == inMethod
    ensures Step(s, c) == s.(segments := segments', current := current', arg := if inMethod then s.arg + [c] else "")
  {
    hide Flush;
    segments', current' := segments, current;
    if c == '.' && parens == 0 && angles == 0 {
      if !inMethod {
        segments' := Flush(segments, current);
      }
      current' := "";
    } else if c == '[' && parens == 0 && angles == 0 && !inMethod {
      segments' := Flush(segments, current);
      current' := "[";
    } else if c == ']' && parens == 0 && angles == 0 && !inMethod && current != "" && current[0] == '[' {
      segments' := segments + [Variable(current + "]")];
      current' := "";
    } else if parens == 0 {
      current' := current + [c];
    }
  }

  method ParseChainFromExpr(expr: string) returns (segments: seq<Segment>)
    ensures segments == Parsed(expr)
  {
    hide ScanOf, Since, Step, Trim, Flush, Parsed;
    ScanEnds(expr);
    segments := [];
    var current := "";
    var parens, angles: nat := 0, 0;
    var inMethod := false;
    var argStart := 0;
    var argTexts: seq<string> := [];
    for pos := 0 to |expr|
      invariant argStart <= pos
      invariant ScanOf(expr, pos) ==
        Scan(segments, current, parens, angles, inMethod, if inMethod then Since(expr, argStart, pos) else "", argTexts)
    {
      ScanNext(expr, pos);
      var c := expr[pos];
      ghost var was := Scan(segments, current, parens, angles, inMethod, if inMethod then Since(expr, argStart, pos) else "", argTexts);
      SinceNext(expr, argStart, pos);
      ArgumentStarts(was);
      if c == '<' || c == '>' {
        current, angles := ScanAngle(was, current, parens, angles, c);
      } else if c == '(' {
        parens := parens + 1;
        if parens == 1 {
          inMethod, argStart, argTexts := true, pos + 1, [];
        }
      } else if c == ')' {
        segments, current, parens, inMethod, argTexts :=
          ScanClose(was, segments, current, parens, inMethod, Since(expr, argStart, pos), argTexts);
      } else if c == ',' && parens == 1 && inMethod && angles == 0 {
        argTexts := argTexts + [Trim(Since(expr, argStart, pos))];
        argStart := pos + 1;
      } else {
        segments, current := ScanText(was, segments, current, parens, angles, inMethod, c);
      }
    }
    if parens == 0 && !inMethod {
      segments := Flush(segments, current);
    }
  }
}
