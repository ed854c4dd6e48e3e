// A printer for receiver chains, and the proof that the parser undoes it.
module ChainPrinter {
  import opened Seqs
  import opened ChainParser

  // Arguments are raw texts: they may carry surrounding blanks, nested calls and generics. Names may
  // carry blanks and line breaks around them, and so may the end of a call or an index.
  datatype Link =
    | Ident(name: string)
    | Call(typeArgs: Option<string>, name: string, args: seq<string>, gap: string)
    | Index(inner: string, gap: string)

  function Joined(args: seq<string>): string {
    if args == [] then ""
    else if |args| == 1 then args[0]
    else Joined(Front(args)) + "," + Last(args)
  }

  function Head(link: Link): string
    requires link.Call?
  {
    (if link.typeArgs.Some? then "<" + link.typeArgs.value + ">" else "") + link.name
  }

  function Text(link: Link): string {
    match link
    case Ident(name) => name
    case Call(_, _, args, gap) => Head(link) + "(" + Joined(args) + ")" + gap
    case Index(inner, gap) => "[" + inner + "]" + gap
  }

  // A link with the dot that separates it from the chain before it, if any.
  function Piece(link: Link, first: bool): string {
    if first || link.Index? then Text(link) else "." + Text(link)
  }

  function Print(links: seq<Link>): string {
    if links == [] then "" else Print(Front(links)) + Piece(Last(links), |links| == 1)
  }

  function Trimmed(args: seq<string>): seq<string> {
    if args == [] then [] else Trimmed(Front(args)) + [Trim(Last(args))]
  }

  // A blank last argument disappears.
  function ArgTexts(args: seq<string>): seq<string> {
    if args == [] then [] else WithLast(Trimmed(Front(args)), Last(args))
  }

  // Names lose the blanks around them, and type arguments are not part of a name.
  function Meaning(link: Link): Segment {
    match link
    case Ident(name) => Variable(Trim(name))
    case Call(_, name, args, _) => Method(Trim(name), ArgTexts(args))
    case Index(inner, _) => Variable("[" + inner + "]")
  }

  function Meanings(links: seq<Link>): seq<Segment> {
    if links == [] then [] else Meanings(Front(links)) + [Meaning(Last(links))]
  }

  // ---- which chains can be printed

  predicate Special(c: char) {
    c == '<' || c == '>' || c == '(' || c == ')' || c == '[' || c == ']' || c == '.'
  }

  ghost predicate Plain(s: string) {
    forall i :: 0 <= i < |s| ==> !Special(s[i])
  }

  ghost predicate Blank(s: string) {
    forall i :: 0 <= i < |s| ==> IsSpace(s[i])
  }

  // Net parentheses and the running (never negative) angle depth of a text.
  function Parens(s: string): int {
    if s == "" then 0
    else Parens(Front(s)) + (if Last(s) == '(' then 1 else if Last(s) == ')' then -1 else 0)
  }

  function Angles(s: string): nat {
    if s == "" then 0
    else if Last(s) == '<' then Angles(Front(s)) + 1
    else if Last(s) == '>' && Angles(Front(s)) > 0 then Angles(Front(s)) - 1
    else Angles(Front(s))
  }

  // Parentheses nest, angle brackets end closed, and commas only occur inside one or the other.
  // A `>` with nothing open, as in a lambda arrow, is harmless.
  ghost predicate IsArgument(s: string) {
    && (forall i :: 0 <= i <= |s| ==> Parens(s[..i]) >= 0)
    && Parens(s) == 0 && Angles(s) == 0
    && (forall i :: 0 <= i < |s| && s[i] == ',' ==> Parens(s[..i]) > 0 || Angles(s[..i]) > 0)
  }

  // Balanced angle brackets around anything but parentheses.
  ghost predicate IsTypeArgs(s: string) {
    && (forall i :: 0 <= i < |s| ==> s[i] != '(' && s[i] != ')')
    && (forall i :: 0 <= i < |s| && s[i] == '>' ==> Angles(s[..i]) > 0)
    && Angles(s) == 0
  }

  ghost predicate Printable(link: Link) {
    match link
    case Ident(name) => Plain(name) && Trim(name) != ""
    case Call(typeArgs, name, args, gap) =>
      && Plain(name) && Blank(gap)
      && (typeArgs.Some? ==> IsTypeArgs(typeArgs.value))
      && (forall a :: a in args ==> IsArgument(a))
    case Index(inner, gap) => Plain(inner) && Blank(gap)
  }

  // ---- running the scanner over the pieces

  function Resting(segments: seq<Segment>, current: string): Scan {
    Scan(segments, current, 0, 0, false, "", [])
  }

  function InCall(segments: seq<Segment>, current: string, texts: seq<string>, arg: string): Scan {
    Scan(segments, current, 1, 0, true, arg, texts)
  }

  lemma {:induction false} RunConcat(s: Scan, a: string, b: string)
    ensures Run(s, a + b) == Run(Run(s, a), b)
  {
    if b == "" {
      assert a + b == a;
    } else {
      assert Front(a + b) == a + Front(b);
      RunConcat(s, a, Front(b));
    }
  }

  lemma {:induction false} RunChar(s: Scan, c: char)
    ensures Run(s, [c]) == Step(s, c)
  {
    assert Front([c]) == "";
  }

  lemma {:induction false} RunPlain(segments: seq<Segment>, current: string, text: string)
    requires Plain(text)
    ensures Run(Resting(segments, current), text) == Resting(segments, current + text)
  {
    if text == "" {
      assert current + text == current;
    } else {
      assert forall i :: 0 <= i < |Front(text)| ==> Front(text)[i] == text[i];
      RunPlain(segments, current, Front(text));
      assert !Special(Last(text));
      assert current + text == current + Front(text) + [Last(text)];
    }
  }

  lemma {:induction false} RunArgument(segments: seq<Segment>, current: string, texts: seq<string>, arg: string, text: string, n: nat)
    requires n <= |text| && IsArgument(text)
    ensures Run(InCall(segments, current, texts, arg), text[..n])
      == Scan(segments, current, 1 + Parens(text[..n]), Angles(text[..n]), true, arg + text[..n], texts)
  {
    if n == 0 {
      assert arg + text[..0] == arg;
    } else {
      RunArgument(segments, current, texts, arg, text, n - 1);
      assert Front(text[..n]) == text[..n - 1] && Last(text[..n]) == text[n - 1];
      assert arg + text[..n] == arg + text[..n - 1] + [text[n - 1]];
      assert Parens(text[..n]) >= 0;
    }
  }

  lemma {:induction false} RunWholeArgument(segments: seq<Segment>, current: string, texts: seq<string>, text: string)
    requires IsArgument(text)
    ensures Run(InCall(segments, current, texts, ""), text) == InCall(segments, current, texts, text)
  {
    RunArgument(segments, current, texts, "", text, |text|);
    assert text[..|text|] == text;
  }

  lemma {:induction false} RunArguments(segments: seq<Segment>, current: string, args: seq<string>)
    requires args != [] && forall a :: a in args ==> IsArgument(a)
    ensures Run(InCall(segments, current, [], ""), Joined(args)) == InCall(segments, current, Trimmed(Front(args)), Last(args))
  {
    hide IsArgument, Trim, MethodName;
    var start, front, last := InCall(segments, current, [], ""), Front(args), Last(args);
    assert args == front + [last];
    if |args| == 1 {
      RunWholeArgument(segments, current, [], last);
      assert front == [];
    } else {
      RunArguments(segments, current, front);
      RunConcat(start, Joined(front) + ",", last);
      RunConcat(start, Joined(front), ",");
      var before := InCall(segments, current, Trimmed(Front(front)), Last(front));
      RunChar(before, ',');
      RunWholeArgument(segments, current, Trimmed(front), last);
    }
  }

  lemma {:induction false} RunTypeArgs(current: string, segments: seq<Segment>, t: string, n: nat)
    requires n <= |t| && IsTypeArgs(t)
    ensures Run(Scan(segments, current, 0, 1, false, "", []), t[..n])
      == Scan(segments, current + t[..n], 0, 1 + Angles(t[..n]), false, "", [])
  {
    if n == 0 {
      assert current + t[..0] == current;
    } else {
      RunTypeArgs(current, segments, t, n - 1);
      assert Front(t[..n]) == t[..n - 1] && Last(t[..n]) == t[n - 1];
      assert current + t[..n] == current + t[..n - 1] + [t[n - 1]];
    }
  }

  lemma {:induction false} RunHead(segments: seq<Segment>, link: Link)
    requires link.Call? && Printable(link)
    ensures Run(Resting(segments, ""), Head(link)) == Resting(segments, Head(link))
  {
    if link.typeArgs.None? {
      RunPlain(segments, "", link.name);
      assert Head(link) == link.name;
      assert "" + link.name == link.name;
    } else {
      RunTypedHead(segments, link.typeArgs.value, link.name);
    }
  }

  lemma {:induction false} RunTypedHead(segments: seq<Segment>, t: string, name: string)
    requires IsTypeArgs(t) && Plain(name)
    ensures Run(Resting(segments, ""), "<" + t + ">" + name) == Resting(segments, "<" + t + ">" + name)
  {
    var start := Resting(segments, "");
    RunChar(start, '<');
    assert Run(start, "<") == Scan(segments, "<", 0, 1, false, "", []);
    RunConcat(start, "<", t);
    RunTypeArgs("<", segments, t, |t|);
    assert t[..|t|] == t;
    assert Run(start, "<" + t) == Scan(segments, "<" + t, 0, 1, false, "", []);
    RunConcat(start, "<" + t, ">");
    RunChar(Scan(segments, "<" + t, 0, 1, false, "", []), '>');
    assert Run(start, "<" + t + ">") == Resting(segments, "<" + t + ">");
    RunConcat(start, "<" + t + ">", name);
    RunPlain(segments, "<" + t + ">", name);
  }

  // ---- the method name under leading type arguments

  lemma {:induction false} TrimStartExactly(s: string) returns (i: nat)
    ensures i <= |s| && TrimStart(s) == s[i..] && Blank(s[..i]) && (i < |s| ==> !IsSpace(s[i]))
  {
    i := 0;
    if s != "" && IsSpace(s[0]) {
      var k := TrimStartExactly(s[1..]);
      i := k + 1;
      assert s[..i] == [s[0]] + s[1..][..k] && s[i..] == s[1..][k..];
    }
  }

  lemma {:induction false} TrimEndExactly(s: string) returns (j: nat)
    ensures j <= |s| && TrimEnd(s) == s[..j] && Blank(s[j..]) && (j > 0 ==> !IsSpace(s[j - 1]))
  {
    j := |s|;
    if s != "" && IsSpace(Last(s)) {
      j := TrimEndExactly(Front(s));
      assert s[j..] == Front(s)[j..] + [Last(s)];
    }
  }

  // Trimming takes exactly the blanks at both ends.
  lemma {:induction false} TrimExactly(s: string) returns (i: nat, j: nat)
    ensures i <= j <= |s| && Trim(s) == s[i..j]
    ensures Blank(s[..i]) && Blank(s[j..]) && (i < j ==> !IsSpace(s[i]) && !IsSpace(s[j - 1]))
  {
    i := TrimStartExactly(s);
    var k := TrimEndExactly(s[i..]);
    j := i + k;
    assert s[i..][..k] == s[i..j] && s[i..][k..] == s[j..];
  }

  lemma {:induction false} TrimUnique(s: string, i: nat, j: nat)
    requires i <= j <= |s| && Blank(s[..i]) && Blank(s[j..]) && (i < j ==> !IsSpace(s[i]) && !IsSpace(s[j - 1]))
    ensures Trim(s) == s[i..j]
  {
    var k, l := TrimExactly(s);
    BlankAround(s, i, j);
    BlankAround(s, k, l);
    hide Trim;
    assert i < j ==> k == i && l == j;
    assert i == j ==> k == l;
  }

  lemma {:induction false} BlankAround(s: string, i: nat, j: nat)
    requires i <= j <= |s| && Blank(s[..i]) && Blank(s[j..])
    ensures forall x :: 0 <= x < i || j <= x < |s| ==> IsSpace(s[x])
  {
    forall x | 0 <= x < i ensures IsSpace(s[x]) {
      assert s[..i][x] == s[x];
    }
    forall x | j <= x < |s| ensures IsSpace(s[x]) {
      assert s[j..][x - j] == s[x];
    }
  }

  lemma {:induction false} TrimOfBlank(s: string)
    requires Blank(s)
    ensures Trim(s) == ""
  {
    assert s[..|s|] == s && s[|s|..] == "";
    TrimUnique(s, |s|, |s|);
  }

  lemma {:induction false} SkipTypeArgs(head: string, t: string, n: nat)
    requires IsTypeArgs(t) && n <= |t| && |t| < |head| && head[1..1 + |t|] == t
    ensures AfterTypeArgs(head, 1 + n, 1 + Angles(t[..n])) == AfterTypeArgs(head, 1 + |t|, 1)
    decreases |t| - n
  {
    if n == |t| {
      assert t[..n] == t;
    } else {
      SkipTypeArgs(head, t, n + 1);
      assert head[1 + n] == head[1..1 + |t|][n] == t[n];
      assert Front(t[..n + 1]) == t[..n] && Last(t[..n + 1]) == t[n];
    }
  }

  lemma {:induction false} TrimTypedHead(t: string, name: string) returns (j: nat)
    ensures j <= |name| && Trim("<" + t + ">" + name) == "<" + t + ">" + name[..j] && TrimStart(name[..j]) == Trim(name)
  {
    var head := "<" + t + ">" + name;
    var k, l := TrimExactly(name);
    j := TrimEndExactly(name);
    assert head[2 + |t| + j..] == name[j..];
    assert j > 0 ==> head[2 + |t| + j - 1] == name[j - 1];
    TrimUnique(head, 0, 2 + |t| + j);
    assert head[..2 + |t| + j] == "<" + t + ">" + name[..j];
    var i := TrimStartExactly(name[..j]);
    assert name[..j][i..] == name[i..j] && name[..j][..i] == name[..i];
    TrimUnique(name, i, j);
  }

  lemma {:induction false} MethodNameOfTypedHead(t: string, name: string)
    requires IsTypeArgs(t) && Plain(name)
    ensures MethodName("<" + t + ">" + name) == Trim(name)
  {
    hide Trim, TrimStart, IsTypeArgs;
    var j := TrimTypedHead(t, name);
    var head := "<" + t + ">" + name[..j];
    assert head[1..1 + |t|] == t;
    SkipTypeArgs(head, t, 0);
    assert t[..0] == "";
    assert head[2 + |t|..] == name[..j];
  }

  lemma {:induction false} MethodNameOfHead(link: Link)
    requires link.Call? && Printable(link)
    ensures MethodName(Head(link)) == Trim(link.name)
  {
    if link.typeArgs.Some? {
      MethodNameOfTypedHead(link.typeArgs.value, link.name);
    } else {
      var i, j := TrimExactly(link.name);
      assert Head(link) == link.name;
      assert i < j ==> Trim(link.name)[0] == link.name[i] && !Special(link.name[i]);
    }
  }

  // ---- one link, then the chain

  lemma {:induction false} RunGap(segments: seq<Segment>, gap: string)
    requires Blank(gap)
    ensures Run(Resting(segments, ""), gap) == Resting(segments, gap) && Flush(segments, gap) == segments
  {
    forall i | 0 <= i < |gap| ensures !Special(gap[i]) {
      assert IsSpace(gap[i]);
    }
    RunPlain(segments, "", gap);
    assert "" + gap == gap;
    TrimOfBlank(gap);
  }

  lemma {:induction false} RunCall(segments: seq<Segment>, link: Link)
    requires link.Call? && Printable(link)
    ensures Run(Resting(segments, ""), Head(link) + "(" + Joined(link.args) + ")") == Resting(segments + [Meaning(link)], "")
  {
    hide Trim, TrimStart, TrimEnd;
    var start, head, joined := Resting(segments, ""), Head(link), Joined(link.args);
    RunConcat(start, head + "(" + joined, ")");
    RunConcat(start, head + "(", joined);
    RunConcat(start, head, "(");
    RunHead(segments, link);
    RunChar(Resting(segments, head), '(');
    MethodNameOfHead(link);
    var inside := InCall(segments, head, [], "");
    if link.args == [] {
      RunChar(inside, ')');
      WithNoArgument([]);
    } else {
      RunArguments(segments, head, link.args);
      RunChar(InCall(segments, head, Trimmed(Front(link.args)), Last(link.args)), ')');
    }
  }

  lemma WithNoArgument(argTexts: seq<string>)
    ensures WithLast(argTexts, "") == argTexts
  {
  }

  lemma {:induction false} RunIndex(segments: seq<Segment>, current: string, inner: string)
    requires Plain(inner)
    ensures Run(Resting(segments, current), "[" + inner + "]") == Resting(Flush(segments, current) + [Variable("[" + inner + "]")], "")
  {
    var start := Resting(segments, current);
    RunConcat(start, "[" + inner, "]");
    RunConcat(start, "[", inner);
    RunChar(start, '[');
    RunPlain(Flush(segments, current), "[", inner);
    RunChar(Resting(Flush(segments, current), "[" + inner), ']');
  }

  lemma {:induction false} RunNamed(segments: seq<Segment>, link: Link) returns (current': string, segments': seq<Segment>)
    requires Printable(link) && !link.Index?
    ensures Run(Resting(segments, ""), Text(link)) == Resting(segments', current')
    ensures Flush(segments', current') == segments + [Meaning(link)]
  {
    hide Trim;
    if link.Call? {
      RunConcat(Resting(segments, ""), Head(link) + "(" + Joined(link.args) + ")", link.gap);
      RunCall(segments, link);
      RunGap(segments + [Meaning(link)], link.gap);
      return link.gap, segments + [Meaning(link)];
    }
    RunPlain(segments, "", link.name);
    assert "" + link.name == link.name;
    return link.name, segments;
  }

  lemma {:induction false} RunDot(segments: seq<Segment>, current: string, text: string)
    ensures Run(Resting(segments, current), "." + text) == Run(Resting(Flush(segments, current), ""), text)
  {
    RunConcat(Resting(segments, current), ".", text);
    RunChar(Resting(segments, current), '.');
  }

  lemma {:induction false} RunLink(segments: seq<Segment>, current: string, link: Link, first: bool) returns (current': string, segments': seq<Segment>)
    requires Printable(link)
    requires first ==> current == ""
    ensures Run(Resting(segments, current), Piece(link, first)) == Resting(segments', current')
    ensures Flush(segments', current') == Flush(segments, current) + [Meaning(link)]
  {
    if link.Index? {
      hide Trim;
      RunConcat(Resting(segments, current), "[" + link.inner + "]", link.gap);
      RunIndex(segments, current, link.inner);
      RunGap(Flush(segments, current) + [Meaning(link)], link.gap);
      return link.gap, Flush(segments, current) + [Meaning(link)];
    }
    if !first {
      RunDot(segments, current, Text(link));
    }
    current', segments' := RunNamed(Flush(segments, current), link);
  }

  lemma {:induction false} RunChain(links: seq<Link>) returns (current: string, segments: seq<Segment>)
    requires forall k :: k in links ==> Printable(k)
    ensures Run(START, Print(links)) == Resting(segments, current)
    ensures Flush(segments, current) == Meanings(links)
    ensures links == [] ==> current == ""
  {
    if links == [] {
      return "", [];
    }
    assert links == Front(links) + [Last(links)];
    var c, s := RunChain(Front(links));
    RunConcat(START, Print(Front(links)), Piece(Last(links), |links| == 1));
    current, segments := RunLink(s, c, Last(links), |links| == 1);
  }

  // Parsing a printed chain gives the chain back.
  lemma {:induction false} ParseUndoesPrint(links: seq<Link>)
    requires forall k :: k in links ==> Printable(k)
    ensures Parsed(Print(links)) == Meanings(links)
  {
    var _, _ := RunChain(links);
  }

  // Of a call's arguments every one but the last counts, blank or not; a blank last one does not.
  lemma {:induction false} ArgTextsExactly(args: seq<string>)
    ensures ArgTexts([]) == []
    ensures args != [] ==> ArgTexts(args) == Map(Trim, Front(args)) + (if Trim(Last(args)) == "" then [] else [Trim(Last(args))])
  {
    if args != [] {
      TrimmedIsMap(Front(args));
      assert Map(Trim, Front(args)) + [] == Map(Trim, Front(args));
    }
  }

  lemma {:induction false} TrimmedIsMap(args: seq<string>)
    ensures Trimmed(args) == Map(Trim, args)
  {
    if args != [] {
      TrimmedIsMap(Front(args));
    }
  }

  // What a link's segment tells: a call its name and argument texts with their number, a name or an
  // index no number at all.
  lemma SegmentTells(link: Link)
    ensures var segment := Meaning(link);
      match link
      case Ident(name) => segment.name == Trim(name) && segment.argCount == None && segment.argTexts == []
      case Call(_, name, args, _) =>
        segment.name == Trim(name) && segment.argTexts == ArgTexts(args) && segment.argCount == Some(|ArgTexts(args)|)
      case Index(inner, _) => segment.name == "[" + inner + "]" && segment.argCount == None && segment.argTexts == []
  {
  }

  // Trimmed, non-blank arguments come back as they are, with their number.
  lemma {:induction false} ExactArguments(args: seq<string>)
    requires forall a :: a in args ==> a != "" && Trim(a) == a
    ensures ArgTexts(args) == args
  {
    if args != [] {
      assert args == Front(args) + [Last(args)];
      TrimmedIsIdentity(Front(args));
    }
  }

  lemma {:induction false} TrimmedIsIdentity(args: seq<string>)
    requires forall a :: a in args ==> Trim(a) == a
    ensures Trimmed(args) == args
  {
    if args != [] {
      assert args == Front(args) + [Last(args)];
      TrimmedIsIdentity(Front(args));
    }
  }

  // ---- blanks and malformed chains

  // The white space of the Unicode Character Database, as the trimming of text uses it.
  lemma SpacesExactly(c: char)
    ensures IsSpace(c) <==> c in {'\U{0009}', '\U{000A}', '\U{000B}', '\U{000C}', '\U{000D}', '\U{0020}', '\U{0085}', '\U{00A0}',
      '\U{1680}', '\U{2000}', '\U{2001}', '\U{2002}', '\U{2003}', '\U{2004}', '\U{2005}', '\U{2006}', '\U{2007}', '\U{2008}',
      '\U{2009}', '\U{200A}', '\U{2028}', '\U{2029}', '\U{202F}', '\U{205F}', '\U{3000}'}
  {
  }

  lemma {:induction false} RunUnclosed(s: Scan, text: string)
    requires s.inMethod && s.parens > 0 && ')' !in text
    ensures var t := Run(s, text); t.inMethod && t.parens > 0 && t.segments == s.segments
  {
    if text != "" {
      assert text == Front(text) + [Last(text)];
      RunUnclosed(s, Front(text));
    }
  }

  // A call that is never closed is left out, with everything in it.
  lemma {:induction false} UnclosedCallIsDropped(links: seq<Link>, name: string, text: string)
    requires links != [] && (forall k :: k in links ==> Printable(k)) && Plain(name) && ')' !in text
    ensures Parsed(Print(links) + ("." + name + "(" + text)) == Meanings(links)
  {
    hide Trim;
    var current, segments := RunChain(links);
    var kept := Flush(segments, current);
    RunConcat(START, Print(links), "." + name + "(" + text);
    RunConcat(Resting(segments, current), "." + name + "(", text);
    RunConcat(Resting(segments, current), "." + name, "(");
    RunDot(segments, current, name);
    RunPlain(kept, "", name);
    assert "" + name == name;
    RunChar(Resting(kept, name), '(');
    RunUnclosed(InCall(kept, name, [], ""), text);
  }

  // Outside calls a stray `)` disappears; a stray `>` or `]` is part of the name.
  lemma {:induction false} StrayClosers(segments: seq<Segment>, current: string)
    ensures Run(Resting(segments, current), ")") == Resting(segments, current)
    ensures Run(Resting(segments, current), ">") == Resting(segments, current + ">")
    ensures current == "" || current[0] != '[' ==> Run(Resting(segments, current), "]") == Resting(segments, current + "]")
  {
    RunChar(Resting(segments, current), ')');
    RunChar(Resting(segments, current), '>');
    RunChar(Resting(segments, current), ']');
  }
}
