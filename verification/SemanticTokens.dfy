// Semantic tokens: a pre-order walk of the syntax tree pushes classified nodes, each encoded
// relative to the token before it in lines and UTF-16 columns.
module SemanticTokens {
  import opened Seqs
  import opened Positions

  datatype Kind = Kind(tokenType: nat, modifiers: bv32)

  // A syntax node with the classification the language gives it, if any.
  datatype Node = Node(startByte: nat, endByte: nat, kind: Option<Kind>, children: seq<Node>)

  datatype Token = Token(deltaLine: nat, deltaStart: nat, length: nat, kind: Kind)

  datatype Absolute = Absolute(line: nat, column: nat, length: nat, kind: Kind)

  function UnitsBetween(text: string, start: nat, end: nat): nat
    requires end <= |text|
  {
    if end <= start then 0 else Units(text[start..end])
  }

  // Where a node's token lies, as `push_token` computes it.
  function Place(rope: Rope, start: nat, end: nat, kind: Kind): Absolute
    requires rope.Valid()
  {
    var text := Text(rope.lines);
    var startChar, endChar := ByteToChar(text, start), ByteToChar(text, end);
    var line := CharToLine(rope.lines, startChar);
    Absolute(ToU32(line), ToU32(UnitsBetween(text, LineToChar(rope.lines, line), startChar)),
      ToU32(UnitsBetween(text, startChar, endChar)), kind)
  }

  function Minus(a: nat, b: nat): nat { if a > b then a - b else 0 }

  function Delta(line: nat, column: nat, a: Absolute): Token {
    var deltaLine := Minus(a.line, line);
    Token(deltaLine, if deltaLine == 0 then Minus(a.column, column) else a.column, a.length, a.kind)
  }

  function LastLine(s: seq<Absolute>): nat { if s == [] then 0 else Last(s).line }

  function LastColumn(s: seq<Absolute>): nat { if s == [] then 0 else Last(s).column }

  function Encoded(s: seq<Absolute>): seq<Token> {
    if s == [] then [] else Encoded(Front(s)) + [Delta(LastLine(Front(s)), LastColumn(Front(s)), Last(s))]
  }

  // Integer encoding for tokens, read as the protocol defines it.
  function Decoded(tokens: seq<Token>): seq<Absolute> {
    if tokens == [] then []
    else
      var before, t := Decoded(Front(tokens)), Last(tokens);
      before + [Absolute(LastLine(before) + t.deltaLine,
        if t.deltaLine == 0 then LastColumn(before) + t.deltaStart else t.deltaStart, t.length, t.kind)]
  }

  // ---- which nodes are visited

  function Own(rope: Rope, n: Node): seq<Absolute>
    requires rope.Valid()
  {
    if n.kind.Some? then [Place(rope, n.startByte, n.endByte, n.kind.value)] else []
  }

  function Under(n: Node): seq<Node>
    decreases n
  {
    UnderAll(n.children)
  }

  // Pre-order, the node itself before what is under it.
  function UnderAll(children: seq<Node>): seq<Node>
    decreases children
  {
    if children == [] then [] else UnderAll(Front(children)) + ([Last(children)] + Under(Last(children)))
  }

  function Placed(rope: Rope, nodes: seq<Node>): seq<Absolute>
    requires rope.Valid()
  {
    if nodes == [] then [] else Placed(rope, Front(nodes)) + Own(rope, Last(nodes))
  }

  predicate Meets(n: Node, start: nat, end: nat) {
    !(n.endByte <= start || n.startByte >= end)
  }

  function MeetingOnly(nodes: seq<Node>, start: nat, end: nat): seq<Node> {
    if nodes == [] then []
    else MeetingOnly(Front(nodes), start, end) + (if Meets(Last(nodes), start, end) then [Last(nodes)] else [])
  }

  // The pruned walk: whole subtrees outside the range are skipped.
  function RangeUnder(n: Node, start: nat, end: nat): seq<Node>
    decreases n, 0
  {
    if Meets(n, start, end) then RangeUnderAll(n.children, start, end) else []
  }

  function RangeUnderAll(children: seq<Node>, start: nat, end: nat): seq<Node>
    decreases children
  {
    if children == [] then [] else RangeUnderAll(Front(children), start, end) + RangeFrom(Last(children), start, end)
  }

  function RangeFrom(n: Node, start: nat, end: nat): seq<Node>
    decreases n, 1
  {
    if Meets(n, start, end) then [n] + RangeUnder(n, start, end) else []
  }

  // ---- the collector

  class TokenCollector {
    const rope: Rope
    var data: seq<Token>
    var lastLine: nat
    var lastColumn: nat
    ghost var emitted: seq<Absolute>

    ghost predicate Valid()
      reads this
    {
      rope.Valid() && data == Encoded(emitted) && lastLine == LastLine(emitted) && lastColumn == LastColumn(emitted)
    }

    constructor (rope: Rope)
      requires rope.Valid()
      ensures Valid() && this.rope == rope && emitted == []
    {
      this.rope := rope;
      data, lastLine, lastColumn, emitted := [], 0, 0, [];
    }

    method PushToken(n: Node, kind: Kind)
      requires Valid()
      modifies this
      ensures Valid() && emitted == old(emitted) + [Place(rope, n.startByte, n.endByte, kind)]
    {
      var text := Text(rope.lines);
      var startChar, endChar := ByteToChar(text, n.startByte), ByteToChar(text, n.endByte);
      var lineIdx := CharToLine(rope.lines, startChar);
      var line := ToU32(lineIdx);
      var column := ToU32(UnitsBetween(text, LineToChar(rope.lines, lineIdx), startChar));
      var length := ToU32(UnitsBetween(text, startChar, endChar));
      var deltaLine := Minus(line, lastLine);
      var deltaStart := if deltaLine == 0 then Minus(column, lastColumn) else column;
      data := data + [Token(deltaLine, deltaStart, length, kind)];
      emitted := emitted + [Absolute(line, column, length, kind)];
      assert Front(emitted) == old(emitted);
      lastLine, lastColumn := line, column;
    }

    method Visit(n: Node)
      requires Valid()
      modifies this
      ensures Valid() && emitted == old(emitted) + Own(rope, n)
    {
      if n.kind.Some? {
        PushToken(n, n.kind.value);
      }
    }

    method Collect(n: Node)
      requires Valid()
      modifies this
      ensures Valid() && emitted == old(emitted) + Placed(rope, Under(n))
      decreases n
    {
      for i := 0 to |n.children|
        invariant Valid() && emitted == old(emitted) + Placed(rope, UnderAll(n.children[..i]))
      {
        var child := n.children[i];
        assert n.children[..i + 1] == n.children[..i] + [child];
        UnderSnoc(n.children[..i], child);
        PlacedSubtree(rope, old(emitted), UnderAll(n.children[..i]), child, Under(child));
        Visit(child);
        if child.children != [] {
          Collect(child);
        }
      }
      assert n.children[..|n.children|] == n.children;
    }

    method CollectRange(n: Node, start: nat, end: nat)
      requires Valid()
      modifies this
      ensures Valid() && emitted == old(emitted) + Placed(rope, RangeUnder(n, start, end))
      decreases n
    {
      if n.endByte <= start || n.startByte >= end {
        return;
      }
      for i := 0 to |n.children|
        invariant Valid() && emitted == old(emitted) + Placed(rope, RangeUnderAll(n.children[..i], start, end))
      {
        var child := n.children[i];
        assert n.children[..i + 1] == n.children[..i] + [child];
        RangeUnderSnoc(n.children[..i], child, start, end);
        if child.endByte <= start || child.startByte >= end {
          continue;
        }
        PlacedSubtree(rope, old(emitted), RangeUnderAll(n.children[..i], start, end), child, RangeUnder(child, start, end));
        Visit(child);
        if child.children != [] {
          CollectRange(child, start, end);
        }
      }
      assert n.children[..|n.children|] == n.children;
    }

    method Finish() returns (tokens: seq<Token>)
      requires Valid()
      ensures tokens == Encoded(emitted)
    {
      tokens := data;
    }
  }

  lemma {:induction false} PlacedConcat(rope: Rope, a: seq<Node>, b: seq<Node>)
    requires rope.Valid()
    ensures Placed(rope, a + b) == Placed(rope, a) + Placed(rope, b)
  {
    if b == [] {
      assert a + b == a;
    } else {
      assert Front(a + b) == a + Front(b) && Last(a + b) == Last(b);
      PlacedConcat(rope, a, Front(b));
      ThreeParts(Placed(rope, a), Placed(rope, Front(b)), Own(rope, Last(b)));
    }
  }

  lemma {:induction false} UnderSnoc(children: seq<Node>, child: Node)
    ensures UnderAll(children + [child]) == UnderAll(children) + ([child] + Under(child))
    ensures child.children == [] ==> Under(child) == []
  {
    assert Front(children + [child]) == children;
  }

  lemma {:induction false} RangeUnderSnoc(children: seq<Node>, child: Node, start: nat, end: nat)
    ensures RangeUnderAll(children + [child], start, end)
      == RangeUnderAll(children, start, end) + (if Meets(child, start, end) then [child] + RangeUnder(child, start, end) else [])
    ensures !Meets(child, start, end) ==> RangeUnderAll(children + [child], start, end) == RangeUnderAll(children, start, end)
    ensures child.children == [] ==> RangeUnder(child, start, end) == []
  {
    assert Front(children + [child]) == children;
  }

  // A node's token, then those under it.
  lemma {:induction false} PlacedSubtree(rope: Rope, emitted: seq<Absolute>, before: seq<Node>, n: Node, under: seq<Node>)
    requires rope.Valid()
    ensures emitted + Placed(rope, before + ([n] + under)) == emitted + Placed(rope, before) + Own(rope, n) + Placed(rope, under)
    ensures under == [] ==> emitted + Placed(rope, before + ([n] + under)) == emitted + Placed(rope, before) + Own(rope, n)
  {
    PlacedConcat(rope, before, [n] + under);
    PlacedConcat(rope, [n], under);
    PlacedOne(rope, n);
    FourParts(emitted, Placed(rope, before), Own(rope, n), Placed(rope, under));
  }

  lemma ThreeParts<T>(a: seq<T>, b: seq<T>, c: seq<T>)
    ensures a + (b + c) == a + b + c
  {
  }

  lemma FourParts<T>(a: seq<T>, b: seq<T>, c: seq<T>, d: seq<T>)
    ensures a + (b + (c + d)) == a + b + c + d
  {
  }

  lemma {:induction false} PlacedOne(rope: Rope, n: Node)
    requires rope.Valid()
    ensures Placed(rope, [n]) == Own(rope, n)
  {
    assert Front([n]) == [];
  }

  // ---- decoding undoes encoding

  ghost predicate NotBefore(a: Absolute, b: Absolute) {
    a.line < b.line || (a.line == b.line && a.column <= b.column)
  }

  ghost predicate InOrder(s: seq<Absolute>) {
    forall i :: 0 < i < |s| ==> NotBefore(s[i - 1], s[i])
  }

  lemma {:induction false} DecodeEncoded(s: seq<Absolute>)
    requires InOrder(s)
    ensures Decoded(Encoded(s)) == s
  {
    if s != [] {
      DecodeEncoded(Front(s));
      assert Front(Encoded(s)) == Encoded(Front(s));
      if |s| > 1 {
        assert NotBefore(s[|s| - 2], s[|s| - 1]);
        assert Last(Front(s)) == s[|s| - 2];
      }
    }
  }

  // ---- nested trees are walked in text order

  ghost predicate Inside(n: Node, start: nat, end: nat) {
    start <= n.startByte <= n.endByte <= end
  }

  // Children lie inside their parent, one after the other.
  ghost predicate WellNested(n: Node)
    decreases n, 1
  {
    n.startByte <= n.endByte && InSequence(n.children, n.startByte, n.endByte)
  }

  ghost predicate InSequence(children: seq<Node>, start: nat, end: nat)
    decreases children, 0
  {
    children == []
    || (Inside(Last(children), start, end) && WellNested(Last(children))
        && InSequence(Front(children), start, Last(children).startByte))
  }

  ghost predicate StartsAscend(nodes: seq<Node>, start: nat, end: nat) {
    && (forall i :: 0 <= i < |nodes| ==> Inside(nodes[i], start, end))
    && (forall i, j :: 0 <= i < j < |nodes| ==> nodes[i].startByte <= nodes[j].startByte)
  }

  lemma {:induction false} UnderAscends(n: Node)
    requires WellNested(n)
    ensures StartsAscend([n] + Under(n), n.startByte, n.endByte)
    decreases n, 1
  {
    UnderAllAscends(n.children, n.startByte, n.endByte);
  }

  lemma {:induction false} UnderAllAscends(children: seq<Node>, start: nat, end: nat)
    requires start <= end && InSequence(children, start, end)
    ensures StartsAscend(UnderAll(children), start, end)
    decreases children, 0
  {
    if children != [] {
      UnderAllAscends(Front(children), start, Last(children).startByte);
      UnderAscends(Last(children));
    }
  }

  lemma {:induction false} CharsAscend(text: string, a: nat, b: nat)
    requires a <= b
    ensures ByteToChar(text, a) <= ByteToChar(text, b)
  {
    if text != "" && a >= Utf8Len(text[0]) {
      CharsAscend(text[1..], a - Utf8Len(text[0]), b - Utf8Len(text[0]));
    }
  }

  // A token sits where the position conversion puts its first character.
  lemma {:induction false} PlaceIsPosition(rope: Rope, start: nat, end: nat, kind: Kind)
    requires rope.Valid() && Fits(rope)
    ensures var text := Text(rope.lines);
      var p := Place(rope, start, end, kind);
      (p.line, p.column) == OffsetToLineCol(rope, Bytes(text[..ByteToChar(text, start)]))
  {
    var text := Text(rope.lines);
    var i := ByteToChar(text, start);
    ByteToCharOfPrefix(text, i);
    BoundaryFits(rope, i);
    LineStartsInText(rope.lines, i);
  }

  lemma {:induction false} PlaceOnLine(rope: Rope, start: nat, end: nat, kind: Kind)
    requires rope.Valid() && Fits(rope)
    ensures var i := ByteToChar(Text(rope.lines), start);
      var line := CharToLine(rope.lines, i);
      var first := LineToChar(rope.lines, line);
      && first <= i && i - first <= |rope.lines[line]|
      && Place(rope, start, end, kind).line == line
      && Place(rope, start, end, kind).column == Units(rope.lines[line][..i - first])
  {
    PlaceIsPosition(rope, start, end, kind);
    PositionOfBoundary(rope, ByteToChar(Text(rope.lines), start));
  }

  lemma {:induction false} UnitsOnLine(rope: Rope, i: nat, j: nat)
    requires rope.Valid() && i <= j <= |Text(rope.lines)| && CharToLine(rope.lines, i) == CharToLine(rope.lines, j)
    ensures var line := CharToLine(rope.lines, i);
      var first := LineToChar(rope.lines, line);
      first <= i && j - first <= |rope.lines[line]|
      && Units(rope.lines[line][..j - first]) == Units(rope.lines[line][..i - first]) + UnitsBetween(Text(rope.lines), i, j)
  {
    var text, line := Text(rope.lines), CharToLine(rope.lines, i);
    var first := LineToChar(rope.lines, line);
    LineStartsInText(rope.lines, i);
    LineStartsInText(rope.lines, j);
    assert text[i..j] == text[first..j][i - first..];
    assert text[i..j] == rope.lines[line][i - first..j - first];
    PrefixSums(rope.lines[line], i - first, j - first);
  }

  lemma {:induction false} EndPosition(rope: Rope, i: nat, j: nat)
    requires rope.Valid() && Fits(rope) && i <= j <= |Text(rope.lines)|
    requires CharToLine(rope.lines, i) == CharToLine(rope.lines, j)
    ensures var line := CharToLine(rope.lines, i);
      var first := LineToChar(rope.lines, line);
      && first <= i && i - first <= |rope.lines[line]|
      && OffsetToLineCol(rope, Bytes(Text(rope.lines)[..j]))
        == (line, Units(rope.lines[line][..i - first]) + UnitsBetween(Text(rope.lines), i, j))
      && UnitsBetween(Text(rope.lines), i, j) < U32
  {
    UnitsOnLine(rope, i, j);
    PositionOfBoundary(rope, j);
    BoundaryFits(rope, j);
  }

  lemma {:induction false} PlaceLength(rope: Rope, start: nat, end: nat, kind: Kind)
    requires rope.Valid()
    ensures var text := Text(rope.lines);
      Place(rope, start, end, kind).length == ToU32(UnitsBetween(text, ByteToChar(text, start), ByteToChar(text, end)))
  {
  }

  // ... and its length reaches the position of the node's end, when that is on the same line.
  lemma {:induction false} LengthReachesEnd(rope: Rope, start: nat, end: nat, kind: Kind)
    requires rope.Valid() && Fits(rope) && start <= end
    requires CharToLine(rope.lines, ByteToChar(Text(rope.lines), start)) == CharToLine(rope.lines, ByteToChar(Text(rope.lines), end))
    ensures var text := Text(rope.lines);
      var p := Place(rope, start, end, kind);
      OffsetToLineCol(rope, Bytes(text[..ByteToChar(text, end)])) == (p.line, p.column + p.length)
  {
    hide OffsetToLineCol, Place, UnitsBetween;
    var text := Text(rope.lines);
    var i, j := ByteToChar(text, start), ByteToChar(text, end);
    CharsAscend(text, start, end);
    EndPosition(rope, i, j);
    PlaceOnLine(rope, start, end, kind);
    PlaceLength(rope, start, end, kind);
  }

  lemma {:induction false} PlacesAscend(rope: Rope, a: Node, b: Node, kind: Kind, kind': Kind)
    requires rope.Valid() && Fits(rope) && a.startByte <= b.startByte
    ensures NotBefore(Place(rope, a.startByte, a.endByte, kind), Place(rope, b.startByte, b.endByte, kind'))
  {
    var text := Text(rope.lines);
    PlaceIsPosition(rope, a.startByte, a.endByte, kind);
    PlaceIsPosition(rope, b.startByte, b.endByte, kind');
    CharsAscend(text, a.startByte, b.startByte);
    if ByteToChar(text, a.startByte) < ByteToChar(text, b.startByte) {
      Positions.PositionsIncrease(rope, ByteToChar(text, a.startByte), ByteToChar(text, b.startByte));
    }
  }

  lemma {:induction false} PlacedBefore(rope: Rope, nodes: seq<Node>, n: Node, kind: Kind)
    requires rope.Valid() && Fits(rope)
    requires forall i :: 0 <= i < |nodes| ==> nodes[i].startByte <= n.startByte
    ensures Placed(rope, nodes) != [] ==> NotBefore(Last(Placed(rope, nodes)), Place(rope, n.startByte, n.endByte, kind))
  {
    if nodes != [] {
      var m := Last(nodes);
      if m.kind.Some? {
        PlacesAscend(rope, m, n, m.kind.value, kind);
      } else {
        PlacedBefore(rope, Front(nodes), n, kind);
      }
    }
  }

  lemma {:induction false} PlacedInOrder(rope: Rope, nodes: seq<Node>, start: nat, end: nat)
    requires rope.Valid() && Fits(rope) && StartsAscend(nodes, start, end)
    ensures InOrder(Placed(rope, nodes))
  {
    if nodes != [] {
      PlacedInOrder(rope, Front(nodes), start, end);
      if Last(nodes).kind.Some? {
        PlacedBefore(rope, Front(nodes), Last(nodes), Last(nodes).kind.value);
      }
    }
  }

  // Decoding the deltas of a full collection recovers every absolute line, UTF-16 column and length.
  lemma {:induction false} TokensDecode(rope: Rope, root: Node)
    requires rope.Valid() && Fits(rope) && WellNested(root)
    ensures Decoded(Encoded(Placed(rope, Under(root)))) == Placed(rope, Under(root))
  {
    UnderAllAscends(root.children, root.startByte, root.endByte);
    PlacedInOrder(rope, Under(root), root.startByte, root.endByte);
    DecodeEncoded(Placed(rope, Under(root)));
  }

  function Classified(n: Node): bool { n.kind.Some? }

  // One place for every classified node, in order, with the node's own kind.
  lemma {:induction false} PlacedEach(rope: Rope, nodes: seq<Node>)
    requires rope.Valid()
    ensures var classified, placed := Filter(Classified, nodes), Placed(rope, nodes);
      && |placed| == |classified|
      && (forall i :: 0 <= i < |placed| ==> classified[i].kind.Some? && placed[i].kind == classified[i].kind.value)
      && (forall i :: 0 <= i < |placed| ==>
           placed[i] == Place(rope, classified[i].startByte, classified[i].endByte, classified[i].kind.value))
  {
    hide Place;
    if nodes != [] {
      PlacedEach(rope, Front(nodes));
      PlaceKeepsKind(rope, Last(nodes));
    }
  }

  lemma PlaceKeepsKind(rope: Rope, n: Node)
    requires rope.Valid()
    ensures n.kind.Some? ==> Place(rope, n.startByte, n.endByte, n.kind.value).kind == n.kind.value
  {
  }

  // The decoded tokens are the classified nodes of the walk, each with its own kind.
  lemma {:induction false} TokensTellKinds(rope: Rope, root: Node)
    requires rope.Valid() && Fits(rope) && WellNested(root)
    ensures var tokens, classified := Decoded(Encoded(Placed(rope, Under(root)))), Filter(Classified, Under(root));
      |tokens| == |classified| && forall i :: 0 <= i < |tokens| ==> classified[i].kind == Some(tokens[i].kind)
  {
    TokensDecode(rope, root);
    PlacedEach(rope, Under(root));
  }

  // ---- the walk visits every node, parents first

  // A way down from a node, child index by child index.
  ghost predicate LeadsDown(n: Node, path: seq<nat>)
    decreases |path|
  {
    path == [] || (path[0] < |n.children| && LeadsDown(n.children[path[0]], path[1..]))
  }

  ghost function NodeAt(n: Node, path: seq<nat>): Node
    requires LeadsDown(n, path)
    decreases |path|
  {
    if path == [] then n else NodeAt(n.children[path[0]], path[1..])
  }

  // A node before what is under it, and what is under it before its later siblings.
  ghost predicate Earlier(p: seq<nat>, q: seq<nat>) {
    q != [] && (p == [] || p[0] < q[0] || (p[0] == q[0] && Earlier(p[1..], q[1..])))
  }

  ghost function Deeper(k: nat, paths: seq<seq<nat>>): seq<seq<nat>> {
    seq(|paths|, i requires 0 <= i < |paths| => [k] + paths[i])
  }

  ghost function PathsUnder(n: Node): seq<seq<nat>>
    decreases n
  {
    PathsUnderAll(n.children)
  }

  ghost function PathsUnderAll(children: seq<Node>): seq<seq<nat>>
    decreases children
  {
    if children == [] then []
    else PathsUnderAll(Front(children)) + ([[|children| - 1]] + Deeper(|children| - 1, PathsUnder(Last(children))))
  }

  ghost predicate ListsInPreOrder(children: seq<Node>, nodes: seq<Node>, paths: seq<seq<nat>>) {
    && |paths| == |nodes|
    && (forall i :: 0 <= i < |paths| ==>
         && paths[i] != [] && paths[i][0] < |children| && LeadsDown(children[paths[i][0]], paths[i][1..])
         && nodes[i] == NodeAt(children[paths[i][0]], paths[i][1..]))
    && (forall i, j :: 0 <= i < j < |paths| ==> Earlier(paths[i], paths[j]))
  }

  lemma {:induction false} SubtreeInPreOrder(children: seq<Node>, k: nat, nodes: seq<Node>, paths: seq<seq<nat>>)
    requires k < |children| && ListsInPreOrder(children[k].children, nodes, paths)
    ensures ListsInPreOrder(children, [children[k]] + nodes, [[k]] + Deeper(k, paths))
    ensures forall p :: p in [[k]] + Deeper(k, paths) ==> p != [] && p[0] == k
  {
    var all, own := [children[k]] + nodes, [[k]] + Deeper(k, paths);
    forall i | 0 <= i < |own|
      ensures own[i] != [] && own[i][0] == k && LeadsDown(children[k], own[i][1..]) && all[i] == NodeAt(children[k], own[i][1..])
    {
      if i > 0 {
        assert own[i][1..] == paths[i - 1];
      }
    }
    forall i, j | 0 <= i < j < |own| ensures Earlier(own[i], own[j]) {
      if i > 0 {
        assert own[i][1..] == paths[i - 1] && own[j][1..] == paths[j - 1];
      } else {
        assert own[j][1..] == paths[j - 1];
      }
    }
  }

  lemma {:induction false} UnderAllInPreOrder(children: seq<Node>)
    ensures ListsInPreOrder(children, UnderAll(children), PathsUnderAll(children))
    decreases children
  {
    if children != [] {
      var front, k := Front(children), |children| - 1;
      UnderAllInPreOrder(front);
      UnderAllInPreOrder(Last(children).children);
      SubtreeInPreOrder(children, k, Under(Last(children)), PathsUnder(Last(children)));
      AppendInPreOrder(children, UnderAll(front), PathsUnderAll(front),
        [Last(children)] + Under(Last(children)), [[k]] + Deeper(k, PathsUnder(Last(children))));
    }
  }

  lemma {:induction false} AppendInPreOrder(children: seq<Node>, a: seq<Node>, p: seq<seq<nat>>, b: seq<Node>, q: seq<seq<nat>>)
    requires children != [] && ListsInPreOrder(Front(children), a, p) && ListsInPreOrder(children, b, q)
    requires forall path :: path in q ==> path != [] && path[0] == |children| - 1
    ensures ListsInPreOrder(children, a + b, p + q)
  {
    forall i, j | 0 <= i < |p| && 0 <= j < |q| ensures Earlier(p[i], q[j]) {
      assert q[j] in q;
    }
  }

  lemma {:induction false} EveryPathListed(children: seq<Node>, path: seq<nat>)
    requires path != [] && path[0] < |children| && LeadsDown(children[path[0]], path[1..])
    ensures path in PathsUnderAll(children)
    decreases |path|, |children|
  {
    var k, last := |children| - 1, Last(children);
    if path[0] < k {
      EveryPathListed(Front(children), path);
    } else if path[1..] == [] {
      assert path == [k];
    } else {
      EveryPathListed(last.children, path[1..]);
      var i :| 0 <= i < |PathsUnder(last)| && PathsUnder(last)[i] == path[1..];
      assert Deeper(k, PathsUnder(last))[i] == path;
    }
  }

  // The walk under a node visits every node below it, whatever its depth, exactly once and in
  // pre-order.
  lemma {:induction false} WalkIsPreOrder(n: Node)
    ensures var nodes, paths := Under(n), PathsUnder(n);
      && |paths| == |nodes|
      && (forall i :: 0 <= i < |paths| ==> paths[i] != [] && LeadsDown(n, paths[i]) && nodes[i] == NodeAt(n, paths[i]))
      && (forall i, j :: 0 <= i < j < |paths| ==> Earlier(paths[i], paths[j]))
      && (forall path :: path != [] && LeadsDown(n, path) ==> path in paths)
  {
    UnderAllInPreOrder(n.children);
    forall path | path != [] && LeadsDown(n, path) ensures path in PathsUnder(n) {
      EveryPathListed(n.children, path);
    }
  }

  // ---- pruning loses nothing

  lemma {:induction false} MeetingConcat(a: seq<Node>, b: seq<Node>, start: nat, end: nat)
    ensures MeetingOnly(a + b, start, end) == MeetingOnly(a, start, end) + MeetingOnly(b, start, end)
  {
    if b == [] {
      assert a + b == a;
    } else {
      assert Front(a + b) == a + Front(b);
      MeetingConcat(a, Front(b), start, end);
    }
  }

  lemma {:induction false} NoneMeet(nodes: seq<Node>, start: nat, end: nat)
    requires forall i :: 0 <= i < |nodes| ==> !Meets(nodes[i], start, end)
    ensures MeetingOnly(nodes, start, end) == []
  {
    if nodes != [] {
      NoneMeet(Front(nodes), start, end);
    }
  }

  lemma {:induction false} MeetingAscends(nodes: seq<Node>, start: nat, end: nat, lo: nat, hi: nat)
    requires StartsAscend(nodes, lo, hi)
    ensures StartsAscend(MeetingOnly(nodes, start, end), lo, hi)
    ensures forall m :: m in MeetingOnly(nodes, start, end) ==> m in nodes
  {
    if nodes != [] {
      MeetingAscends(Front(nodes), start, end, lo, hi);
      assert nodes == Front(nodes) + [Last(nodes)];
      var kept := MeetingOnly(Front(nodes), start, end);
      forall i | 0 <= i < |kept| ensures kept[i].startByte <= Last(nodes).startByte {
        assert kept[i] in Front(nodes);
      }
    }
  }

  function EndsAfterAndStartsBefore(start: nat, end: nat): Node -> bool {
    (n: Node) => n.endByte > start && n.startByte < end
  }

  lemma {:induction false} MeetingIsFilter(nodes: seq<Node>, start: nat, end: nat)
    ensures MeetingOnly(nodes, start, end) == Filter(EndsAfterAndStartsBefore(start, end), nodes)
  {
    if nodes != [] {
      MeetingIsFilter(Front(nodes), start, end);
    }
  }

  // Collecting over a range visits exactly the nodes of the full walk that meet the range.
  lemma {:induction false} RangeIsFiltered(n: Node, start: nat, end: nat)
    requires WellNested(n)
    ensures RangeUnder(n, start, end) == MeetingOnly(Under(n), start, end) == Filter(EndsAfterAndStartsBefore(start, end), Under(n))
    decreases n, 1
  {
    MeetingIsFilter(Under(n), start, end);
    if Meets(n, start, end) {
      RangeAllIsFiltered(n.children, n.startByte, n.endByte, start, end);
    } else {
      UnderAllAscends(n.children, n.startByte, n.endByte);
      NoneMeet(Under(n), start, end);
    }
  }

  lemma {:induction false} RangeAllIsFiltered(children: seq<Node>, lo: nat, hi: nat, start: nat, end: nat)
    requires lo <= hi && InSequence(children, lo, hi)
    ensures RangeUnderAll(children, start, end) == MeetingOnly(UnderAll(children), start, end)
    decreases children, 0
  {
    if children != [] {
      var n := Last(children);
      RangeAllIsFiltered(Front(children), lo, n.startByte, start, end);
      RangeIsFiltered(n, start, end);
      MeetingConcat(UnderAll(Front(children)), [n] + Under(n), start, end);
      MeetingConcat([n], Under(n), start, end);
      assert Front([n]) == [];
    }
  }

  // ... and its deltas decode to the places of just those nodes.
  lemma {:induction false} RangeTokensDecode(rope: Rope, root: Node, start: nat, end: nat)
    requires rope.Valid() && Fits(rope) && WellNested(root)
    ensures Decoded(Encoded(Placed(rope, RangeUnder(root, start, end)))) == Placed(rope, MeetingOnly(Under(root), start, end))
  {
    RangeIsFiltered(root, start, end);
    UnderAllAscends(root.children, root.startByte, root.endByte);
    MeetingAscends(Under(root), start, end, root.startByte, root.endByte);
    PlacedInOrder(rope, MeetingOnly(Under(root), start, end), root.startByte, root.endByte);
    DecodeEncoded(Placed(rope, MeetingOnly(Under(root), start, end)));
  }
}
