// Completion post-processing: sort, drop duplicates by looking back over a run of equal
// labels, sort by score. Scores are finite.
module CandidateDedup {
  import opened Seqs
  import opened Sorting
  import opened TextOrder

  datatype CandidateKind =
    | ClassName
    | Package
    | Snippet
    | Method(descriptor: string, definingClass: string)
    | Field(descriptor: string, definingClass: string)
    | StaticMethod(descriptor: string, definingClass: string)
    | StaticField(descriptor: string, definingClass: string)
    | LocalVariable(typeDescriptor: string)
    | Constructor(descriptor: string, definingClass: string)
    | StatementLabel
    | Keyword
    | Annotation
    | AnnotationElement
    | NameSuggestion
  {
    function Discriminant(): nat {
      match this
      case ClassName => 0
      case Package => 1
      case Snippet => 2
      case Method(_, _) => 3
      case Field(_, _) => 4
      case StaticMethod(_, _) => 5
      case StaticField(_, _) => 6
      case LocalVariable(_) => 7
      case Constructor(_, _) => 8
      case StatementLabel => 9
      case Keyword => 10
      case Annotation => 11
      case AnnotationElement => 12
      case NameSuggestion => 13
    }
  }

  datatype Candidate = Candidate(
    labelText: string,
    insertText: string,
    kind: CandidateKind,
    score: real,
    detail: Option<string>,
    source: string,
    requiredImport: Option<string>)

  // ---- which candidates are duplicates

  // The test the scan applies to two candidates with the same label.
  predicate SameThing(last: Candidate, c: Candidate) {
    last.kind.Discriminant() == c.kind.Discriminant() &&
    match (last.kind, c.kind)
    case (Method(d1, _), Method(d2, _)) => d1 == d2
    case (StaticMethod(d1, _), StaticMethod(d2, _)) => d1 == d2
    case (Constructor(d1, _), Constructor(d2, _)) => d1 == d2
    case (ClassName, ClassName) => last.detail == c.detail && last.requiredImport == c.requiredImport
    case _ => true
  }

  // What tells two candidates apart: overloads by descriptor, classes by detail and import.
  datatype Distinction = ByKind | ByDescriptor(text: string) | ByClass(detail: Option<string>, import_: Option<string>)

  function DistinctionOf(c: Candidate): Distinction {
    match c.kind
    case Method(d, _) => ByDescriptor(d)
    case StaticMethod(d, _) => ByDescriptor(d)
    case Constructor(d, _) => ByDescriptor(d)
    case ClassName => ByClass(c.detail, c.requiredImport)
    case _ => ByKind
  }

  function DupKey(c: Candidate): (string, nat, Distinction) {
    (c.labelText, c.kind.Discriminant(), DistinctionOf(c))
  }

  lemma {:induction false} SameThingMeansSameKey(a: Candidate, b: Candidate)
    ensures a.labelText == b.labelText && SameThing(a, b) <==> DupKey(a) == DupKey(b)
  {
  }

  predicate SameVariant(a: CandidateKind, b: CandidateKind) {
    && (a.ClassName? <==> b.ClassName?) && (a.Package? <==> b.Package?) && (a.Snippet? <==> b.Snippet?)
    && (a.Method? <==> b.Method?) && (a.Field? <==> b.Field?)
    && (a.StaticMethod? <==> b.StaticMethod?) && (a.StaticField? <==> b.StaticField?)
    && (a.LocalVariable? <==> b.LocalVariable?) && (a.Constructor? <==> b.Constructor?)
    && (a.StatementLabel? <==> b.StatementLabel?) && (a.Keyword? <==> b.Keyword?)
    && (a.Annotation? <==> b.Annotation?) && (a.AnnotationElement? <==> b.AnnotationElement?)
    && (a.NameSuggestion? <==> b.NameSuggestion?)
  }

  // Two candidates are duplicates when they have the same label and the same kind; methods, static
  // methods and constructors only with the same descriptor, classes only with the same detail and import.
  predicate Duplicates(a: Candidate, b: Candidate) {
    && a.labelText == b.labelText && SameVariant(a.kind, b.kind)
    && (a.kind.Method? || a.kind.StaticMethod? || a.kind.Constructor? ==> a.kind.descriptor == b.kind.descriptor)
    && (a.kind.ClassName? ==> a.detail == b.detail && a.requiredImport == b.requiredImport)
  }

  lemma {:induction false} DuplicatesShareKey(a: Candidate, b: Candidate)
    ensures DupKey(a) == DupKey(b) <==> Duplicates(a, b)
  {
  }

  // ---- the two orders

  // Within one label: alphabetically first source, no import before import, higher score.
  predicate Preferred(a: Candidate, b: Candidate) {
    if a.source != b.source then Le(a.source, b.source)
    else if a.requiredImport.Some? != b.requiredImport.Some? then a.requiredImport.None?
    else a.score >= b.score
  }

  predicate Precedes(a: Candidate, b: Candidate) {
    if a.labelText != b.labelText then Le(a.labelText, b.labelText) else Preferred(a, b)
  }

  predicate RanksAbove(a: Candidate, b: Candidate) {
    if a.score != b.score then a.score > b.score else Le(a.labelText, b.labelText)
  }

  lemma {:induction false} LeStep(a: string, b: string, c: string)
    ensures Le(a, b) || Le(b, a)
    ensures Le(a, b) && Le(b, c) ==> Le(a, c)
    ensures Le(a, b) && Le(b, a) ==> a == b
  {
    LeTotal(a, b);
    if Le(a, b) && Le(b, c) {
      LeTransitive(a, b, c);
    }
    if Le(a, b) && Le(b, a) {
      LeAntisymmetric(a, b);
    }
  }

  lemma {:induction false} PreferredIsOrder(a: Candidate, b: Candidate, c: Candidate)
    ensures Preferred(a, b) || Preferred(b, a)
    ensures Preferred(a, b) && Preferred(b, c) ==> Preferred(a, c)
  {
    LeStep(a.source, b.source, c.source);
    LeStep(b.source, c.source, a.source);
  }

  lemma {:induction false} PrecedesIsOrder()
    ensures TotalPreorder(Precedes)
  {
    forall a, b, c
      ensures Precedes(a, b) || Precedes(b, a)
      ensures Precedes(a, b) && Precedes(b, c) ==> Precedes(a, c)
    {
      LeStep(a.labelText, b.labelText, c.labelText);
      LeStep(b.labelText, c.labelText, a.labelText);
      PreferredIsOrder(a, b, c);
    }
  }

  lemma {:induction false} RanksAboveIsOrder()
    ensures TotalPreorder(RanksAbove)
  {
    forall a, b, c
      ensures RanksAbove(a, b) || RanksAbove(b, a)
      ensures RanksAbove(a, b) && RanksAbove(b, c) ==> RanksAbove(a, c)
    {
      LeStep(a.labelText, b.labelText, c.labelText);
    }
  }

  // ---- what deduplication promises

  // Nothing about c speaks for it over k: not its source, nor, with one source, its import, nor,
  // with both needing one or neither, its score.
  predicate NoWorse(k: Candidate, c: Candidate) {
    && Le(k.source, c.source)
    && (k.source == c.source && k.requiredImport.Some? ==> c.requiredImport.Some?)
    && (k.source == c.source && (k.requiredImport.Some? <==> c.requiredImport.Some?) ==> k.score >= c.score)
  }

  lemma {:induction false} PreferredIsNoWorse(k: Candidate, c: Candidate)
    ensures Preferred(k, c) <==> NoWorse(k, c)
  {
    LeReflexive(k.source);
  }

  // One survivor per class of duplicates, no worse than any of them, and nothing that was not offered.
  ghost predicate BestOfEach(offered: seq<Candidate>, kept: seq<Candidate>) {
    && (forall i, j :: 0 <= i < j < |kept| ==> !Duplicates(kept[i], kept[j]))
    && (forall c :: c in offered ==> exists k :: k in kept && Duplicates(k, c) && NoWorse(k, c))
    && (forall k :: k in kept ==> k in offered)
  }

  // By label, and within a label no candidate before a better one.
  ghost predicate ByLabel(s: seq<Candidate>) {
    forall i, j :: 0 <= i < j < |s| ==>
      Le(s[i].labelText, s[j].labelText) && (s[i].labelText == s[j].labelText ==> NoWorse(s[i], s[j]))
  }

  ghost predicate ByScore(s: seq<Candidate>) {
    forall i, j :: 0 <= i < j < |s| ==>
      s[i].score >= s[j].score && (s[i].score == s[j].score ==> Le(s[i].labelText, s[j].labelText))
  }

  lemma {:induction false} PrecedesIsByLabel(s: seq<Candidate>)
    requires Sorted(Precedes, s)
    ensures ByLabel(s)
  {
    forall i, j | 0 <= i < j < |s|
      ensures Le(s[i].labelText, s[j].labelText) && (s[i].labelText == s[j].labelText ==> NoWorse(s[i], s[j]))
    {
      assert Precedes(s[i], s[j]);
      LeReflexive(s[i].labelText);
      PreferredIsNoWorse(s[i], s[j]);
    }
  }

  lemma {:induction false} RankedIsByScore(s: seq<Candidate>)
    requires Sorted(RanksAbove, s)
    ensures ByScore(s)
  {
    forall i, j | 0 <= i < j < |s|
      ensures s[i].score >= s[j].score && (s[i].score == s[j].score ==> Le(s[i].labelText, s[j].labelText))
    {
      assert RanksAbove(s[i], s[j]);
    }
  }

  lemma {:induction false} KeptSorted(s: seq<Candidate>)
    requires Sorted(Precedes, s)
    ensures Sorted(Precedes, KeepFirst(DupKey, s))
  {
    KeepFirstPositions(DupKey, s);
  }

  lemma {:induction false} KeptWithKey(s: seq<Candidate>, i: nat) returns (p: nat)
    requires i < |s|
    ensures p <= i && DupKey(s[p]) == DupKey(s[i]) && s[p] in KeepFirst(DupKey, s)
  {
    hide DupKey;
    p := i;
    while !FirstOfKey(DupKey, s, p)
      invariant p <= i && DupKey(s[p]) == DupKey(s[i])
      decreases p
    {
      var q :| 0 <= q < p && DupKey(s[q]) == DupKey(s[p]);
      p := q;
    }
    KeepFirstPositions(DupKey, s);
    var n :| 0 <= n < |Positions(DupKey, s)| && Positions(DupKey, s)[n] == p;
    assert KeepFirst(DupKey, s)[n] == s[p];
  }

  // In a sorted list the first candidate with a key is preferred to all others with that key.
  lemma {:induction false} FirstIsPreferred(s: seq<Candidate>, i: nat)
    requires Sorted(Precedes, s) && i < |s|
    ensures exists k :: k in KeepFirst(DupKey, s) && DupKey(k) == DupKey(s[i]) && Preferred(k, s[i])
  {
    var p := KeptWithKey(s, i);
    PreferredIsOrder(s[p], s[p], s[p]);
    if p < i {
      assert Precedes(s[p], s[i]);
    }
    assert Preferred(s[p], s[i]);
  }

  lemma {:induction false} KeptIsBest(offered: seq<Candidate>, s: seq<Candidate>)
    requires Sorted(Precedes, s) && multiset(s) == multiset(offered)
    ensures BestOfEach(offered, KeepFirst(DupKey, s))
  {
    hide DupKey, Duplicates, Preferred, NoWorse;
    KeepFirstKeys(DupKey, s);
    KeepFirstMembers(DupKey, s);
    forall a, b ensures DupKey(a) == DupKey(b) <==> Duplicates(a, b) {
      DuplicatesShareKey(a, b);
    }
    forall c | c in offered ensures exists k :: k in KeepFirst(DupKey, s) && Duplicates(k, c) && NoWorse(k, c) {
      assert c in multiset(s);
      var i :| 0 <= i < |s| && s[i] == c;
      FirstIsPreferred(s, i);
      var k :| k in KeepFirst(DupKey, s) && DupKey(k) == DupKey(c) && Preferred(k, c);
      PreferredIsNoWorse(k, c);
    }
    forall k | k in KeepFirst(DupKey, s) ensures k in offered {
      assert k in multiset(offered);
    }
  }

  // ---- the scan

  // Everything with the label of c sits in the last run of equal labels.
  lemma {:induction false} RunIsEnough(kept: seq<Candidate>, c: Candidate, j: nat)
    requires Sorted(Precedes, kept + [c]) && 0 < j <= |kept| && kept[j - 1].labelText != c.labelText
    ensures forall k :: 0 <= k < j ==> kept[k].labelText != c.labelText
  {
    var all := kept + [c];
    assert Precedes(all[j - 1], all[|kept|]);
    forall k | 0 <= k < j - 1 ensures kept[k].labelText != c.labelText {
      assert Precedes(all[k], all[j - 1]);
      if kept[k].labelText == c.labelText {
        LeAntisymmetric(c.labelText, kept[j - 1].labelText);
      }
    }
  }

  method IsDuplicate(result: seq<Candidate>, c: Candidate) returns (duplicate: bool)
    requires Sorted(Precedes, result + [c])
    ensures duplicate <==> exists k :: k in result && DupKey(k) == DupKey(c)
    ensures duplicate <==> exists k :: k in result && Duplicates(k, c)
  {
    forall k ensures DupKey(k) == DupKey(c) <==> Duplicates(k, c) {
      DuplicatesShareKey(k, c);
    }
    var j := |result|;
    while j > 0 && result[j - 1].labelText == c.labelText
      invariant 0 <= j <= |result|
      invariant forall k :: j <= k < |result| ==> DupKey(result[k]) != DupKey(c)
    {
      SameThingMeansSameKey(result[j - 1], c);
      if SameThing(result[j - 1], c) {
        return true;
      }
      j := j - 1;
    }
    if j > 0 {
      RunIsEnough(result, c, j);
    }
    duplicate := false;
  }

  lemma {:induction false} KeptThenNext(s: seq<Candidate>, i: nat)
    requires Sorted(Precedes, s) && i < |s|
    ensures Sorted(Precedes, KeepFirst(DupKey, s[..i]) + [s[i]])
    ensures KeepFirst(DupKey, s[..i + 1]) ==
      if exists k :: k in KeepFirst(DupKey, s[..i]) && DupKey(k) == DupKey(s[i]) then KeepFirst(DupKey, s[..i])
      else KeepFirst(DupKey, s[..i]) + [s[i]]
  {
    var kept := KeepFirst(DupKey, s[..i]);
    KeptSorted(s[..i]);
    KeepFirstMembers(DupKey, s[..i]);
    forall k | 0 <= k < |kept| ensures Precedes(kept[k], s[i]) {
      assert kept[k] in s[..i];
    }
    assert Front(s[..i + 1]) == s[..i] && Last(s[..i + 1]) == s[i];
    KeepFirstKeys(DupKey, s[..i]);
    KeysMembers(DupKey, kept);
  }

  method SortBefore(cs: seq<Candidate>) returns (s: seq<Candidate>)
    ensures Sorted(Precedes, s) && multiset(s) == multiset(cs)
  {
    PrecedesIsOrder();
    SortIsSorted(Precedes, cs);
    s := Sort(Precedes, cs);
  }

  method Dedup(cs: seq<Candidate>) returns (result: seq<Candidate>)
    ensures BestOfEach(cs, result)
    ensures Sorted(Precedes, result) && ByLabel(result)
  {
    var s := SortBefore(cs);
    result := [];
    for i := 0 to |s|
      invariant result == KeepFirst(DupKey, s[..i])
    {
      KeptThenNext(s, i);
      var duplicate := IsDuplicate(result, s[i]);
      if !duplicate {
        result := result + [s[i]];
      }
    }
    assert s[..|s|] == s;
    KeptIsBest(cs, s);
    KeptSorted(s);
    PrecedesIsByLabel(result);
  }

  // ---- the whole pass

  // `rescored` is each candidate's score after the scorer's points were added, rounding included.
  function Scored(cs: seq<Candidate>, rescored: Candidate -> real): (r: seq<Candidate>)
    ensures |r| == |cs| && forall i :: 0 <= i < |cs| ==> r[i] == cs[i].(score := rescored(cs[i]))
  {
    if cs == [] then [] else Scored(Front(cs), rescored) + [Last(cs).(score := rescored(Last(cs)))]
  }

  lemma {:induction false} BestOfEachPermuted(offered: seq<Candidate>, kept: seq<Candidate>, sorted: seq<Candidate>)
    requires BestOfEach(offered, kept) && multiset(sorted) == multiset(kept)
    ensures BestOfEach(offered, sorted)
  {
    hide DupKey, Duplicates, NoWorse;
    forall k ensures k in sorted <==> k in kept {
      assert k in multiset(sorted) <==> k in multiset(kept);
    }
    forall a, b ensures DupKey(a) == DupKey(b) <==> Duplicates(a, b) {
      DuplicatesShareKey(a, b);
    }
    PermutedDistinct(DupKey, kept, sorted);
  }

  method Process(candidates: seq<Candidate>, rescored: Candidate -> real) returns (result: seq<Candidate>)
    ensures BestOfEach(Scored(candidates, rescored), result)
    ensures Sorted(RanksAbove, result) && ByScore(result)
  {
    var scored: seq<Candidate> := [];
    for i := 0 to |candidates|
      invariant scored == Scored(candidates[..i], rescored)
    {
      var c := candidates[i];
      assert Front(candidates[..i + 1]) == candidates[..i];
      scored := scored + [c.(score := rescored(c))];
    }
    assert candidates[..|candidates|] == candidates;
    var kept := Dedup(scored);
    RanksAboveIsOrder();
    SortIsSorted(RanksAbove, kept);
    result := Sort(RanksAbove, kept);
    BestOfEachPermuted(scored, kept, result);
    RankedIsByScore(result);
  }
}
