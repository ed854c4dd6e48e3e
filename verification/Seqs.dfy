// Vocabulary shared by every component: options, lists filled from the front by
// loops (hence defined from the back), and the keep-the-first filter behind every
// `if seen.insert(key) { out.push(item) }` of the server.
module Seqs {

  datatype Option<+T> = None | Some(value: T)

  ghost predicate NoDup<T>(s: seq<T>) {
    forall i, j :: 0 <= i < j < |s| ==> s[i] != s[j]
  }

  ghost predicate DistinctBy<T, K>(key: T -> K, s: seq<T>) {
    forall i, j :: 0 <= i < j < |s| ==> key(s[i]) != key(s[j])
  }

  function Last<T>(s: seq<T>): T
    requires s != []
  {
    s[|s| - 1]
  }

  function Front<T>(s: seq<T>): seq<T>
    requires s != []
  {
    s[..|s| - 1]
  }

  ghost function Map<T, U>(f: T -> U, s: seq<T>): (r: seq<U>)
    ensures |r| == |s|
    ensures forall i :: 0 <= i < |s| ==> r[i] == f(s[i])
  {
    if s == [] then [] else Map(f, Front(s)) + [f(Last(s))]
  }

  ghost function Filter<T>(p: T -> bool, s: seq<T>): seq<T> {
    if s == [] then []
    else Filter(p, Front(s)) + (if p(Last(s)) then [Last(s)] else [])
  }

  ghost function Keys<T, K>(key: T -> K, s: seq<T>): set<K> {
    if s == [] then {} else Keys(key, Front(s)) + {key(Last(s))}
  }

  // An item survives exactly when no earlier item has its key.
  ghost function KeepFirst<T, K>(key: T -> K, s: seq<T>): seq<T> {
    if s == [] then []
    else if key(Last(s)) in Keys(key, Front(s)) then KeepFirst(key, Front(s))
    else KeepFirst(key, Front(s)) + [Last(s)]
  }

  lemma {:induction false} KeysMembers<T, K>(key: T -> K, s: seq<T>)
    ensures forall x :: x in s ==> key(x) in Keys(key, s)
    ensures forall k :: k in Keys(key, s) ==> exists x :: x in s && key(x) == k
  {
    if s != [] {
      KeysMembers(key, Front(s));
      assert s == Front(s) + [Last(s)];
    }
  }

  lemma {:induction false} KeepFirstMembers<T, K>(key: T -> K, s: seq<T>)
    ensures forall x :: x in KeepFirst(key, s) ==> x in s
  {
    if s != [] {
      KeepFirstMembers(key, Front(s));
      assert s == Front(s) + [Last(s)];
    }
  }

  // The survivors carry every key of the input, each exactly once.
  lemma {:induction false} KeepFirstKeys<T, K>(key: T -> K, s: seq<T>)
    ensures Keys(key, KeepFirst(key, s)) == Keys(key, s)
    ensures forall i, j :: 0 <= i < j < |KeepFirst(key, s)| ==> key(KeepFirst(key, s)[i]) != key(KeepFirst(key, s)[j])
  {
    if s != [] {
      KeepFirstKeys(key, Front(s));
      var r := KeepFirst(key, Front(s));
      if key(Last(s)) !in Keys(key, Front(s)) {
        assert Front(r + [Last(s)]) == r;
        KeysMembers(key, r);
        forall i | 0 <= i < |r| ensures key(r[i]) != key(Last(s)) {
          assert r[i] in r;
        }
      }
    }
  }

  // What `items` adds to the survivors of `before`.
  ghost function Unseen<T, K>(key: T -> K, before: seq<T>, items: seq<T>): seq<T> {
    if items == [] then []
    else Unseen(key, before, Front(items)) + (if key(Last(items)) in Keys(key, before + Front(items)) then [] else [Last(items)])
  }

  lemma {:induction false} KeepFirstConcat<T, K>(key: T -> K, before: seq<T>, items: seq<T>)
    ensures KeepFirst(key, before + items) == KeepFirst(key, before) + Unseen(key, before, items)
  {
    if items == [] {
      assert before + items == before;
    } else {
      assert Front(before + items) == before + Front(items) && Last(before + items) == Last(items);
      KeepFirstConcat(key, before, Front(items));
    }
  }

  ghost predicate FirstOfKey<T, K>(key: T -> K, s: seq<T>, i: nat)
    requires i < |s|
  {
    forall j :: 0 <= j < i ==> key(s[j]) != key(s[i])
  }

  lemma {:induction false} FirstOfKeyAtEnd<T, K>(key: T -> K, s: seq<T>)
    requires s != []
    ensures FirstOfKey(key, s, |s| - 1) <==> key(Last(s)) !in Keys(key, Front(s))
    ensures forall i :: 0 <= i < |s| - 1 ==> FirstOfKey(key, s, i) == FirstOfKey(key, Front(s), i)
  {
    var front, x := Front(s), Last(s);
    KeysMembers(key, front);
    if key(x) in Keys(key, front) {
      var y :| y in front && key(y) == key(x);
      var j :| 0 <= j < |front| && front[j] == y;
      assert s[j] == y;
    } else {
      forall j | 0 <= j < |front| ensures key(s[j]) != key(x) {
        assert front[j] in front;
      }
    }
    forall i | 0 <= i < |front| ensures FirstOfKey(key, s, i) == FirstOfKey(key, front, i) {
      assert forall j :: 0 <= j <= i ==> s[j] == front[j];
    }
  }

  ghost function Positions<T, K>(key: T -> K, s: seq<T>): seq<nat> {
    if s == [] then []
    else Positions(key, Front(s)) + (if key(Last(s)) in Keys(key, Front(s)) then [] else [|s| - 1])
  }

  lemma {:induction false} PositionsIncrease<T, K>(key: T -> K, s: seq<T>)
    ensures forall k :: 0 <= k < |Positions(key, s)| ==> Positions(key, s)[k] < |s|
    ensures forall k, l :: 0 <= k < l < |Positions(key, s)| ==> Positions(key, s)[k] < Positions(key, s)[l]
  {
    if s != [] {
      PositionsIncrease(key, Front(s));
    }
  }

  lemma {:induction false} PositionsMembers<T, K>(key: T -> K, s: seq<T>, i: nat)
    requires i < |s|
    ensures i in Positions(key, s) <==> FirstOfKey(key, s, i)
  {
    FirstOfKeyAtEnd(key, s);
    if i < |s| - 1 {
      PositionsMembers(key, Front(s), i);
    } else {
      PositionsIncrease(key, Front(s));
    }
  }

  lemma {:induction false} PositionsItems<T, K>(key: T -> K, s: seq<T>)
    ensures |Positions(key, s)| == |KeepFirst(key, s)|
    ensures forall k :: 0 <= k < |Positions(key, s)| ==>
      Positions(key, s)[k] < |s| && KeepFirst(key, s)[k] == s[Positions(key, s)[k]]
  {
    PositionsIncrease(key, s);
    if s != [] {
      PositionsIncrease(key, Front(s));
      PositionsItems(key, Front(s));
    }
  }

  // The survivors sit, in order, at exactly the positions no earlier position shares a key with.
  lemma {:induction false} KeepFirstPositions<T, K>(key: T -> K, s: seq<T>)
    ensures var at := Positions(key, s);
      && |at| == |KeepFirst(key, s)|
      && (forall k, l :: 0 <= k < l < |at| ==> at[k] < at[l])
      && (forall i: nat :: i in at <==> i < |s| && FirstOfKey(key, s, i))
      && (forall k :: 0 <= k < |at| ==> at[k] < |s| && KeepFirst(key, s)[k] == s[at[k]])
  {
    PositionsIncrease(key, s);
    PositionsItems(key, s);
    forall i: nat | i < |s| ensures i in Positions(key, s) <==> FirstOfKey(key, s, i) {
      PositionsMembers(key, s, i);
    }
  }

  lemma {:induction false} MultisetOfDistinct<T>(s: seq<T>, members: set<T>)
    requires NoDup(s) && forall x :: x in members <==> x in s
    ensures multiset(s) == multiset(members)
  {
    if s == [] {
      assert members == {};
    } else {
      var x := Last(s);
      assert s == Front(s) + [x] && x !in Front(s);
      MultisetOfDistinct(Front(s), members - {x});
      assert multiset(members) == multiset(members - {x}) + multiset{x};
    }
  }

  lemma {:induction false} CountedTwice<T>(s: seq<T>, i: nat, j: nat)
    requires i < j < |s| && s[i] == s[j]
    ensures multiset(s)[s[i]] >= 2
  {
    assert s == s[..j] + [s[j]] + s[j + 1..];
    assert s[i] in s[..j];
    assert multiset(s) == multiset(s[..j]) + multiset{s[j]} + multiset(s[j + 1..]);
  }

  lemma {:induction false} CountedOnce<T, K>(key: T -> K, s: seq<T>, x: T)
    requires DistinctBy(key, s)
    ensures multiset(s)[x] <= 1
  {
    if s != [] {
      CountedOnce(key, Front(s), x);
      assert s == Front(s) + [Last(s)];
      if x == Last(s) {
        assert x !in Front(s);
        assert multiset(Front(s))[x] == 0;
      }
    }
  }

  // Distinct keys stay distinct when the items are permuted.
  lemma {:induction false} PermutedDistinct<T, K>(key: T -> K, a: seq<T>, b: seq<T>)
    requires DistinctBy(key, a) && multiset(a) == multiset(b)
    ensures DistinctBy(key, b)
  {
    forall i, j | 0 <= i < j < |b| ensures key(b[i]) != key(b[j]) {
      if key(b[i]) == key(b[j]) {
        assert b[i] in multiset(a) && b[j] in multiset(a);
        SameKeySameItem(key, a, b[i], b[j]);
        CountedTwice(b, i, j);
        CountedOnce(key, a, b[i]);
        assert false;
      }
    }
  }

  lemma {:induction false} SameKeySameItem<T, K>(key: T -> K, s: seq<T>, x: T, y: T)
    requires DistinctBy(key, s) && x in s && y in s && key(x) == key(y)
    ensures x == y
  {
  }

  lemma {:induction false} MapSnoc<T, U>(f: T -> U, s: seq<T>, x: T)
    ensures Map(f, s + [x]) == Map(f, s) + [f(x)]
  {
    assert Front(s + [x]) == s;
  }

  lemma {:induction false} FilterSnoc<T>(p: T -> bool, s: seq<T>, x: T)
    ensures Filter(p, s + [x]) == Filter(p, s) + (if p(x) then [x] else [])
  {
    assert Front(s + [x]) == s;
  }

  lemma {:induction false} FilterConcat<T>(p: T -> bool, a: seq<T>, b: seq<T>)
    ensures Filter(p, a + b) == Filter(p, a) + Filter(p, b)
  {
    if b == [] {
      assert a + b == a;
    } else {
      assert Front(a + b) == a + Front(b);
      FilterConcat(p, a, Front(b));
    }
  }

  lemma {:induction false} FilterMembers<T>(p: T -> bool, s: seq<T>)
    ensures forall x :: x in Filter(p, s) <==> x in s && p(x)
    ensures NoDup(s) ==> NoDup(Filter(p, s))
  {
    if s != [] {
      assert s == Front(s) + [Last(s)];
      FilterMembers(p, Front(s));
      assert NoDup(s) ==> Last(s) !in Front(s);
    }
  }

  lemma {:induction false} FilterAlike<T>(p: T -> bool, q: T -> bool, s: seq<T>)
    requires forall x :: x in s ==> p(x) == q(x)
    ensures Filter(p, s) == Filter(q, s)
  {
    if s != [] {
      assert s == Front(s) + [Last(s)];
      FilterAlike(p, q, Front(s));
    }
  }

  lemma {:induction false} FilterTwice<T>(p: T -> bool, q: T -> bool, r: T -> bool, s: seq<T>)
    requires forall x :: x in s ==> r(x) == (p(x) && q(x))
    ensures Filter(p, Filter(q, s)) == Filter(r, s)
  {
    if s != [] {
      assert s == Front(s) + [Last(s)];
      FilterTwice(p, q, r, Front(s));
      FilterSnoc(p, Filter(q, Front(s)), Last(s));
      assert !q(Last(s)) ==> Filter(q, s) == Filter(q, Front(s));
    }
  }

  lemma {:induction false} FilterAll<T>(p: T -> bool, s: seq<T>)
    requires forall x :: x in s ==> p(x)
    ensures Filter(p, s) == s
  {
    if s != [] {
      assert s == Front(s) + [Last(s)];
      FilterAll(p, Front(s));
    }
  }

  // Keeping first occurrences commutes with renaming items.
  lemma {:induction false} KeepFirstOfMap<T, U, K>(f: T -> U, key: U -> K, k: T -> K, s: seq<T>)
    requires forall x :: x in s ==> k(x) == key(f(x))
    ensures Keys(key, Map(f, s)) == Keys(k, s)
    ensures KeepFirst(key, Map(f, s)) == Map(f, KeepFirst(k, s))
  {
    if s != [] {
      var t, x := Front(s), Last(s);
      assert Front(Map(f, s)) == Map(f, t) && Last(Map(f, s)) == f(x);
      KeepFirstOfMap(f, key, k, t);
      assert k(x) == key(f(x));
      MapSnoc(f, KeepFirst(k, t), x);
    }
  }

  lemma {:induction false} KeepFirstSnoc<T, K>(key: T -> K, s: seq<T>, x: T)
    ensures Keys(key, s + [x]) == Keys(key, s) + {key(x)}
    ensures KeepFirst(key, s + [x]) == if key(x) in Keys(key, s) then KeepFirst(key, s) else KeepFirst(key, s) + [x]
  {
    assert Front(s + [x]) == s;
  }

  // ... and with selecting items by a property of their key.
  lemma {:induction false} KeepFirstOfFilter<T, K(!new)>(p: T -> bool, key: T -> K, q: K -> bool, s: seq<T>)
    requires forall x :: x in s ==> p(x) == q(key(x))
    ensures forall k :: k in Keys(key, Filter(p, s)) <==> k in Keys(key, s) && q(k)
    ensures KeepFirst(key, Filter(p, s)) == Filter(p, KeepFirst(key, s))
  {
    if s != [] {
      assert s == Front(s) + [Last(s)];
      assert Last(s) in s;
      KeepFirstOfFilter(p, key, q, Front(s));
      FilterNext(p, key, q, Front(s), Last(s));
    }
  }

  lemma {:induction false} FilterNext<T, K(!new)>(p: T -> bool, key: T -> K, q: K -> bool, s: seq<T>, x: T)
    requires p(x) == q(key(x))
    requires forall k :: k in Keys(key, Filter(p, s)) <==> k in Keys(key, s) && q(k)
    requires KeepFirst(key, Filter(p, s)) == Filter(p, KeepFirst(key, s))
    ensures forall k :: k in Keys(key, Filter(p, s + [x])) <==> k in Keys(key, s + [x]) && q(k)
    ensures KeepFirst(key, Filter(p, s + [x])) == Filter(p, KeepFirst(key, s + [x]))
  {
    hide Filter, KeepFirst, Keys;
    KeepFirstSnoc(key, s, x);
    FilterSnoc(p, s, x);
    FilterSnoc(p, KeepFirst(key, s), x);
    if p(x) {
      KeepFirstSnoc(key, Filter(p, s), x);
    } else {
      assert Filter(p, s + [x]) == Filter(p, s);
    }
  }

  // One class's members appended to what earlier classes contributed: `kept` and `seen`
  // stand for all items so far, `before` names them.
  method AppendUnseen<T, K(==)>(key: T -> K, items: seq<T>, kept: seq<T>, seen: set<K>, ghost before: seq<T>)
    returns (kept': seq<T>, seen': set<K>)
    requires kept == KeepFirst(key, before) && seen == Keys(key, before)
    ensures kept' == KeepFirst(key, before + items) && seen' == Keys(key, before + items)
  {
    kept', seen' := kept, seen;
    assert before + items[..0] == before;
    for i := 0 to |items|
      invariant kept' == KeepFirst(key, before + items[..i]) && seen' == Keys(key, before + items[..i])
    {
      assert Front(before + items[..i + 1]) == before + items[..i] && Last(before + items[..i + 1]) == items[i];
      if key(items[i]) !in seen' {
        kept', seen' := kept' + [items[i]], seen' + {key(items[i])};
      } else {
        assert seen' == seen' + {key(items[i])};
      }
    }
    assert items[..|items|] == items;
  }

  // Retaining the unseen items of one class.
  method RetainUnseen<T, K(==)>(key: T -> K, items: seq<T>, seen: set<K>, ghost before: seq<T>)
    returns (kept: seq<T>, seen': set<K>)
    requires seen == Keys(key, before)
    ensures kept == Unseen(key, before, items) && seen' == Keys(key, before + items)
  {
    kept, seen' := [], seen;
    assert before + items[..0] == before;
    for i := 0 to |items|
      invariant kept == Unseen(key, before, items[..i]) && seen' == Keys(key, before + items[..i])
    {
      assert Front(items[..i + 1]) == items[..i] && Last(items[..i + 1]) == items[i];
      assert Front(before + items[..i + 1]) == before + items[..i] && Last(before + items[..i + 1]) == items[i];
      if key(items[i]) !in seen' {
        kept, seen' := kept + [items[i]], seen' + {key(items[i])};
      } else {
        assert seen' == seen' + {key(items[i])};
      }
    }
    assert items[..|items|] == items;
  }
}
