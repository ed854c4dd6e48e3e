// Sorting by a total preorder. The library sorts the server calls are unstable: nothing here
// promises more than a sorted permutation.
module Sorting {
  ghost predicate TotalPreorder<T(!new)>(le: (T, T) -> bool) {
    && (forall a, b :: le(a, b) || le(b, a))
    && (forall a, b, c :: le(a, b) && le(b, c) ==> le(a, c))
  }

  ghost predicate Sorted<T>(le: (T, T) -> bool, s: seq<T>) {
    forall i, j :: 0 <= i < j < |s| ==> le(s[i], s[j])
  }

  function Insert<T>(le: (T, T) -> bool, x: T, s: seq<T>): seq<T> {
    if s == [] then [x]
    else if le(x, s[0]) then [x] + s
    else [s[0]] + Insert(le, x, s[1..])
  }

  function Sort<T>(le: (T, T) -> bool, s: seq<T>): seq<T> {
    if s == [] then [] else Insert(le, s[0], Sort(le, s[1..]))
  }

  lemma {:induction false} InsertAfter<T>(le: (T, T) -> bool, k: T, x: T, s: seq<T>)
    requires le(k, x) && forall j :: 0 <= j < |s| ==> le(k, s[j])
    ensures forall j :: 0 <= j < |Insert(le, x, s)| ==> le(k, Insert(le, x, s)[j])
  {
    if s != [] && !le(x, s[0]) {
      InsertAfter(le, k, x, s[1..]);
    }
  }

  lemma {:induction false} InsertIsSorted<T(!new)>(le: (T, T) -> bool, x: T, s: seq<T>)
    requires TotalPreorder(le) && Sorted(le, s)
    ensures multiset(Insert(le, x, s)) == multiset(s) + multiset{x}
    ensures Sorted(le, Insert(le, x, s))
  {
    if s == [] {
    } else if le(x, s[0]) {
      forall j | 0 <= j < |s| ensures le(x, s[j]) {
        if j > 0 {
          assert le(x, s[0]) && le(s[0], s[j]);
        }
      }
    } else {
      assert le(s[0], x);
      InsertIsSorted(le, x, s[1..]);
      InsertAfter(le, s[0], x, s[1..]);
      assert s == [s[0]] + s[1..];
    }
  }

  lemma {:induction false} SortIsSorted<T(!new)>(le: (T, T) -> bool, s: seq<T>)
    requires TotalPreorder(le)
    ensures multiset(Sort(le, s)) == multiset(s)
    ensures Sorted(le, Sort(le, s))
  {
    if s != [] {
      SortIsSorted(le, s[1..]);
      InsertIsSorted(le, s[0], Sort(le, s[1..]));
      assert s == [s[0]] + s[1..];
    }
  }
}
