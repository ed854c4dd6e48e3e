// Lexicographic order on texts and sorting by it. The library sort the server calls is
// only ever used where its result is determined by its specification.
module TextOrder {
  import opened Seqs
  import opened Sorting

  predicate Le(a: string, b: string) {
    a == "" || (b != "" && (a[0] < b[0] || (a[0] == b[0] && Le(a[1..], b[1..]))))
  }

  lemma {:induction false} LeReflexive(a: string)
    ensures Le(a, a)
  {
    if a != "" {
      LeReflexive(a[1..]);
    }
  }

  lemma {:induction false} LeTotal(a: string, b: string)
    ensures Le(a, b) || Le(b, a)
  {
    if a != "" && b != "" && a[0] == b[0] {
      LeTotal(a[1..], b[1..]);
    }
  }

  lemma {:induction false} LeAntisymmetric(a: string, b: string)
    requires Le(a, b) && Le(b, a)
    ensures a == b
  {
    if a != "" {
      LeAntisymmetric(a[1..], b[1..]);
      assert a == [a[0]] + a[1..] && b == [b[0]] + b[1..];
    }
  }

  lemma {:induction false} LeTransitive(a: string, b: string, c: string)
    requires Le(a, b) && Le(b, c)
    ensures Le(a, c)
  {
    if a != "" && a[0] == b[0] == c[0] {
      LeTransitive(a[1..], b[1..], c[1..]);
    }
  }

  ghost predicate DiffersAt(a: string, b: string, i: nat) {
    i < |a| && i < |b| && a[..i] == b[..i] && a[i] < b[i]
  }

  // Characters compare by code point: a prefix comes first, else the first difference decides.
  lemma {:induction false} LeExactly(a: string, b: string)
    ensures Le(a, b) <==> a <= b || exists i: nat :: DiffersAt(a, b, i)
  {
    if a != "" && b != "" {
      var x, y := a[1..], b[1..];
      LeExactly(x, y);
      assert a == [a[0]] + x && b == [b[0]] + y;
      if a[0] == b[0] {
        forall i: nat ensures DiffersAt(x, y, i) <==> DiffersAt(a, b, i + 1) {
          assert i < |x| && i < |y| ==> a[..i + 1] == [a[0]] + x[..i] && b[..i + 1] == [b[0]] + y[..i];
          assert i < |x| && i < |y| && a[..i + 1] == b[..i + 1] ==> x[..i] == a[..i + 1][1..] && y[..i] == b[..i + 1][1..];
        }
        assert !DiffersAt(a, b, 0);
        forall i: nat | DiffersAt(a, b, i) ensures exists k: nat :: DiffersAt(x, y, k) {
          assert DiffersAt(x, y, i - 1);
        }
      } else if a[0] < b[0] {
        assert DiffersAt(a, b, 0);
      } else {
        forall i: nat | i > 0 ensures !DiffersAt(a, b, i) {
          assert i < |a| && i < |b| ==> a[..i][0] != b[..i][0];
        }
      }
    }
  }

  ghost predicate SortedBy<T>(key: T -> string, s: seq<T>) {
    forall i, j :: 0 <= i < j < |s| ==> Le(key(s[i]), key(s[j]))
  }

  function SortBy<T>(key: T -> string, s: seq<T>): seq<T> {
    Sort((a, b) => Le(key(a), key(b)), s)
  }

  lemma {:induction false} SortBySorted<T(!new)>(key: T -> string, s: seq<T>)
    ensures multiset(SortBy(key, s)) == multiset(s)
    ensures SortedBy(key, SortBy(key, s))
  {
    var le := (a: T, b: T) => Le(key(a), key(b));
    forall a: T, b: T ensures le(a, b) || le(b, a) {
      LeTotal(key(a), key(b));
    }
    forall a: T, b: T, c: T | le(a, b) && le(b, c) ensures le(a, c) {
      LeTransitive(key(a), key(b), key(c));
    }
    SortIsSorted(le, s);
  }

  lemma {:induction false} FirstIsLeast<T>(key: T -> string, s: seq<T>, x: T)
    requires SortedBy(key, s) && x in multiset(s)
    ensures s != [] && Le(key(s[0]), key(x))
  {
    assert x in s;
    var i :| 0 <= i < |s| && s[i] == x;
    LeReflexive(key(x));
  }

  lemma {:induction false} SameFirst<T>(key: T -> string, a: seq<T>, b: seq<T>)
    requires SortedBy(key, a) && SortedBy(key, b) && DistinctBy(key, a)
    requires multiset(a) == multiset(b) && a != []
    ensures b != [] && a[0] == b[0]
  {
    assert a[0] in multiset(a);
    FirstIsLeast(key, b, a[0]);
    assert b[0] in multiset(b);
    FirstIsLeast(key, a, b[0]);
    LeAntisymmetric(key(a[0]), key(b[0]));
    assert b[0] in a;
    var i :| 0 <= i < |a| && a[i] == b[0];
    assert i == 0;
  }

  lemma {:induction false} RestMultiset<T>(s: seq<T>)
    requires s != []
    ensures multiset(s[1..]) == multiset(s) - multiset{s[0]}
  {
    assert s == [s[0]] + s[1..];
  }

  // Sorting by a key that tells the items apart leaves no freedom.
  lemma {:induction false} SortedUnique<T>(key: T -> string, a: seq<T>, b: seq<T>)
    requires SortedBy(key, a) && SortedBy(key, b) && DistinctBy(key, a)
    requires multiset(a) == multiset(b)
    ensures a == b
  {
    if a == [] {
      assert |multiset(b)| == 0;
    } else {
      SameFirst(key, a, b);
      RestMultiset(a);
      RestMultiset(b);
      SortedUnique(key, a[1..], b[1..]);
      assert a == [a[0]] + a[1..] && b == [b[0]] + b[1..];
    }
  }
}
