// Lists of lists read row by row, and where in them the survivors of keep-the-first sit.
module Rows {
  import opened Seqs

  datatype Spot = Spot(row: nat, slot: nat)

  ghost function Flatten<T>(rows: seq<seq<T>>): seq<T> {
    if rows == [] then [] else Flatten(Front(rows)) + Last(rows)
  }

  ghost predicate IsSpot<T>(rows: seq<seq<T>>, p: Spot) {
    p.row < |rows| && p.slot < |rows[p.row]|
  }

  ghost function ItemAt<T>(rows: seq<seq<T>>, p: Spot): T
    requires IsSpot(rows, p)
  {
    rows[p.row][p.slot]
  }

  // Earlier rows first, and within a row earlier slots.
  ghost predicate Before(p: Spot, q: Spot) {
    p.row < q.row || (p.row == q.row && p.slot < q.slot)
  }

  ghost predicate FirstSpot<T(!new)>(same: (T, T) -> bool, rows: seq<seq<T>>, p: Spot)
    requires IsSpot(rows, p)
  {
    forall q :: IsSpot(rows, q) && Before(q, p) ==> !same(ItemAt(rows, q), ItemAt(rows, p))
  }

  // What is kept sits at increasing spots, namely at those no earlier spot is the same as.
  ghost predicate KeptAt<T(!new)>(same: (T, T) -> bool, rows: seq<seq<T>>, kept: seq<T>, spots: seq<Spot>) {
    && |spots| == |kept|
    && (forall k :: 0 <= k < |spots| ==> IsSpot(rows, spots[k]) && kept[k] == ItemAt(rows, spots[k]))
    && (forall k, l :: 0 <= k < l < |spots| ==> Before(spots[k], spots[l]))
    && (forall p :: IsSpot(rows, p) ==> (p in spots <==> FirstSpot(same, rows, p)))
  }

  ghost function RowSpots(row: nat, length: nat): seq<Spot> {
    seq(length, i requires 0 <= i < length => Spot(row, i))
  }

  ghost function Spots<T>(rows: seq<seq<T>>): seq<Spot> {
    if rows == [] then [] else Spots(Front(rows)) + RowSpots(|rows| - 1, |Last(rows)|)
  }

  lemma {:induction false} SpotsListItems<T>(rows: seq<seq<T>>)
    ensures |Spots(rows)| == |Flatten(rows)|
    ensures forall i :: 0 <= i < |Spots(rows)| ==> IsSpot(rows, Spots(rows)[i]) && ItemAt(rows, Spots(rows)[i]) == Flatten(rows)[i]
    ensures forall i, j :: 0 <= i < j < |Spots(rows)| ==> Before(Spots(rows)[i], Spots(rows)[j])
  {
    if rows != [] {
      SpotsListItems(Front(rows));
    }
  }

  lemma {:induction false} EverySpotListed<T>(rows: seq<seq<T>>, p: Spot)
    requires IsSpot(rows, p)
    ensures p in Spots(rows)
  {
    var last := RowSpots(|rows| - 1, |Last(rows)|);
    if p.row < |rows| - 1 {
      EverySpotListed(Front(rows), p);
    } else {
      assert last[p.slot] == p;
    }
  }

  lemma {:induction false} SpotsInOrder<T>(rows: seq<seq<T>>, i: nat, j: nat)
    requires i < |Spots(rows)| && j < |Spots(rows)|
    ensures Before(Spots(rows)[i], Spots(rows)[j]) <==> i < j
  {
    SpotsListItems(rows);
    hide Spots, Flatten;
  }

  lemma {:induction false} FirstSpotIsFirst<T(!new), K>(key: T -> K, same: (T, T) -> bool, rows: seq<seq<T>>, i: nat)
    requires forall x, y :: same(x, y) <==> key(x) == key(y)
    requires i < |Flatten(rows)|
    ensures |Spots(rows)| == |Flatten(rows)| && IsSpot(rows, Spots(rows)[i])
    ensures FirstSpot(same, rows, Spots(rows)[i]) <==> FirstOfKey(key, Flatten(rows), i)
  {
    SpotsListItems(rows);
    var at, items := Spots(rows), Flatten(rows);
    hide Spots, Flatten;
    if FirstOfKey(key, items, i) {
      forall q | IsSpot(rows, q) && Before(q, at[i]) ensures !same(ItemAt(rows, q), ItemAt(rows, at[i])) {
        EverySpotListed(rows, q);
        var j :| 0 <= j < |at| && at[j] == q;
        SpotsInOrder(rows, j, i);
        assert ItemAt(rows, q) == items[j];
      }
    }
    if FirstSpot(same, rows, at[i]) {
      forall j | 0 <= j < i ensures key(items[j]) != key(items[i]) {
        assert Before(at[j], at[i]);
        assert ItemAt(rows, at[j]) == items[j];
      }
    }
  }

  lemma {:induction false} KeptSpots<T(!new), K>(key: T -> K, same: (T, T) -> bool, rows: seq<seq<T>>) returns (spots: seq<Spot>)
    requires forall x, y :: same(x, y) <==> key(x) == key(y)
    ensures KeptAt(same, rows, KeepFirst(key, Flatten(rows)), spots)
  {
    var at, items := Spots(rows), Flatten(rows);
    var positions := Positions(key, items);
    SpotsListItems(rows);
    KeepFirstPositions(key, items);
    hide Spots, Flatten, Positions, FirstSpot, KeepFirst;
    forall i, j | 0 <= i < j < |at| ensures at[i] != at[j] {
      assert Before(at[i], at[j]);
    }
    spots := seq(|positions|, k requires 0 <= k < |positions| => at[positions[k]]);
    forall p | IsSpot(rows, p) ensures p in spots <==> FirstSpot(same, rows, p) {
      EverySpotListed(rows, p);
      var i: nat :| i < |at| && at[i] == p;
      FirstSpotIsFirst(key, same, rows, i);
      if i in positions {
        var k :| 0 <= k < |positions| && positions[k] == i;
        assert spots[k] == p;
      }
      if p in spots {
        var k :| 0 <= k < |spots| && spots[k] == p;
        assert positions[k] == i;
      }
    }
  }

  lemma {:induction false} FlattenSnoc<T>(rows: seq<seq<T>>, row: seq<T>)
    ensures Flatten(rows + [row]) == Flatten(rows) + row
  {
    assert Front(rows + [row]) == rows;
  }
}
