// The queue-and-seen-set walk that the server uses over inheritance edges and over
// module dependencies. A graph maps each resolvable node to its out-edges in order;
// edges may lead to nodes the graph does not know, and may form cycles.
module BreadthFirst {
  import opened Seqs

  // What `while let Some(x) = queue.pop_front()` appends from a given queue and seen set.
  ghost function Walk<T>(g: map<T, seq<T>>, queue: seq<T>, seen: set<T>): seq<T>
    decreases |g.Keys - seen|, |queue|
  {
    if queue == [] then []
    else
      var x, rest := queue[0], queue[1..];
      if x in seen then Walk(g, rest, seen)
      else if x !in g then
        assert g.Keys - (seen + {x}) == g.Keys - seen;
        Walk(g, rest, seen + {x})
      else
        assert g.Keys - seen == (g.Keys - (seen + {x})) + {x};
        [x] + Walk(g, rest + g[x], seen + {x})
  }

  // The resolvable nodes at most n resolvable hops away from the root.
  ghost function Within<T>(g: map<T, seq<T>>, root: T, n: nat): set<T> {
    if n == 0 then (if root in g then {root} else {})
    else Within(g, root, n - 1) + (set p | p in g && exists q :: q in Within(g, root, n - 1) && q in g && p in g[q])
  }

  ghost predicate Reachable<T>(g: map<T, seq<T>>, root: T, x: T) {
    exists n: nat :: x in Within(g, root, n)
  }

  // The walk lists exactly the reachable nodes, each once, and a node never precedes one
  // that is strictly nearer to the root.
  ghost predicate NearestFirst<T>(g: map<T, seq<T>>, root: T, order: seq<T>) {
    && NoDup(order)
    && (forall x :: x in order ==> Reachable(g, root, x))
    && (forall n: nat, x :: x in Within(g, root, n) ==> x in order)
    && (forall i, j, n: nat :: 0 <= i < j < |order| && order[j] in Within(g, root, n) ==> order[i] in Within(g, root, n))
  }

  lemma {:induction false} WithinGrows<T>(g: map<T, seq<T>>, root: T, m: nat, n: nat)
    requires m <= n
    ensures Within(g, root, m) <= Within(g, root, n) <= g.Keys
  {
    if n == 0 {
    } else if m < n {
      WithinGrows(g, root, m, n - 1);
    } else {
      WithinGrows(g, root, m - 1, n - 1);
    }
  }

  // The queue while depth d is being drained: `now` holds what is left of depth d and
  // `next` what has been discovered of depth d + 1.
  ghost predicate AtDepth<T>(g: map<T, seq<T>>, root: T, d: nat, now: seq<T>, next: seq<T>, seen: set<T>) {
    && (forall x :: x in g && x in seen ==> x in Within(g, root, d))
    && (forall x :: x in g && x in now ==> x in Within(g, root, d))
    && (forall x :: x in Within(g, root, d) ==> x in seen || x in now)
    && (d > 0 ==> Within(g, root, d - 1) <= seen)
    && (forall x :: x in g && x in next ==> x in Within(g, root, d + 1))
    && (forall q, p :: q in g && q in seen && p in g[q] ==> p in seen || p in now || p in next)
  }

  lemma {:induction false} NextDepth<T>(g: map<T, seq<T>>, root: T, d: nat, next: seq<T>, seen: set<T>)
    requires AtDepth(g, root, d, [], next, seen)
    ensures AtDepth(g, root, d + 1, next, [], seen)
  {
    WithinGrows(g, root, d, d + 1);
  }

  lemma {:induction false} NothingDeeper<T>(g: map<T, seq<T>>, root: T, d: nat, seen: set<T>, n: nat)
    requires AtDepth(g, root, d, [], [], seen)
    ensures Within(g, root, n) <= Within(g, root, d)
  {
    if n <= d {
      WithinGrows(g, root, n, d);
    } else {
      NothingDeeper(g, root, d, seen, n - 1);
    }
  }

  lemma {:induction false} Skip<T>(g: map<T, seq<T>>, root: T, d: nat, now: seq<T>, next: seq<T>, seen: set<T>)
    requires AtDepth(g, root, d, now, next, seen) && now != []
    requires now[0] in seen || now[0] !in g
    ensures AtDepth(g, root, d, now[1..], next, seen + {now[0]})
  {
    assert now == [now[0]] + now[1..];
  }

  lemma {:induction false} Visit<T>(g: map<T, seq<T>>, root: T, d: nat, now: seq<T>, next: seq<T>, seen: set<T>)
    requires AtDepth(g, root, d, now, next, seen) && now != []
    requires now[0] !in seen && now[0] in g
    ensures AtDepth(g, root, d, now[1..], next + g[now[0]], seen + {now[0]})
    ensures now[0] in Within(g, root, d) && (d > 0 ==> Within(g, root, d - 1) <= seen)
  {
    var x, next' := now[0], next + g[now[0]];
    assert now == [x] + now[1..];
    assert x in Within(g, root, d);
    forall p | p in g && p in next' ensures p in Within(g, root, d + 1) {
      assert p in next || p in g[x];
    }
  }

  // What the rest of a walk owes when `seen` has been dealt with.
  ghost predicate Finishes<T>(g: map<T, seq<T>>, root: T, seen: set<T>, o: seq<T>) {
    && NoDup(o)
    && (forall x :: x in o ==> x !in seen && Reachable(g, root, x))
    && (forall n: nat, x :: x in Within(g, root, n) ==> x in seen || x in o)
    && (forall i, j, n: nat :: 0 <= i < j < |o| && o[j] in Within(g, root, n) ==> o[i] in Within(g, root, n))
  }

  lemma {:induction false} Prepend<T>(g: map<T, seq<T>>, root: T, d: nat, x: T, seen: set<T>, tail: seq<T>)
    requires x !in seen && x in Within(g, root, d)
    requires d > 0 ==> Within(g, root, d - 1) <= seen
    requires Finishes(g, root, seen + {x}, tail)
    ensures Finishes(g, root, seen, [x] + tail)
  {
    var o := [x] + tail;
    forall i, j | 0 <= i < j < |o| ensures o[i] != o[j] {
      assert o[j] == tail[j - 1] && o[j] in tail;
    }
    forall i, j, n: nat | 0 <= i < j < |o| && o[j] in Within(g, root, n) ensures o[i] in Within(g, root, n) {
      assert o[j] == tail[j - 1] && o[j] in tail;
      if i > 0 {
        assert o[i] == tail[i - 1];
      } else if n < d {
        WithinGrows(g, root, n, d - 1);
      } else {
        WithinGrows(g, root, d, n);
      }
    }
    assert Reachable(g, root, x);
  }

  lemma {:induction false} Ignore<T>(g: map<T, seq<T>>, root: T, x: T, seen: set<T>, o: seq<T>)
    requires x in seen || x !in g
    requires Finishes(g, root, seen + {x}, o)
    ensures Finishes(g, root, seen, o)
  {
    forall n: nat, y | y in Within(g, root, n) ensures y in seen || y in o {
      WithinGrows(g, root, n, n);
    }
  }

  lemma {:induction false} Exhausted<T>(g: map<T, seq<T>>, root: T, d: nat, seen: set<T>)
    requires AtDepth(g, root, d, [], [], seen)
    ensures Finishes(g, root, seen, [])
  {
    forall n: nat, x | x in Within(g, root, n) ensures x in seen {
      NothingDeeper(g, root, d, seen, n);
    }
  }

  // One turn of the loop, whichever branch it takes.
  lemma {:induction false} Turn<T>(g: map<T, seq<T>>, queue: seq<T>, seen: set<T>)
    requires queue != []
    ensures var x, seen' := queue[0], seen + {queue[0]};
      if x in seen || x !in g then
        g.Keys - seen' == g.Keys - seen && Walk(g, queue, seen) == Walk(g, queue[1..], seen')
      else
        |g.Keys - seen'| < |g.Keys - seen| && Walk(g, queue, seen) == [x] + Walk(g, queue[1..] + g[x], seen')
  {
    var x, seen' := queue[0], seen + {queue[0]};
    if x in seen {
      assert seen' == seen;
    } else if x in g {
      assert g.Keys - seen == (g.Keys - seen') + {x};
    } else {
      assert g.Keys - seen' == g.Keys - seen;
    }
  }

  // The same turn seen from a loop that has pushed `order` and must end with `goal`.
  lemma {:induction false} LoopTurn<T>(g: map<T, seq<T>>, goal: seq<T>, order: seq<T>, queue: seq<T>, seen: set<T>)
    requires queue != [] && order + Walk(g, queue, seen) == goal
    ensures var x, seen' := queue[0], seen + {queue[0]};
      && (x in seen ==> order + Walk(g, queue[1..], seen) == goal)
      && (x !in seen && x !in g ==> order + Walk(g, queue[1..], seen') == goal && |g.Keys - seen'| == |g.Keys - seen|)
      && (x !in seen && x in g ==> order + [x] + Walk(g, queue[1..] + g[x], seen') == goal && |g.Keys - seen'| < |g.Keys - seen|)
  {
    var x, seen' := queue[0], seen + {queue[0]};
    Turn(g, queue, seen);
    if x in seen {
      assert seen' == seen;
    } else if x in g {
      assert order + [x] + Walk(g, queue[1..] + g[x], seen') == order + ([x] + Walk(g, queue[1..] + g[x], seen'));
    }
  }

  lemma {:induction false} SkipFinishes<T>(g: map<T, seq<T>>, root: T, now: seq<T>, next: seq<T>, seen: set<T>)
    requires now != [] && (now[0] in seen || now[0] !in g)
    requires Finishes(g, root, seen + {now[0]}, Walk(g, now[1..] + next, seen + {now[0]}))
    ensures Finishes(g, root, seen, Walk(g, now + next, seen))
    ensures g.Keys - (seen + {now[0]}) == g.Keys - seen
  {
    assert (now + next)[1..] == now[1..] + next;
    Turn(g, now + next, seen);
    Ignore(g, root, now[0], seen, Walk(g, now[1..] + next, seen + {now[0]}));
  }

  lemma {:induction false} VisitFinishes<T>(g: map<T, seq<T>>, root: T, d: nat, now: seq<T>, next: seq<T>, seen: set<T>)
    requires now != [] && now[0] !in seen && now[0] in g && now[0] in Within(g, root, d)
    requires d > 0 ==> Within(g, root, d - 1) <= seen
    requires Finishes(g, root, seen + {now[0]}, Walk(g, now[1..] + (next + g[now[0]]), seen + {now[0]}))
    ensures Finishes(g, root, seen, Walk(g, now + next, seen))
  {
    assert (now + next)[1..] + g[now[0]] == now[1..] + (next + g[now[0]]);
    Turn(g, now + next, seen);
    Prepend(g, root, d, now[0], seen, Walk(g, now[1..] + (next + g[now[0]]), seen + {now[0]}));
  }

  lemma {:induction false} Shrinks<T>(g: map<T, seq<T>>, x: T, seen: set<T>)
    requires x in g && x !in seen
    ensures |g.Keys - (seen + {x})| < |g.Keys - seen|
  {
    assert g.Keys - seen == (g.Keys - (seen + {x})) + {x};
  }

  lemma {:induction false} WalkFinishes<T>(g: map<T, seq<T>>, root: T, d: nat, now: seq<T>, next: seq<T>, seen: set<T>)
    requires AtDepth(g, root, d, now, next, seen)
    ensures Finishes(g, root, seen, Walk(g, now + next, seen))
    decreases |g.Keys - seen|, |now + next|, |next|
  {
    hide AtDepth, Finishes, Within;
    if now == [] && next == [] {
      Exhausted(g, root, d, seen);
    } else if now == [] {
      NextDepth(g, root, d, next, seen);
      assert now + next == next == next + [];
      WalkFinishes(g, root, d + 1, next, [], seen);
    } else if now[0] in seen || now[0] !in g {
      Skip(g, root, d, now, next, seen);
      assert g.Keys - (seen + {now[0]}) == g.Keys - seen;
      WalkFinishes(g, root, d, now[1..], next, seen + {now[0]});
      SkipFinishes(g, root, now, next, seen);
    } else {
      Visit(g, root, d, now, next, seen);
      Shrinks(g, now[0], seen);
      WalkFinishes(g, root, d, now[1..], next + g[now[0]], seen + {now[0]});
      VisitFinishes(g, root, d, now, next, seen);
    }
  }

  lemma {:induction false} WalkIsNearestFirst<T>(g: map<T, seq<T>>, root: T)
    ensures NearestFirst(g, root, Walk(g, [root], {}))
  {
    assert [root] + [] == [root];
    WalkFinishes(g, root, 0, [root], [], {});
  }

  // ---- the order within a depth

  ghost function Edges<T>(g: map<T, seq<T>>, nodes: seq<T>): seq<T> {
    if nodes == [] then [] else Edges(g, Front(nodes)) + (if Last(nodes) in g then g[Last(nodes)] else [])
  }

  function Known<T(==)>(g: map<T, seq<T>>): T -> bool {
    (x: T) => x in g
  }

  function Itself<T>(x: T): T { x }

  // The root and then the edges of the listed nodes, node by node: the order lists what is
  // resolvable in it, each node where it is first met.
  ghost predicate ByDiscovery<T>(g: map<T, seq<T>>, root: T, order: seq<T>) {
    order == KeepFirst(Itself, Filter(Known(g), [root] + Edges(g, order)))
  }

  // The walk has taken `met` off its queue and has listed `order`.
  ghost predicate Discovering<T>(g: map<T, seq<T>>, root: T, order: seq<T>, met: seq<T>, queue: seq<T>, seen: set<T>) {
    && [root] + Edges(g, order) == met + queue
    && seen == Keys(Itself, met)
    && order == KeepFirst(Itself, Filter(Known(g), met))
  }

  lemma {:induction false} EdgesSnoc<T>(g: map<T, seq<T>>, nodes: seq<T>, x: T)
    ensures Edges(g, nodes + [x]) == Edges(g, nodes) + (if x in g then g[x] else [])
  {
    assert Front(nodes + [x]) == nodes;
  }

  lemma {:induction false} MetOne<T>(g: map<T, seq<T>>, met: seq<T>, x: T)
    ensures KeepFirst(Itself, Filter(Known(g), met + [x])) ==
      if x in g && x !in met then KeepFirst(Itself, Filter(Known(g), met)) + [x] else KeepFirst(Itself, Filter(Known(g), met))
  {
    var before := Filter(Known(g), met);
    FilterSnoc(Known(g), met, x);
    FilterMembers(Known(g), met);
    KeysMembers(Itself, before);
    hide Filter, KeepFirst, Keys;
    if x in g {
      KeepFirstSnoc(Itself, before, x);
      assert Itself(x) in Keys(Itself, before) <==> x in before;
    } else {
      assert before + [] == before;
    }
  }

  lemma {:induction false} SeenIsMet<T>(met: seq<T>, x: T)
    ensures x in Keys(Itself, met) <==> x in met
    ensures Keys(Itself, met + [x]) == Keys(Itself, met) + {x}
  {
    KeysMembers(Itself, met);
    KeepFirstSnoc(Itself, met, x);
  }

  lemma {:induction false} DiscoverNext<T>(g: map<T, seq<T>>, root: T, order: seq<T>, met: seq<T>, queue: seq<T>, seen: set<T>)
    requires Discovering(g, root, order, met, queue, seen) && queue != []
    ensures var x := queue[0];
      if x in seen || x !in g then Discovering(g, root, order, met + [x], queue[1..], seen + {x})
      else Discovering(g, root, order + [x], met + [x], queue[1..] + g[x], seen + {x})
  {
    hide Edges, KeepFirst, Filter, Keys, Itself, Known;
    var x := queue[0];
    MetOne(g, met, x);
    SeenIsMet(met, x);
    EdgesSnoc(g, order, x);
    assert met + queue == met + [x] + queue[1..];
    if x !in seen && x in g {
      assert [root] + (Edges(g, order) + g[x]) == ([root] + Edges(g, order)) + g[x];
      assert (met + [x] + queue[1..]) + g[x] == met + [x] + (queue[1..] + g[x]);
    }
  }

  lemma {:induction false} DiscoveryEnds<T>(g: map<T, seq<T>>, root: T, order: seq<T>, met: seq<T>, seen: set<T>)
    requires Discovering(g, root, order, met, [], seen)
    ensures ByDiscovery(g, root, order)
  {
    hide Edges, KeepFirst, Filter, Keys;
    assert met + [] == met;
  }

  lemma {:induction false} WalkDiscovers<T>(g: map<T, seq<T>>, root: T, order: seq<T>, met: seq<T>, queue: seq<T>, seen: set<T>)
    requires Discovering(g, root, order, met, queue, seen)
    ensures ByDiscovery(g, root, order + Walk(g, queue, seen))
    decreases |g.Keys - seen|, |queue|
  {
    hide Discovering, ByDiscovery, Walk;
    if queue == [] {
      DiscoveryEnds(g, root, order, met, seen);
      WalkOfNothing(g, seen);
      assert order + [] == order;
    } else {
      var x, seen' := queue[0], seen + {queue[0]};
      DiscoverNext(g, root, order, met, queue, seen);
      Turn(g, queue, seen);
      if x in seen || x !in g {
        WalkDiscovers(g, root, order, met + [x], queue[1..], seen');
      } else {
        var rest := Walk(g, queue[1..] + g[x], seen');
        WalkDiscovers(g, root, order + [x], met + [x], queue[1..] + g[x], seen');
        assert order + [x] + rest == order + ([x] + rest);
      }
    }
  }

  lemma WalkOfNothing<T>(g: map<T, seq<T>>, seen: set<T>)
    ensures Walk(g, [], seen) == []
  {
  }

  // The walk lists nodes in the order of their discovery: breadth first, and among the edges of
  // one node in the order of the edges.
  lemma {:induction false} WalkIsByDiscovery<T>(g: map<T, seq<T>>, root: T)
    ensures ByDiscovery(g, root, Walk(g, [root], {}))
  {
    assert [root] + Edges(g, []) == [root] == [] + [root];
    WalkDiscovers(g, root, [], [], [root], {});
    assert [] + Walk(g, [root], {}) == Walk(g, [root], {});
  }

  ghost predicate Closed<T>(g: map<T, seq<T>>, queue: seq<T>) {
    && (forall x :: x in queue ==> x in g)
    && (forall x, y :: x in g && y in g[x] ==> y in g)
  }

  ghost predicate AgreeOn<T>(g: map<T, seq<T>>, h: map<T, seq<T>>, nodes: seq<T>) {
    forall x :: x in nodes ==> x in g && x in h && g[x] == h[x]
  }

  // In a graph without dangling edges a walk depends on the edges of the nodes it lists only.
  lemma {:induction false} SameWalk<T>(g: map<T, seq<T>>, h: map<T, seq<T>>, queue: seq<T>, seen: set<T>)
    requires Closed(g, queue) && AgreeOn(g, h, Walk(g, queue, seen))
    ensures Walk(h, queue, seen) == Walk(g, queue, seen)
    decreases |g.Keys - seen|, |queue|
  {
    if queue != [] {
      var x := queue[0];
      Turn(g, queue, seen);
      if x in seen {
        SameWalk(g, h, queue[1..], seen);
      } else {
        var tail := Walk(g, queue[1..] + g[x], seen + {x});
        assert x in [x] + tail && forall y :: y in tail ==> y in [x] + tail;
        Turn(h, queue, seen);
        SameWalk(g, h, queue[1..] + g[x], seen + {x});
      }
    }
  }
}
