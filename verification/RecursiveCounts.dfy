/** `count($a, COUNT_RECURSIVE)` as a search of the graph of arrays (recursiveCount in
    core/basefunc.go). */
module RecursiveCounts {
  datatype Elem = Scalar | Countable(n: nat) | Sub(array_: nat)

  /** Arrays by address; they may share elements and contain each other. */
  type Heap = map<nat, seq<Elem>>

  ghost predicate Closed(heap: Heap) {
    forall a, i :: a in heap && 0 <= i < |heap[a]| && heap[a][i].Sub? ==> heap[a][i].array_ in heap
  }

  // ----- the search -----

  /** The count of `a` and the arrays visited behind it. */
  ghost function Count(heap: Heap, a: nat, visited: set<nat>): (r: (nat, set<nat>))
    requires Closed(heap) && a in heap && visited <= heap.Keys
    ensures visited <= r.1 <= heap.Keys && a in r.1
    decreases |heap.Keys - visited|, 0, 0
  {
    if a in visited then (0, visited)
    else
      Fewer(heap.Keys, visited, a);
      CountFrom(heap, a, 0, visited + {a})
  }

  /** The same for the elements of `a` from index `i` on. */
  ghost function CountFrom(heap: Heap, a: nat, i: nat, visited: set<nat>): (r: (nat, set<nat>))
    requires Closed(heap) && a in heap && i <= |heap[a]| && a in visited && visited <= heap.Keys
    ensures visited <= r.1 <= heap.Keys
    decreases |heap.Keys - visited|, 1, |heap[a]| - i
  {
    if i == |heap[a]| then (0, visited)
    else
      var e := heap[a][i];
      var (n, visited1) := if e.Sub? then Count(heap, e.array_, visited)
        else (if e.Countable? then e.n else 0, visited);
      FewerOrSame(heap.Keys, visited, visited1);
      var (m, visited2) := CountFrom(heap, a, i + 1, visited1);
      (1 + n + m, visited2)
  }

  lemma Fewer(all: set<nat>, visited: set<nat>, a: nat)
    requires a in all && a !in visited
    ensures |all - (visited + {a})| < |all - visited|
  {
    assert all - visited == (all - (visited + {a})) + {a};
  }

  lemma FewerOrSame(all: set<nat>, small: set<nat>, large: set<nat>)
    requires small <= large
    ensures |all - large| <= |all - small|
  {
    assert all - small == (all - large) + ((large - small) * all);
  }

  // ----- reachable arrays -----

  predicate Edge(heap: Heap, a: nat, b: nat) {
    a in heap && exists i :: 0 <= i < |heap[a]| && heap[a][i] == Sub(b)
  }

  ghost predicate Path(heap: Heap, p: seq<nat>) {
    p != [] && forall i, j :: 0 <= i && j == i + 1 < |p| ==> Edge(heap, p[i], p[j])
  }

  ghost predicate Reaches(heap: Heap, a: nat, b: nat) {
    exists p :: Path(heap, p) && p[0] == a && p[|p| - 1] == b
  }

  lemma ReachesSelf(heap: Heap, a: nat)
    ensures Reaches(heap, a, a)
  {
    assert Path(heap, [a]);
  }

  lemma EdgeThenReaches(heap: Heap, a: nat, b: nat, c: nat)
    requires Edge(heap, a, b) && Reaches(heap, b, c)
    ensures Reaches(heap, a, c)
  {
    var p :| Path(heap, p) && p[0] == b && p[|p| - 1] == c;
    var q := [a] + p;
    forall i, j | 0 <= i && j == i + 1 < |q| ensures Edge(heap, q[i], q[j]) {
      assert i > 0 ==> q[i] == p[i - 1] && q[j] == p[j - 1];
    }
    assert Path(heap, q);
  }

  /** A set that holds `a` and every successor of its members holds all that `a` reaches. */
  lemma {:induction false} ClosedSetHoldsReachable(heap: Heap, s: set<nat>, p: seq<nat>)
    requires Path(heap, p) && p[0] in s
    requires forall a, b :: a in s && Edge(heap, a, b) ==> b in s
    ensures p[|p| - 1] in s
    decreases |p|
  {
    if |p| > 1 {
      var n := |p| - 1;
      var q := p[..n];
      forall i, j | 0 <= i && j == i + 1 < |q| ensures Edge(heap, q[i], q[j]) {
        assert Edge(heap, p[i], p[j]);
      }
      ClosedSetHoldsReachable(heap, s, q);
      assert Edge(heap, p[n - 1], p[n]);
    }
  }

  // ----- what the search visits -----

  /** Every array in `new_` has all its successors in `visited`. */
  ghost predicate Explored(heap: Heap, new_: set<nat>, visited: set<nat>) {
    forall a, b :: a in new_ && Edge(heap, a, b) ==> b in visited
  }

  ghost predicate AllReached(heap: Heap, a: nat, new_: set<nat>) {
    forall b :: b in new_ ==> Reaches(heap, a, b)
  }

  lemma {:induction false} CountVisits(heap: Heap, a: nat, visited: set<nat>)
    requires Closed(heap) && a in heap && visited <= heap.Keys
    ensures var v := Count(heap, a, visited).1; Explored(heap, v - visited, v) && AllReached(heap, a, v - visited)
    decreases |heap.Keys - visited|, 0, 0
  {
    if a !in visited {
      Fewer(heap.Keys, visited, a);
      CountFromVisits(heap, a, 0, visited + {a});
      ReachesSelf(heap, a);
      var v := Count(heap, a, visited).1;
      forall b, c | b in v - visited && Edge(heap, b, c) ensures c in v {
        assert b == a || b in v - (visited + {a});
      }
      forall b | b in v - visited ensures Reaches(heap, a, b) {
        assert b == a || b in v - (visited + {a});
      }
    }
  }

  lemma {:induction false} CountFromVisits(heap: Heap, a: nat, i: nat, visited: set<nat>)
    requires Closed(heap) && a in heap && i <= |heap[a]| && a in visited && visited <= heap.Keys
    ensures var v := CountFrom(heap, a, i, visited).1;
            && Explored(heap, v - visited, v) && AllReached(heap, a, v - visited)
            && forall k :: i <= k < |heap[a]| && heap[a][k].Sub? ==> heap[a][k].array_ in v
    decreases |heap.Keys - visited|, 1, |heap[a]| - i
  {
    if i < |heap[a]| {
      var e := heap[a][i];
      var visited1 := if e.Sub? then Count(heap, e.array_, visited).1 else visited;
      if e.Sub? {
        CountVisits(heap, e.array_, visited);
        assert Edge(heap, a, e.array_);
      }
      FewerOrSame(heap.Keys, visited, visited1);
      CountFromVisits(heap, a, i + 1, visited1);
      var v := CountFrom(heap, a, i, visited).1;
      forall b | b in v - visited ensures Reaches(heap, a, b) {
        if b in visited1 {
          EdgeThenReaches(heap, a, e.array_, b);
        }
      }
    }
  }

  /** The arrays visited from an empty set are the ones reachable from the root. */
  lemma VisitedIsReachable(heap: Heap, root: nat)
    requires Closed(heap) && root in heap
    ensures forall b :: b in Count(heap, root, {}).1 <==> Reaches(heap, root, b)
  {
    var v := Count(heap, root, {}).1;
    CountVisits(heap, root, {});
    assert v - {} == v;
    forall b | Reaches(heap, root, b) ensures b in v {
      var p :| Path(heap, p) && p[0] == root && p[|p| - 1] == b;
      ClosedSetHoldsReachable(heap, v, p);
    }
  }

  // ----- what the search counts -----

  /** The elements of one array, with what its countable objects say. */
  function Weight(elems: seq<Elem>): nat {
    if elems == [] then 0
    else Weight(elems[1..]) + 1 + if elems[0].Countable? then elems[0].n else 0
  }

  ghost function Total(heap: Heap, s: set<nat>): nat
    requires s <= heap.Keys
  {
    if s == {} then 0
    else
      var a :| a in s;
      Weight(heap[a]) + Total(heap, s - {a})
  }

  lemma {:induction false} TotalSplits(heap: Heap, s: set<nat>, a: nat)
    requires s <= heap.Keys && a in s
    ensures Total(heap, s) == Weight(heap[a]) + Total(heap, s - {a})
    decreases |s|
  {
    var b :| b in s && Total(heap, s) == Weight(heap[b]) + Total(heap, s - {b});
    if a != b {
      TotalSplits(heap, s - {b}, a);
      TotalSplits(heap, s - {a}, b);
      assert s - {a} - {b} == s - {b} - {a};
    }
  }

  lemma {:induction false} TotalOfUnion(heap: Heap, s: set<nat>, t: set<nat>)
    requires s <= heap.Keys && t <= heap.Keys && s !! t
    ensures Total(heap, s + t) == Total(heap, s) + Total(heap, t)
    decreases |s|
  {
    if s == {} {
      assert s + t == t;
    } else {
      var a :| a in s;
      TotalSplits(heap, s, a);
      TotalSplits(heap, s + t, a);
      assert s + t - {a} == (s - {a}) + t;
      TotalOfUnion(heap, s - {a}, t);
    }
  }

  lemma {:induction false} CountAdds(heap: Heap, a: nat, visited: set<nat>)
    requires Closed(heap) && a in heap && visited <= heap.Keys
    ensures var (n, v) := Count(heap, a, visited); n == Total(heap, v - visited)
    decreases |heap.Keys - visited|, 0, 0
  {
    var v := Count(heap, a, visited).1;
    if a in visited {
      assert v - visited == {};
    } else {
      Fewer(heap.Keys, visited, a);
      CountFromAdds(heap, a, 0, visited + {a});
      assert heap[a][0..] == heap[a];
      assert v - visited == {a} + (v - (visited + {a}));
      TotalOfUnion(heap, {a}, v - (visited + {a}));
      TotalSplits(heap, {a}, a);
      assert {a} - {a} == {};
    }
  }

  lemma {:induction false} CountFromAdds(heap: Heap, a: nat, i: nat, visited: set<nat>)
    requires Closed(heap) && a in heap && i <= |heap[a]| && a in visited && visited <= heap.Keys
    ensures var (n, v) := CountFrom(heap, a, i, visited); n == Weight(heap[a][i..]) + Total(heap, v - visited)
    decreases |heap.Keys - visited|, 1, |heap[a]| - i
  {
    var v := CountFrom(heap, a, i, visited).1;
    if i == |heap[a]| {
      assert v - visited == {};
    } else {
      var e := heap[a][i];
      var visited1 := if e.Sub? then Count(heap, e.array_, visited).1 else visited;
      if e.Sub? {
        CountAdds(heap, e.array_, visited);
      }
      FewerOrSame(heap.Keys, visited, visited1);
      CountFromAdds(heap, a, i + 1, visited1);
      assert heap[a][i..][1..] == heap[a][i + 1..];
      assert v - visited == (visited1 - visited) + (v - visited1);
      TotalOfUnion(heap, visited1 - visited, v - visited1);
    }
  }

  ghost function Reachable(heap: Heap, root: nat): set<nat> {
    set a | a in heap && Reaches(heap, root, a)
  }

  /** The count is the sum of the weights of the distinct arrays reachable from the root. */
  lemma CountIsTotal(heap: Heap, root: nat)
    requires Closed(heap) && root in heap
    ensures Count(heap, root, {}) == (Total(heap, Reachable(heap, root)), Reachable(heap, root))
  {
    var v := Count(heap, root, {}).1;
    VisitedIsReachable(heap, root);
    CountAdds(heap, root, {});
    assert v - {} == v;
    assert v == Reachable(heap, root);
  }

  // ----- as the source runs it -----

  class Counter {
    const heap: Heap
    var visited: set<nat>

    constructor (heap: Heap)
      ensures this.heap == heap && visited == {}
    {
      this.heap, visited := heap, {};
    }

    method RecursiveCount(a: nat) returns (count: nat)
      requires Closed(heap) && a in heap && visited <= heap.Keys
      modifies this
      ensures visited <= heap.Keys && (count, visited) == Count(heap, a, old(visited))
      decreases |heap.Keys - visited|
    {
      if a in visited {
        return 0;
      }
      Fewer(heap.Keys, visited, a);
      visited := visited + {a};
      count := 0;
      ghost var start := visited;
      for i := 0 to |heap[a]|
        invariant start <= visited <= heap.Keys
        invariant CountFrom(heap, a, 0, start) ==
          (count + CountFrom(heap, a, i, visited).0, CountFrom(heap, a, i, visited).1)
      {
        count := count + 1;
        var e := heap[a][i];
        if e.Sub? {
          FewerOrSame(heap.Keys, start, visited);
          var n := RecursiveCount(e.array_);
          count := count + n;
        } else if e.Countable? {
          count := count + e.n;
        }
      }
    }
  }
}
