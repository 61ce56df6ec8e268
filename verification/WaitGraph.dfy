/** The dependency graph between cache entries.  Every entry has at most one outgoing
    edge (`Entry::waitingOn`), so a graph is a finite partial function on entry numbers. */
module WaitGraph {

  type Graph = map<nat, nat>

  /** The walk along the edges from `e` falls off the graph within `n` steps. */
  predicate Ends(w: Graph, e: nat, n: nat)
    decreases n
  {
    e !in w || (n > 0 && Ends(w, w[e], n - 1))
  }

  ghost predicate Finite(w: Graph, e: nat) {
    exists n: nat :: Ends(w, e, n)
  }

  /** Every walk is finite. */
  ghost predicate Acyclic(w: Graph) {
    forall e: nat :: Finite(w, e)
  }

  /** `b` is exactly `n` edges away from `a`. */
  predicate ReachesIn(w: Graph, a: nat, b: nat, n: nat)
    decreases n
  {
    if n == 0 then a == b else a in w && ReachesIn(w, w[a], b, n - 1)
  }

  ghost predicate Reaches(w: Graph, a: nat, b: nat) {
    exists n: nat :: ReachesIn(w, a, b, n)
  }

  lemma {:induction false} EndsMonotone(w: Graph, e: nat, n: nat, m: nat)
    requires Ends(w, e, n) && n <= m
    ensures Ends(w, e, m)
    decreases n
  {
    if e in w {
      EndsMonotone(w, w[e], n - 1, m - 1);
    }
  }

  /** A walk that ends in `n` steps ends in `n - k` steps when started `k` edges further on. */
  lemma {:induction false} EndsAfter(w: Graph, a: nat, b: nat, k: nat, n: nat)
    requires ReachesIn(w, a, b, k) && Ends(w, a, n)
    ensures k <= n && Ends(w, b, n - k)
    decreases k
  {
    if k > 0 {
      EndsAfter(w, w[a], b, k - 1, n - 1);
    }
  }

  lemma {:induction false} ReachesExtend(w: Graph, a: nat, b: nat, n: nat)
    requires ReachesIn(w, a, b, n) && b in w
    ensures ReachesIn(w, a, w[b], n + 1)
    decreases n
  {
    if n > 0 {
      ReachesExtend(w, w[a], b, n - 1);
    }
  }

  /** The walk is deterministic, so the nodes after `b` are those reached from `b`. */
  lemma {:induction false} ReachesSplit(w: Graph, a: nat, b: nat, k: nat, c: nat, n: nat)
    requires ReachesIn(w, a, b, k) && ReachesIn(w, a, c, n) && k <= n
    ensures ReachesIn(w, b, c, n - k)
    decreases k
  {
    if k > 0 {
      ReachesSplit(w, w[a], b, k - 1, c, n - 1);
    }
  }

  /** In an acyclic graph no node reaches itself along one or more edges. */
  lemma AcyclicHasNoCycle(w: Graph, e: nat, k: nat)
    requires Acyclic(w) && k > 0
    ensures !ReachesIn(w, e, e, k)
  {
    assert Finite(w, e);
    var n: nat :| Ends(w, e, n);
    if ReachesIn(w, e, e, k) {
      CycleNeverEnds(w, e, k, n);
      assert false;
    }
  }

  lemma {:induction false} CycleNeverEnds(w: Graph, e: nat, k: nat, n: nat)
    requires k > 0 && ReachesIn(w, e, e, k)
    ensures !Ends(w, e, n)
    decreases n
  {
    if Ends(w, e, n) {
      EndsAfter(w, e, e, k, n);
      CycleNeverEnds(w, e, k, n - k);
    }
  }

  lemma {:induction false} EndsWithoutEdge(w: Graph, x: nat, e: nat, n: nat)
    requires Ends(w, e, n)
    ensures Ends(w - {x}, e, n)
    decreases n
  {
    if e in w && e != x {
      EndsWithoutEdge(w, x, w[e], n - 1);
    }
  }

  /** Dropping an edge keeps the graph acyclic. */
  lemma RemoveEdge(w: Graph, x: nat)
    requires Acyclic(w)
    ensures Acyclic(w - {x})
  {
    forall e: nat
      ensures Finite(w - {x}, e)
    {
      assert Finite(w, e);
      var n: nat :| Ends(w, e, n);
      EndsWithoutEdge(w, x, e, n);
    }
  }

  /** A walk that never meets `x` is not changed by a new edge out of `x`. */
  lemma {:induction false} EndsAvoiding(w: Graph, x: nat, y: nat, e: nat, n: nat)
    requires x !in w && Ends(w, e, n) && !Reaches(w, e, x)
    ensures Ends(w[x := y], e, n)
    decreases n
  {
    assert e != x by {
      assert ReachesIn(w, e, e, 0);
    }
    if e in w {
      forall k: nat
        ensures !ReachesIn(w, w[e], x, k)
      {
        assert ReachesIn(w, e, x, k + 1) == ReachesIn(w, w[e], x, k);
      }
      EndsAvoiding(w, x, y, w[e], n - 1);
    }
  }

  lemma {:induction false} EndsThroughNewEdge(w: Graph, x: nat, y: nat, m: nat, e: nat, n: nat)
    requires Ends(w[x := y], y, m) && Ends(w, e, n)
    ensures Ends(w[x := y], e, n + 1 + m)
    decreases n
  {
    if e == x {
      EndsMonotone(w[x := y], y, m, n + m);
    } else if e in w {
      EndsThroughNewEdge(w, x, y, m, w[e], n - 1);
    }
  }

  /** Adding an edge out of a sink keeps the graph acyclic unless its target leads back. */
  lemma AddEdge(w: Graph, x: nat, y: nat)
    requires Acyclic(w) && x !in w && !Reaches(w, y, x)
    ensures Acyclic(w[x := y])
  {
    assert Finite(w, y);
    var m: nat :| Ends(w, y, m);
    EndsAvoiding(w, x, y, y, m);
    var w' := w[x := y];
    forall e: nat
      ensures Finite(w', e)
    {
      assert Finite(w, e);
      var n: nat :| Ends(w, e, n);
      EndsThroughNewEdge(w, x, y, m, e, n);
    }
  }

  lemma {:induction false} ReachesInLarger(w: Graph, x: nat, y: nat, a: nat, b: nat, k: nat)
    requires x !in w && ReachesIn(w, a, b, k)
    ensures ReachesIn(w[x := y], a, b, k)
    decreases k
  {
    if k > 0 {
      ReachesInLarger(w, x, y, w[a], b, k - 1);
    }
  }

  /** An edge out of a sink closes a cycle exactly when its target leads back. */
  lemma NewEdgeClosesCycle(w: Graph, x: nat, y: nat)
    requires Acyclic(w) && x !in w
    ensures Acyclic(w[x := y]) <==> !Reaches(w, y, x)
  {
    var w' := w[x := y];
    if Reaches(w, y, x) {
      var k: nat :| ReachesIn(w, y, x, k);
      ReachesInLarger(w, x, y, y, x, k);
      assert ReachesIn(w', x, x, k + 1);
      if Acyclic(w') {
        AcyclicHasNoCycle(w', x, k + 1);
        assert false;
      }
    } else {
      AddEdge(w, x, y);
    }
  }

  /** The loop of `WaitDependency`: follow `waitingOn` from `target` until it is null
      or the waiting entry is met.  It terminates because the graph is acyclic. */
  method LeadsBack(w: Graph, target: nat, waiter: nat) returns (cyclic: bool)
    requires Acyclic(w)
    ensures cyclic <==> Reaches(w, target, waiter)
  {
    assert Finite(w, target);
    ghost var n: nat :| Ends(w, target, n);
    var dependency := target;
    ghost var k: nat := 0;
    while true
      invariant ReachesIn(w, target, dependency, k) && Ends(w, dependency, n)
      invariant forall j: nat :: j < k ==> !ReachesIn(w, target, waiter, j)
      decreases n
    {
      if dependency == waiter {
        return true;
      }
      forall j: nat | ReachesIn(w, target, waiter, j)
        ensures j > k && dependency in w
      {
        if j >= k {
          ReachesSplit(w, target, dependency, k, waiter, j);
        }
      }
      if dependency !in w {
        return false;
      }
      ReachesExtend(w, target, dependency, k);
      dependency, n, k := w[dependency], n - 1, k + 1;
    }
  }
}
