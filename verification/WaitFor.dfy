/** Chains of processes that wait for each other, when each waits for at most one other. */
module WaitFor {
  import opened Options

  /** For whom each process waits. */
  type Graph = seq<Option<nat>>

  predicate Closed(next: Graph) {
    forall p | 0 <= p < |next| :: next[p].Some? ==> next[p].value < |next|
  }

  /** The walk from `p` ends after at most `k` edges. */
  predicate Stops(next: Graph, p: nat, k: nat)
    requires Closed(next) && p < |next|
    decreases k
  {
    next[p].None? || (0 < k && Stops(next, next[p].value, k - 1))
  }

  ghost predicate Terminates(next: Graph, p: nat)
    requires Closed(next) && p < |next|
  {
    exists k: nat :: Stops(next, p, k)
  }

  /** Nobody waits for himself, directly or through others. */
  ghost predicate Acyclic(next: Graph)
    requires Closed(next)
  {
    forall p: nat | p < |next| :: Terminates(next, p)
  }

  /** The walk from `p` comes to `c` after at most `k` edges. */
  predicate Hits(next: Graph, p: nat, c: nat, k: nat)
    requires Closed(next) && p < |next|
    decreases k
  {
    p == c || (0 < k && next[p].Some? && Hits(next, next[p].value, c, k - 1))
  }

  ghost predicate LeadsTo(next: Graph, p: nat, c: nat)
    requires Closed(next) && p < |next|
  {
    exists k: nat :: Hits(next, p, c, k)
  }

  /** One edge of the walk. */
  lemma LeadsOn(next: Graph, p: nat, c: nat)
    requires Closed(next) && p < |next| && p != c
    ensures LeadsTo(next, p, c) <==> next[p].Some? && LeadsTo(next, next[p].value, c)
  {
    if LeadsTo(next, p, c) {
      var k: nat :| Hits(next, p, c, k);
      assert Hits(next, next[p].value, c, k - 1);
    }
    if next[p].Some? && LeadsTo(next, next[p].value, c) {
      var k: nat :| Hits(next, next[p].value, c, k);
      assert Hits(next, p, c, k + 1);
    }
  }

  /** A new edge is harmless when the walk from its end never comes back. */
  lemma {:induction false} AvoidsNewEdge(next: Graph, c: nat, d: nat, p: nat, k: nat)
    requires Closed(next) && c < |next| && d < |next| && p < |next|
    requires Stops(next, p, k) && !LeadsTo(next, p, c)
    ensures Stops(next[c := Some(d)], p, k)
    decreases k
  {
    assert Hits(next, p, p, 0);
    if next[p].Some? {
      LeadsOn(next, p, c);
      AvoidsNewEdge(next, c, d, next[p].value, k - 1);
    }
  }

  lemma {:induction false} ThroughNewEdge(next: Graph, c: nat, d: nat, p: nat, k: nat, kd: nat)
    requires Closed(next) && c < |next| && d < |next| && p < |next|
    requires Stops(next, p, k) && Stops(next[c := Some(d)], d, kd)
    ensures Stops(next[c := Some(d)], p, k + kd + 1)
    decreases k
  {
    if p == c {
      StopsMonotone(next[c := Some(d)], d, kd, k + kd);
    } else if next[p].Some? {
      ThroughNewEdge(next, c, d, next[p].value, k - 1, kd);
    }
  }

  lemma {:induction false} StopsMonotone(next: Graph, p: nat, k: nat, m: nat)
    requires Closed(next) && p < |next| && Stops(next, p, k) && k <= m
    ensures Stops(next, p, m)
    decreases k
  {
    if next[p].Some? {
      StopsMonotone(next, next[p].value, k - 1, m - 1);
    }
  }

  /** On a cycle no walk ends. */
  lemma {:induction false} CycleNeverStops(next: Graph, c: nat, d: nat, p: nat, m: nat, md: nat, k: nat)
    requires Closed(next) && c < |next| && d < |next| && p < |next|
    requires Hits(next, p, c, m) && Hits(next, d, c, md)
    ensures !Stops(next[c := Some(d)], p, k)
    decreases k
  {
    if 0 < k {
      if p == c {
        CycleNeverStops(next, c, d, d, md, md, k - 1);
      } else {
        CycleNeverStops(next, c, d, next[p].value, m - 1, md, k - 1);
      }
    }
  }

  /** Exactly when the walk from `d` comes to `c`, waiting for `d` would make `c` wait for itself. */
  lemma NewEdge(next: Graph, c: nat, d: nat)
    requires Closed(next) && Acyclic(next) && c < |next| && d < |next|
    ensures Closed(next[c := Some(d)])
    ensures Acyclic(next[c := Some(d)]) <==> !LeadsTo(next, d, c)
  {
    var next' := next[c := Some(d)];
    if LeadsTo(next, d, c) {
      var m: nat :| Hits(next, d, c, m);
      forall k: nat
        ensures !Stops(next', d, k)
      {
        CycleNeverStops(next, c, d, d, m, m, k);
      }
      assert !Terminates(next', d);
    } else {
      assert Terminates(next, d);
      var kd: nat :| Stops(next, d, kd);
      AvoidsNewEdge(next, c, d, d, kd);
      forall p: nat | p < |next'|
        ensures Terminates(next', p)
      {
        assert Terminates(next, p);
        var k: nat :| Stops(next, p, k);
        ThroughNewEdge(next, c, d, p, k, kd);
      }
    }
  }

  predicate Fewer(next': Graph, next: Graph) {
    |next'| == |next| && forall p | 0 <= p < |next| :: next'[p].None? || next'[p] == next[p]
  }

  lemma {:induction false} StopsSooner(next: Graph, next': Graph, p: nat, k: nat)
    requires Closed(next) && Closed(next') && Fewer(next', next) && p < |next| && Stops(next, p, k)
    ensures Stops(next', p, k)
    decreases k
  {
    if next'[p].Some? {
      StopsSooner(next, next', next[p].value, k - 1);
    }
  }

  lemma FewerEdges(next: Graph, next': Graph)
    requires Closed(next) && Acyclic(next) && Fewer(next', next)
    ensures Closed(next') && Acyclic(next')
  {
    forall p: nat | p < |next'|
      ensures Terminates(next', p)
    {
      assert Terminates(next, p);
      var k: nat :| Stops(next, p, k);
      StopsSooner(next, next', p, k);
    }
  }
}
