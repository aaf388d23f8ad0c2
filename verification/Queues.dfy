/** Queues threaded through a table of links, and the sequences they stand for. */
module Queues {

  const NIL: int := -1

  ghost predicate Distinct(q: seq<nat>) {
    forall i, j | 0 <= i < j < |q| :: q[i] != q[j]
  }

  function First(q: seq<nat>): int {
    if q == [] then NIL else q[0]
  }

  function Last(q: seq<nat>): nat
    requires q != []
  {
    q[|q| - 1]
  }

  /** The queue without the entry `p`. */
  function Remove(q: seq<nat>, p: nat): seq<nat> {
    if q == [] then [] else if q[0] == p then q[1..] else [q[0]] + Remove(q[1..], p)
  }

  lemma {:induction false} RemoveMeaning(q: seq<nat>, p: nat)
    requires Distinct(q)
    ensures Distinct(Remove(q, p))
    ensures forall x :: x in Remove(q, p) <==> x in q && x != p
  {
    if q != [] && q[0] != p {
      RemoveMeaning(q[1..], p);
      assert forall x :: x in q <==> x == q[0] || x in q[1..];
      assert q[0] !in q[1..];
    }
  }

  lemma {:induction false} RemoveAbsent(q: seq<nat>, p: nat)
    requires p !in q
    ensures Remove(q, p) == q
  {
    if q != [] {
      RemoveAbsent(q[1..], p);
    }
  }

  lemma {:induction false} RemoveAt(q: seq<nat>, i: nat)
    requires Distinct(q) && i < |q|
    ensures Remove(q, q[i]) == q[..i] + q[i + 1..]
  {
    if 0 < i {
      RemoveAt(q[1..], i - 1);
      assert q[1..][..i - 1] == q[1..i];
    }
  }

  lemma AppendDistinct(q: seq<nat>, p: nat)
    requires Distinct(q) && p !in q
    ensures Distinct(q + [p]) && Distinct([p] + q)
    ensures forall x :: x in q + [p] <==> x in q || x == p
    ensures forall x :: x in [p] + q <==> x in q || x == p
  {
  }

  /** In a queue without duplicates nobody is twice. */
  lemma {:induction false} OnceOnly(q: seq<nat>, p: nat)
    requires Distinct(q)
    ensures multiset(q)[p] == if p in q then 1 else 0
  {
    if q != [] {
      OnceOnly(q[1..], p);
      assert q == [q[0]] + q[1..];
      assert q[0] !in q[1..];
    }
  }

  // ---- Links ----

  function After(q: seq<nat>, i: nat): int
    requires i < |q|
  {
    if i + 1 < |q| then q[i + 1] else NIL
  }

  predicate LinkAt(next: seq<int>, q: seq<nat>, i: nat) {
    i < |q| && q[i] < |next| && next[q[i]] == After(q, i)
  }

  /** Following `next` from the first entry visits exactly the queue. */
  ghost predicate Chain(next: seq<int>, q: seq<nat>) {
    forall i: nat | i < |q| :: LinkAt(next, q, i)
  }

  lemma ChainAt(next: seq<int>, q: seq<nat>, i: nat)
    requires Chain(next, q) && i < |q|
    ensures LinkAt(next, q, i)
  {
  }

  /** Links outside the queue do not matter. */
  lemma ChainFrame(next: seq<int>, next': seq<int>, q: seq<nat>)
    requires Chain(next, q) && |next'| == |next|
    requires forall x | x in q && x < |next| :: next'[x] == next[x]
    ensures Chain(next', q)
  {
    forall i: nat | i < |q|
      ensures LinkAt(next', q, i)
    {
      ChainAt(next, q, i);
    }
  }

  lemma ChainAppend(next: seq<int>, q: seq<nat>, p: nat)
    requires Chain(next, q) && Distinct(q) && p !in q && p < |next|
    ensures q != [] ==> Last(q) < |next| && Chain(next[Last(q) := p][p := NIL], q + [p])
    ensures q == [] ==> Chain(next[p := NIL], q + [p])
  {
    if q == [] {
      assert LinkAt(next[p := NIL], q + [p], 0);
    } else {
      ChainAt(next, q, |q| - 1);
      var next', q' := next[Last(q) := p][p := NIL], q + [p];
      forall i: nat | i < |q'|
        ensures LinkAt(next', q', i)
      {
        if i < |q| - 1 {
          ChainAt(next, q, i);
        }
      }
    }
  }

  lemma ChainPush(next: seq<int>, q: seq<nat>, p: nat)
    requires Chain(next, q) && p !in q && p < |next|
    ensures Chain(next[p := First(q)], [p] + q)
  {
    var next', q' := next[p := First(q)], [p] + q;
    forall i: nat | i < |q'|
      ensures LinkAt(next', q', i)
    {
      if 0 < i {
        ChainAt(next, q, i - 1);
      }
    }
  }

  lemma ChainTail(next: seq<int>, q: seq<nat>)
    requires Chain(next, q) && q != []
    ensures Chain(next, q[1..]) && q[0] < |next| && next[q[0]] == First(q[1..])
  {
    ChainAt(next, q, 0);
    forall i: nat | i < |q[1..]|
      ensures LinkAt(next, q[1..], i)
    {
      ChainAt(next, q, i + 1);
    }
  }

  /** Unlinking the entry behind `q[i - 1]`. */
  lemma ChainUnlink(next: seq<int>, q: seq<nat>, i: nat)
    requires Chain(next, q) && Distinct(q) && 0 < i < |q|
    ensures q[i] < |next| && q[i - 1] < |next|
    ensures Chain(next[q[i - 1] := next[q[i]]], q[..i] + q[i + 1..])
  {
    ChainAt(next, q, i);
    ChainAt(next, q, i - 1);
    var next', q' := next[q[i - 1] := next[q[i]]], q[..i] + q[i + 1..];
    forall j: nat | j < |q'|
      ensures LinkAt(next', q', j)
    {
      if j < i - 1 {
        ChainAt(next, q, j);
      } else if i <= j {
        ChainAt(next, q, j + 1);
      }
    }
  }

  /** The first entry moves to the end. */
  lemma ChainRotate(next: seq<int>, q: seq<nat>)
    requires Chain(next, q) && Distinct(q) && q != []
    ensures Last(q) < |next| && q[0] < |next|
    ensures var linked := next[Last(q) := q[0]];
      var head := linked[q[0]];
      && head == First(q[1..] + [q[0]])
      && Chain(linked[q[0] := NIL], q[1..] + [q[0]])
  {
    ChainAt(next, q, 0);
    ChainAt(next, q, |q| - 1);
    var linked, q' := next[Last(q) := q[0]], q[1..] + [q[0]];
    var next' := linked[q[0] := NIL];
    forall j: nat | j < |q'|
      ensures LinkAt(next', q', j)
    {
      if j + 2 < |q| {
        ChainAt(next, q, j + 1);
      }
    }
  }
}
