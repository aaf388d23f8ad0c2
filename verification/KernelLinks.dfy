/** The links of the process table: how moving a process between queues changes them. */
module KernelLinks {
  import opened Queues

  /** Nobody is on two of the queues, or on one of them twice. */
  ghost predicate Apart(qs: seq<seq<nat>>) {
    && (forall i | 0 <= i < |qs| :: Distinct(qs[i]))
    && (forall i, j, p | 0 <= i < |qs| && 0 <= j < |qs| && i != j && p in qs[i] :: p !in qs[j])
  }

  predicate Nowhere(qs: seq<seq<nat>>, p: nat) {
    forall i | 0 <= i < |qs| :: p !in qs[i]
  }

  // ---- Queues with a head and a tail pointer ----

  ghost predicate Line(next: seq<int>, head: int, tail: int, q: seq<nat>) {
    Chain(next, q) && head == First(q) && (q != [] ==> tail == Last(q))
  }

  ghost predicate Lines(next: seq<int>, heads: seq<int>, tails: seq<int>, qs: seq<seq<nat>>) {
    |heads| == |qs| && |tails| == |qs| && forall i | 0 <= i < |qs| :: Line(next, heads[i], tails[i], qs[i])
  }

  /** A link of a process that is on no queue, or on this one only, matters to no other. */
  lemma OtherLines(next: seq<int>, next': seq<int>, heads: seq<int>, tails: seq<int>, qs: seq<seq<nat>>, i: nat)
    requires Lines(next, heads, tails, qs) && i < |qs| && |next'| == |next|
    requires forall j, x | 0 <= j < |qs| && j != i && x in qs[j] && x < |next| :: next'[x] == next[x]
    ensures forall j | 0 <= j < |qs| && j != i :: Line(next', heads[j], tails[j], qs[j])
  {
    forall j | 0 <= j < |qs| && j != i
      ensures Line(next', heads[j], tails[j], qs[j])
    {
      assert Line(next, heads[j], tails[j], qs[j]);
      ChainFrame(next, next', qs[j]);
    }
  }

  /** Joining a queue at its end. */
  lemma LineAppend(next: seq<int>, head: int, tail: int, q: seq<nat>, p: nat)
    requires Line(next, head, tail, q) && Distinct(q) && p !in q && p < |next|
    ensures q == [] ==> Line(next[p := NIL], p, p, q + [p])
    ensures q != [] ==> 0 <= tail < |next| && tail in q && Line(next[tail := p][p := NIL], head, p, q + [p])
  {
    ChainAppend(next, q, p);
  }

  /** Joining a queue in front. */
  lemma LinePush(next: seq<int>, head: int, tail: int, q: seq<nat>, p: nat)
    requires Line(next, head, tail, q) && p !in q && p < |next|
    ensures Line(next[p := head], p, if q == [] then p else tail, [p] + q)
  {
    ChainPush(next, q, p);
  }

  /** The head leaves. */
  lemma LineTail(next: seq<int>, head: int, tail: int, q: seq<nat>)
    requires Line(next, head, tail, q) && q != []
    ensures 0 <= head < |next| && Line(next, next[head], tail, q[1..])
    ensures Remove(q, q[0]) == q[1..]
  {
    ChainTail(next, q);
  }

  /** Someone behind the head leaves. */
  lemma LineUnlink(next: seq<int>, head: int, tail: int, q: seq<nat>, i: nat)
    requires Line(next, head, tail, q) && Distinct(q) && 0 < i < |q|
    ensures q[i - 1] < |next| && q[i] < |next|
    ensures Line(next[q[i - 1] := next[q[i]]], head, if tail == q[i] then q[i - 1] else tail, Remove(q, q[i]))
  {
    ChainUnlink(next, q, i);
    RemoveAt(q, i);
  }

  /** The head goes to the end. */
  lemma LineRotate(next: seq<int>, head: int, tail: int, q: seq<nat>)
    requires Line(next, head, tail, q) && Distinct(q) && q != []
    ensures 0 <= tail < |next| && 0 <= head < |next| && tail in q && head in q
    ensures var linked := next[tail := head];
      Line(linked[head := NIL], linked[head], head, q[1..] + [q[0]])
  {
    ChainRotate(next, q);
  }

  lemma InLine(next: seq<int>, head: int, tail: int, q: seq<nat>, j: nat)
    requires Line(next, head, tail, q) && j < |q|
    ensures q[j] < |next| && next[q[j]] == After(q, j)
  {
    ChainAt(next, q, j);
  }

  /** One queue has changed, the others have not. */
  lemma LinesUpdate(next: seq<int>, next': seq<int>, heads: seq<int>, tails: seq<int>, qs: seq<seq<nat>>,
                    i: nat, head: int, tail: int, q: seq<nat>)
    requires Lines(next, heads, tails, qs) && i < |qs| && |next'| == |next|
    requires forall j, x | 0 <= j < |qs| && j != i && x in qs[j] && x < |next| :: next'[x] == next[x]
    requires Line(next', head, tail, q)
    ensures Lines(next', heads[i := head], tails[i := tail], qs[i := q])
  {
    OtherLines(next, next', heads, tails, qs, i);
  }

  lemma LinesAppend(next: seq<int>, heads: seq<int>, tails: seq<int>, qs: seq<seq<nat>>, i: nat, p: nat)
    requires Lines(next, heads, tails, qs) && Apart(qs) && Nowhere(qs, p) && i < |qs| && p < |next|
    ensures heads[i] == First(qs[i])
    ensures qs[i] == [] ==> Lines(next[p := NIL], heads[i := p], tails[i := p], qs[i := qs[i] + [p]])
    ensures qs[i] != [] ==>
      0 <= tails[i] < |next| && Lines(next[tails[i] := p][p := NIL], heads, tails[i := p], qs[i := qs[i] + [p]])
  {
    assert Line(next, heads[i], tails[i], qs[i]);
    LineAppend(next, heads[i], tails[i], qs[i], p);
    if qs[i] == [] {
      LinesUpdate(next, next[p := NIL], heads, tails, qs, i, p, p, qs[i] + [p]);
    } else {
      LinesUpdate(next, next[tails[i] := p][p := NIL], heads, tails, qs, i, heads[i], p, qs[i] + [p]);
      assert heads[i := heads[i]] == heads;
    }
  }

  lemma LinesPush(next: seq<int>, heads: seq<int>, tails: seq<int>, qs: seq<seq<nat>>, i: nat, p: nat)
    requires Lines(next, heads, tails, qs) && Nowhere(qs, p) && i < |qs| && p < |next|
    ensures heads[i] == First(qs[i])
    ensures Lines(next[p := heads[i]], heads[i := p],
                  if qs[i] == [] then tails[i := p] else tails, qs[i := [p] + qs[i]])
  {
    assert Line(next, heads[i], tails[i], qs[i]);
    LinePush(next, heads[i], tails[i], qs[i], p);
    LinesUpdate(next, next[p := heads[i]], heads, tails, qs, i, p, if qs[i] == [] then p else tails[i], [p] + qs[i]);
    assert tails[i := tails[i]] == tails;
  }

  lemma LinesTail(next: seq<int>, heads: seq<int>, tails: seq<int>, qs: seq<seq<nat>>, i: nat)
    requires Lines(next, heads, tails, qs) && i < |qs| && qs[i] != []
    ensures 0 <= heads[i] < |next| && heads[i] == qs[i][0]
    ensures Lines(next, heads[i := next[heads[i]]], tails, qs[i := Remove(qs[i], qs[i][0])])
  {
    assert Line(next, heads[i], tails[i], qs[i]);
    LineTail(next, heads[i], tails[i], qs[i]);
    LinesUpdate(next, next, heads, tails, qs, i, next[heads[i]], tails[i], qs[i][1..]);
    assert tails[i := tails[i]] == tails;
  }

  lemma LinesUnlink(next: seq<int>, heads: seq<int>, tails: seq<int>, qs: seq<seq<nat>>, i: nat, j: nat)
    requires Lines(next, heads, tails, qs) && Apart(qs) && i < |qs| && 0 < j < |qs[i]|
    ensures qs[i][j - 1] < |next| && qs[i][j] < |next|
    ensures Lines(next[qs[i][j - 1] := next[qs[i][j]]], heads,
                  if tails[i] == qs[i][j] then tails[i := qs[i][j - 1]] else tails,
                  qs[i := Remove(qs[i], qs[i][j])])
  {
    assert Line(next, heads[i], tails[i], qs[i]);
    var q := qs[i];
    LineUnlink(next, heads[i], tails[i], q, j);
    LinesUpdate(next, next[q[j - 1] := next[q[j]]], heads, tails, qs, i, heads[i],
                if tails[i] == q[j] then q[j - 1] else tails[i], Remove(q, q[j]));
    assert heads[i := heads[i]] == heads && tails[i := tails[i]] == tails;
  }

  lemma LinesRotate(next: seq<int>, heads: seq<int>, tails: seq<int>, qs: seq<seq<nat>>, i: nat)
    requires Lines(next, heads, tails, qs) && Apart(qs) && i < |qs| && qs[i] != []
    ensures 0 <= tails[i] < |next| && 0 <= heads[i] < |next| && heads[i] == qs[i][0]
    ensures var linked := next[tails[i] := heads[i]];
      Lines(linked[heads[i] := NIL], heads[i := linked[heads[i]]], tails[i := heads[i]],
        qs[i := qs[i][1..] + [qs[i][0]]])
  {
    assert Line(next, heads[i], tails[i], qs[i]);
    LineRotate(next, heads[i], tails[i], qs[i]);
    var linked := next[tails[i] := heads[i]];
    LinesUpdate(next, linked[heads[i] := NIL], heads, tails, qs, i, linked[heads[i]], heads[i],
                qs[i][1..] + [qs[i][0]]);
  }

  // ---- Queues with a head pointer only ----

  ghost predicate Heads(next: seq<int>, heads: seq<int>, qs: seq<seq<nat>>) {
    |heads| == |qs| && forall i | 0 <= i < |qs| :: HeadAt(next, heads[i], qs[i])
  }

  ghost predicate HeadAt(next: seq<int>, head: int, q: seq<nat>) {
    Chain(next, q) && head == First(q)
  }

  function Ends(qs: seq<seq<nat>>): seq<int> {
    seq(|qs|, i requires 0 <= i < |qs| => if qs[i] == [] then NIL else Last(qs[i]))
  }

  lemma HeadsAreLines(next: seq<int>, heads: seq<int>, qs: seq<seq<nat>>)
    requires Heads(next, heads, qs)
    ensures Lines(next, heads, Ends(qs), qs)
  {
    forall i | 0 <= i < |qs|
      ensures Line(next, heads[i], Ends(qs)[i], qs[i])
    {
      assert HeadAt(next, heads[i], qs[i]);
    }
  }

  lemma LinesAreHeads(next: seq<int>, heads: seq<int>, tails: seq<int>, qs: seq<seq<nat>>)
    requires Lines(next, heads, tails, qs)
    ensures Heads(next, heads, qs)
  {
    forall i | 0 <= i < |qs|
      ensures HeadAt(next, heads[i], qs[i])
    {
      assert Line(next, heads[i], tails[i], qs[i]);
    }
  }

  lemma HeadsAppend(next: seq<int>, heads: seq<int>, qs: seq<seq<nat>>, i: nat, p: nat)
    requires Heads(next, heads, qs) && Apart(qs) && Nowhere(qs, p) && i < |qs| && p < |next|
    ensures qs[i] == [] ==> Heads(next[p := NIL], heads[i := p], qs[i := qs[i] + [p]])
    ensures qs[i] != [] ==> Last(qs[i]) < |next| && Heads(next[Last(qs[i]) := p][p := NIL], heads, qs[i := qs[i] + [p]])
  {
    HeadsAreLines(next, heads, qs);
    LinesAppend(next, heads, Ends(qs), qs, i, p);
    if qs[i] == [] {
      LinesAreHeads(next[p := NIL], heads[i := p], Ends(qs)[i := p], qs[i := qs[i] + [p]]);
    } else {
      LinesAreHeads(next[Last(qs[i]) := p][p := NIL], heads, Ends(qs)[i := p], qs[i := qs[i] + [p]]);
    }
  }

  lemma HeadsTail(next: seq<int>, heads: seq<int>, qs: seq<seq<nat>>, i: nat)
    requires Heads(next, heads, qs) && i < |qs| && qs[i] != []
    ensures 0 <= heads[i] < |next| && heads[i] == qs[i][0]
    ensures Heads(next, heads[i := next[heads[i]]], qs[i := Remove(qs[i], qs[i][0])])
  {
    HeadsAreLines(next, heads, qs);
    LinesTail(next, heads, Ends(qs), qs, i);
    LinesAreHeads(next, heads[i := next[heads[i]]], Ends(qs), qs[i := Remove(qs[i], qs[i][0])]);
  }

  lemma HeadsUnlink(next: seq<int>, heads: seq<int>, qs: seq<seq<nat>>, i: nat, j: nat)
    requires Heads(next, heads, qs) && Apart(qs) && i < |qs| && 0 < j < |qs[i]|
    ensures qs[i][j - 1] < |next| && qs[i][j] < |next|
    ensures Heads(next[qs[i][j - 1] := next[qs[i][j]]], heads, qs[i := Remove(qs[i], qs[i][j])])
  {
    HeadsAreLines(next, heads, qs);
    LinesUnlink(next, heads, Ends(qs), qs, i, j);
    var tails := if Ends(qs)[i] == qs[i][j] then Ends(qs)[i := qs[i][j - 1]] else Ends(qs);
    LinesAreHeads(next[qs[i][j - 1] := next[qs[i][j]]], heads, tails, qs[i := Remove(qs[i], qs[i][j])]);
  }
}
