/** Who is on the queue of processes to be swapped in, and who is forgotten. */
module SwapQueue {
  import opened Conservation
  import opened HoleSpec
  import opened MemoryRuns
  import opened Ownership
  import Queues
  import opened SwapSpec

  /** Every process marked for the way in is on the queue; nobody is on it twice, as in every
      well-formed state. */
  predicate Complete(m: Mem) {
    forall p | 0 <= p < |m.procs| && m.procs[p].swapIn :: p in m.inQueue
  }

  /** Slot `p`, not marked, is still on the queue in front of a process that is. */
  predicate Cuts(m: Mem, p: nat)
    requires p < |m.procs| && forall i | 0 <= i < |m.inQueue| :: m.inQueue[i] < |m.procs|
  {
    exists j, l | 0 <= j < l < |m.inQueue| :: m.inQueue[j] == p && m.procs[m.inQueue[l]].swapIn
  }

  /** Asking for a process forgets nobody exactly when its slot is not still linked in front of
      someone marked. */
  lemma EnqueueExact(m: Mem, p: nat)
    requires WellFormed(m) && Complete(m) && p < |m.procs| && !m.procs[p].swapIn
    ensures Complete(Enqueue(m, p)) <==> !Cuts(m, p)
  {
    var q, m' := m.inQueue, Enqueue(m, p);
    JoinedMeaning(q, p);
    if p in q {
      var j: nat :| j < |q| && q[j] == p;
      JoinedCuts(q, j);
      if Cuts(m, p) {
        var j', l :| 0 <= j' < l < |q| && q[j'] == p && m.procs[q[l]].swapIn;
        assert q[l] !in q[..j + 1] && m'.procs[q[l]].swapIn;
      } else {
        forall x | 0 <= x < |m'.procs| && m'.procs[x].swapIn
          ensures x in m'.inQueue
        {
          if x != p {
            var l: nat :| l < |q| && q[l] == x;
            assert l < j || l == j;
            assert q[..j + 1][l] == x;
          }
        }
      }
    }
  }

  /** Swapping in takes exactly those off the queue that are no longer marked. */
  lemma TurnKeepsComplete(m: Mem, a: Arena, i: nat)
    requires Inv(m, a) && Roomy(m, a) && Complete(m) && i < |m.inQueue|
    requires m.procs[m.inQueue[i]].swapIn ==> SoundHead(m, m.procs[m.inQueue[i]].size)
    ensures Complete(SwapInTurn(m, i).0)
  {
    var p := m.inQueue[i];
    SwapInTurnKeeps(m, a, i);
    if !m.procs[p].swapIn {
      DequeuedComplete(m, i);
    } else {
      var (m1, base) := AllocMem(m, m.procs[p].size);
      AllocMemMeaning(m, a, m.procs[p].size);
      AllocOnceMeaning(LastPass(m, m.procs[p].size), a, m.procs[p].size);
      if base.Some? {
        LoadFields(m1, p, base.value);
        DequeuedComplete(Load(m1, p, base.value), i);
      }
    }
  }

  lemma DequeuedComplete(m: Mem, i: nat)
    requires i < |m.inQueue| && m.inQueue[i] < |m.procs| && !m.procs[m.inQueue[i]].swapIn
    requires Complete(m)
    ensures Complete(Dequeue(m, i))
  {
    var q := m.inQueue[..i] + m.inQueue[i + 1..];
    forall p | 0 <= p < |m.procs| && m.procs[p].swapIn
      ensures p in q
    {
      var l: nat :| l < |m.inQueue| && m.inQueue[l] == p;
      assert q[if l < i then l else l - 1] == p;
    }
  }

  lemma {:induction false} SwapInKeepsComplete(m: Mem, a: Arena, i: nat)
    requires Inv(m, a) && Roomy(m, a) && Complete(m) && i <= |m.inQueue| && SwapInLegal(m, i)
    ensures Complete(SwapInFrom(m, i))
    decreases |m.inQueue| - i
  {
    if i < |m.inQueue| {
      var (m1, i1) := SwapInTurn(m, i);
      SwapInTurnKeeps(m, a, i);
      TurnKeepsComplete(m, a, i);
      SwapInKeepsComplete(m1, a, i1);
    }
  }

  /** Nobody who is swapped out and not marked is still on the queue. */
  predicate NoneStale(m: Mem) {
    forall p | 0 <= p < |m.procs| && m.procs[p].onSwap && !m.procs[p].swapIn :: p !in m.inQueue
  }

  lemma {:induction false} EnqueueSwappedComplete(m: Mem, r: nat)
    requires WellFormed(m) && m.cfg.lowUser <= r <= m.cfg.nrProcs && Complete(m) && NoneStale(m)
    ensures Complete(EnqueueSwapped(m, r))
    decreases m.cfg.nrProcs - r
  {
    if r < m.cfg.nrProcs {
      JoinedMeaning(m.inQueue, r);
      EnqueueSwappedComplete(if m.procs[r].onSwap then Enqueue(m, r) else m, r + 1);
    }
  }

  /** Which calls may forget someone. */
  predicate Forgetful(m: Mem, op: Op)
    requires WellFormed(m)
  {
    match op
    case Ask(p) => p < |m.procs| && !m.procs[p].swapIn && Cuts(m, p)
    case Off => m.swapFd && !NoneStale(m)
    case _ => false
  }

  lemma ForkKeepsComplete(m: Mem, a: Arena, p: nat, n: nat)
    requires Inv(m, a) && Roomy(m, a) && Legal(m, a, Fork(p, n)) && Complete(m)
    ensures Complete(Apply(m, Fork(p, n)))
  {
    AllocMemMeaning(m, a, n);
    AllocOnceMeaning(LastPass(m, n), a, n);
    assert Progressed(m, AllocMem(m, n).0);
  }

  lemma SwapOffKeepsComplete(m: Mem, a: Arena)
    requires Inv(m, a) && Roomy(m, a) && ChunksApart(a) && m.swapFd && CanSwapOff(m, a) && Complete(m) && NoneStale(m)
    ensures Complete(SwapOff(m).0)
  {
    SwapOffLegal(m, a);
    EnqueueSwappedKeeps(m, a, m.cfg.lowUser);
    EnqueueSwappedComplete(m, m.cfg.lowUser);
    SwapInKeepsComplete(EnqueueSwapped(m, m.cfg.lowUser), a, 0);
  }

  /** All other calls keep every marked process on the queue. */
  lemma StepKeepsComplete(m: Mem, a: Arena, op: Op)
    requires Inv(m, a) && Roomy(m, a) && ChunksApart(a) && Legal(m, a, op) && Complete(m) && !Forgetful(m, op)
    ensures Complete(Apply(m, op))
  {
    match op
    case Fork(p, n) => ForkKeepsComplete(m, a, p, n);
    case PushOut =>
      match SearchFrom(m, m.outswap) {
        case None =>
        case Some(r) => SwapOutKeeps(m, a, r);
      }
    case PullIn =>
      PullInLegal(m, a);
      SwapInKeepsComplete(m, a, 0);
    case Ask(p) =>
      if !m.procs[p].swapIn {
        EnqueueExact(m, p);
      }
    case Off =>
      if m.swapFd {
        SwapOffKeepsComplete(m, a);
      }
    case _ =>
  }

  ghost predicate NobodyForgotten(m: Mem, a: Arena, ops: seq<Op>)
    requires Inv(m, a) && Roomy(m, a) && ChunksApart(a) && LegalRun(m, a, ops)
    decreases |ops|
  {
    ops != [] ==>
      && !Forgetful(m, ops[0])
      && (Step(m, a, ops[0]); NobodyForgotten(Apply(m, ops[0]), ArenaAfter(m, a, ops[0]), ops[1..]))
  }

  /** So after a run without such a call every process marked for the way in is on the queue, once. */
  lemma {:induction false} RunKeepsComplete(m: Mem, a: Arena, ops: seq<Op>)
    requires Inv(m, a) && Roomy(m, a) && ChunksApart(a) && LegalRun(m, a, ops) && NobodyForgotten(m, a, ops)
    requires Complete(m)
    ensures var m' := Run(m, a, ops).0;
      Complete(m') && forall p: nat | p < |m'.procs| && m'.procs[p].swapIn :: multiset(m'.inQueue)[p] == 1
    decreases |ops|
  {
    if ops == [] {
      forall p: nat | p < |m.procs| && m.procs[p].swapIn
        ensures multiset(m.inQueue)[p] == 1
      {
        Queues.OnceOnly(m.inQueue, p);
      }
    } else {
      Step(m, a, ops[0]);
      StepKeepsComplete(m, a, ops[0]);
      RunKeepsComplete(Apply(m, ops[0]), ArenaAfter(m, a, ops[0]), ops[1..]);
    }
  }

  // ---- A process that is forgotten ----

  /** Process 1 was queued, and has since been replaced and swapped out again; process 2 is
      queued behind it. */
  function Reused(): Mem {
    Mem(Config(0, 3, 8, 11, 100, 0, 1024), [Hole(0, 10), Hole(21, 10)],
        [EMPTY_SLOT, Proc(11, 5, true, false, true, false), Proc(16, 5, true, false, true, true)],
        0, [1, 2], false, true, map[], map[], Running)
  }

  const REUSED_ARENA := Arena([Hole(0, 10)], 20)

  lemma ReusedInv()
    ensures Inv(Reused(), REUSED_ARENA) && Roomy(Reused(), REUSED_ARENA) && ChunksApart(REUSED_ARENA)
  {
    var m := Reused();
    forall c: nat
      ensures Free(m.holes, c) ==> Managed(m.cfg, REUSED_ARENA, c)
      ensures forall p: nat :: Held(m.procs, p, c) ==> Managed(m.cfg, REUSED_ARENA, c) && !Free(m.holes, c)
      ensures forall p: nat, q: nat :: Held(m.procs, p, c) && Held(m.procs, q, c) ==> p == q
      ensures Managed(m.cfg, REUSED_ARENA, c) ==> Free(m.holes, c) || exists p: nat :: Held(m.procs, p, c)
    {
      assert m.holes[0].Has(c) <==> c < 10;
      assert m.holes[1].Has(c) <==> 21 <= c < 31;
      assert REUSED_ARENA.chunks[0].Has(c) <==> c < 10;
      if 11 <= c < 16 {
        assert Held(m.procs, 1, c);
      } else if 16 <= c < 21 {
        assert Held(m.procs, 2, c);
      }
    }
    assert Live(m.procs) == {1, 2};
  }

  /** Asking for process 1 again drops process 2 from the queue, although it stays marked and so
      is never queued again. */
  lemma QueueCut()
    ensures exists m: Mem, a: Arena, p: nat ::
      && Inv(m, a) && Roomy(m, a) && ChunksApart(a) && Legal(m, a, Ask(p)) && Complete(m) && !Complete(Apply(m, Ask(p)))
  {
    var m := Reused();
    ReusedInv();
    assert m.inQueue[0] == 1 && m.procs[m.inQueue[1]].swapIn;
    assert Cuts(m, 1);
    EnqueueExact(m, 1);
    assert Legal(m, REUSED_ARENA, Ask(1));
  }
}
