/** States in which the memory manager goes wrong. */
module MemoryHazards {
  import opened Conservation
  import opened HoleSpec
  import opened MemoryRuns
  import opened Ownership
  import opened Options
  import opened SwapSpec

  // ---- All memory in use ----

  /** One process owns all ten clicks of memory; the swap area has five. */
  function FullMemory(worst: bool): Mem {
    Mem(Config(0, 1, 8, 11, 100, 0, 1024), [Hole(11, 5)], [Proc(0, 10, false, false, false, false)],
        0, [], worst, true, map[], map[], Running)
  }

  const FULL_ARENA := Arena([Hole(0, 10)], 5)

  lemma FullMemoryInv(worst: bool)
    ensures Inv(FullMemory(worst), FULL_ARENA) && Roomy(FullMemory(worst), FULL_ARENA) && ChunksApart(FULL_ARENA)
  {
    var m, a := FullMemory(worst), FULL_ARENA;
    forall c: nat
      ensures Free(m.holes, c) <==> 11 <= c < 16
      ensures Free(a.chunks, c) <==> c < 10
      ensures forall p: nat :: Held(m.procs, p, c) <==> p == 0 && c < 10
    {
      assert m.holes[0].Has(c) <==> 11 <= c < 16;
      assert a.chunks[0].Has(c) <==> c < 10;
    }
    forall c: nat | Managed(m.cfg, a, c)
      ensures Free(m.holes, c) || exists p: nat :: Held(m.procs, p, c)
    {
      assert c < 10 ==> Held(m.procs, 0, c);
    }
    assert Live(m.procs) == {0};
  }

  /** Worst fit hands out the swap area. */
  lemma WorstFitBitesSwapArea()
    ensures exists m: Mem, a: Arena :: Inv(m, a) && Roomy(m, a) && m.worst && GoesWrong(m, 2)
  {
    FullMemoryInv(true);
    WorstFitGoesWrong(FullMemory(true), FULL_ARENA, 2);
  }

  /** swap_off follows a nil pointer. */
  lemma SwapOffFaults()
    ensures exists m: Mem, a: Arena ::
      Inv(m, a) && Roomy(m, a) && !m.worst && m.swapFd && NoneSwapped(m) && SwapOff(m).0.status.NilDereference?
  {
    var m := FullMemory(false);
    FullMemoryInv(false);
    assert InUse(m.procs, true) == 10 && Lens(FULL_ARENA.chunks) == 10 by {
      assert m.procs[1..] == [] && FULL_ARENA.chunks[1..] == [];
    }
    SwapOffExact(m, FULL_ARENA);
  }

  // ---- Two processes to swap in, room for one ----

  /** Memory has ten clicks, five of them free; processes 1 and 2, five clicks each, wait on
      the queue, first process 2, whose image is in front of the other one. */
  function RoomForOne(): Mem {
    Mem(Config(0, 3, 8, 11, 100, 0, 1024), [Hole(5, 5), Hole(21, 10)],
        [Proc(0, 5, false, false, false, false), Proc(16, 5, false, false, true, true),
         Proc(11, 5, false, false, true, true)],
        0, [2, 1], true, true, map[], map[], Running)
  }

  const ONE_ARENA := Arena([Hole(0, 10)], 20)

  lemma RoomForOneClicks(c: nat)
    ensures var m := RoomForOne();
      && (Free(m.holes, c) <==> 5 <= c < 10 || 21 <= c < 31)
      && (Free(ONE_ARENA.chunks, c) <==> c < 10)
      && (forall p: nat :: Held(m.procs, p, c)
            <==> (p == 0 && c < 5) || (p == 1 && 16 <= c < 21) || (p == 2 && 11 <= c < 16))
  {
    var m := RoomForOne();
    assert m.holes[0].Has(c) <==> 5 <= c < 10;
    assert m.holes[1].Has(c) <==> 21 <= c < 31;
    assert ONE_ARENA.chunks[0].Has(c) <==> c < 10;
  }

  lemma RoomForOneInv()
    ensures Inv(RoomForOne(), ONE_ARENA) && Roomy(RoomForOne(), ONE_ARENA) && ChunksApart(ONE_ARENA)
  {
    var m := RoomForOne();
    forall c: nat
      ensures Free(m.holes, c) ==> Managed(m.cfg, ONE_ARENA, c)
      ensures forall p: nat :: Held(m.procs, p, c) ==> Managed(m.cfg, ONE_ARENA, c) && !Free(m.holes, c)
      ensures forall p: nat, q: nat :: Held(m.procs, p, c) && Held(m.procs, q, c) ==> p == q
      ensures Managed(m.cfg, ONE_ARENA, c) ==> Free(m.holes, c) || exists p: nat :: Held(m.procs, p, c)
    {
      RoomForOneClicks(c);
      if c < 5 {
        assert Held(m.procs, 0, c);
      } else if 16 <= c < 21 {
        assert Held(m.procs, 1, c);
      } else if 11 <= c < 16 {
        assert Held(m.procs, 2, c);
      }
    }
    assert Live(m.procs) == {0, 1, 2};
  }

  /** Worst fit takes the head hole; then a block is given back. */
  predicate HolesGo(holes: seq<Hole>, limit: nat, size: nat, base: nat, taken: seq<Hole>, holes': seq<Hole>) {
    && holes != [] && size <= holes[0].len && WorstFit(holes, limit) == 0
    && taken == Bite(holes, 0, size) && holes' == Release(taken, base, size)
  }

  /** That is for the first process on the queue, which moves there. */
  ghost predicate TakesHead(m: Mem, p: nat, moved: Proc, taken: seq<Hole>, holes': seq<Hole>) {
    && WellFormed(m) && m.status.Running? && m.worst && m.inQueue != [] && m.inQueue[0] == p
    && m.procs[p].swapIn && |taken| < m.cfg.nrHoles
    && HolesGo(m.holes, m.cfg.swapBase, m.procs[p].size, m.procs[p].base, taken, holes')
    && moved == m.procs[p].(base := m.holes[0].base, onSwap := false, swapIn := false)
  }

  lemma HeadTurn(m: Mem, p: nat, moved: Proc, taken: seq<Hole>, holes': seq<Hole>)
    requires TakesHead(m, p, moved, taken, holes')
    ensures var (m', i) := SwapInTurn(m, 0);
      && i == 0
      && m' == m.(holes := holes', procs := m.procs[p := moved], inQueue := m.inQueue[1..], ram := m'.ram)
  {
    var m1 := m.(holes := taken);
    assert AllocMem(m, m.procs[p].size) == (m1, Some(m.holes[0].base));
    LoadFields(m1, p, m.holes[0].base);
    assert m.inQueue[..0] + m.inQueue[1..] == m.inQueue[1..];
  }

  /** What happens to the holes: the first one goes, the swap space of process 2 joins the
      others; then that one goes, and the swap space of process 1 joins. */
  lemma HolesTurn()
    ensures HolesGo([Hole(5, 5), Hole(21, 10)], 11, 5, 11, [Hole(21, 10)], [Hole(11, 5), Hole(21, 10)])
    ensures HolesGo([Hole(11, 5), Hole(21, 10)], 11, 5, 16, [Hole(21, 10)], [Hole(16, 15)])
  {
    assert WorstFitFrom([Hole(5, 5), Hole(21, 10)], 11, 1, 0) == 0;
  }

  const SECOND_HOME := Proc(5, 5, false, false, false, false)
  const FIRST_HOME := Proc(11, 5, false, false, false, false)

  lemma FirstTurn()
    ensures TakesHead(RoomForOne(), 2, SECOND_HOME, [Hole(21, 10)], [Hole(11, 5), Hole(21, 10)])
  {
    HolesTurn();
    HeadGoes(RoomForOne(), 2, SECOND_HOME, [Hole(5, 5), Hole(21, 10)], [Hole(21, 10)], [Hole(11, 5), Hole(21, 10)]);
  }

  lemma HeadGoes(m: Mem, p: nat, moved: Proc, holes: seq<Hole>, taken: seq<Hole>, holes': seq<Hole>)
    requires WellFormed(m) && m.status.Running? && m.worst && m.inQueue != [] && m.inQueue[0] == p
    requires m.procs[p].swapIn && |taken| < m.cfg.nrHoles && m.holes == holes
    requires HolesGo(holes, m.cfg.swapBase, m.procs[p].size, m.procs[p].base, taken, holes')
    requires moved == m.procs[p].(base := holes[0].base, onSwap := false, swapIn := false)
    ensures TakesHead(m, p, moved, taken, holes')
  {
  }

  lemma SecondTurn(m: Mem)
    requires m == RoomForOne().(holes := [Hole(11, 5), Hole(21, 10)], procs := RoomForOne().procs[2 := SECOND_HOME],
                                inQueue := [1], ram := m.ram)
    ensures TakesHead(m, 1, FIRST_HOME, [Hole(21, 10)], [Hole(16, 15)])
  {
    HolesTurn();
    HeadGoes(m, 1, FIRST_HOME, [Hole(11, 5), Hole(21, 10)], [Hole(21, 10)], [Hole(16, 15)]);
  }

  lemma TwoTurns(m: Mem, m1: Mem, m2: Mem)
    requires WellFormed(m) && m.status.Running? && m.inQueue != [] && SwapInTurn(m, 0) == (m1, 0)
    requires WellFormed(m1) && m1.status.Running? && m1.inQueue != [] && SwapInTurn(m1, 0) == (m2, 0)
    requires m2.status.Running? && m2.inQueue == []
    ensures SwapIn(m) == m2
  {
    assert SwapInFrom(m, 0) == SwapInFrom(m1, 0) == SwapInFrom(m2, 0);
  }

  lemma BothSwappedIn()
    ensures SwapIn(RoomForOne()).status.Running? && |SwapIn(RoomForOne()).procs| == 3
    ensures SwapIn(RoomForOne()).procs[1] == FIRST_HOME
  {
    var m := RoomForOne();
    FirstTurn();
    HeadTurn(m, 2, SECOND_HOME, [Hole(21, 10)], [Hole(11, 5), Hole(21, 10)]);
    var m1 := SwapInTurn(m, 0).0;
    SecondTurn(m1);
    HeadTurn(m1, 1, FIRST_HOME, [Hole(21, 10)], [Hole(16, 15)]);
    TwoTurns(m, m1, SwapInTurn(m1, 0).0);
  }

  /** Process 2 takes the last regular clicks, and process 1 is then given the swap space that
      process 2 has left. */
  lemma SwapInBitesSwapArea()
    ensures exists m: Mem, a: Arena ::
      && Inv(m, a) && Roomy(m, a) && m.worst && SafeHead(m)
      && SwapIn(m).status.Running? && !Placed(m.cfg, SwapIn(m).procs)
  {
    var m := RoomForOne();
    RoomForOneInv();
    BothSwappedIn();
    assert !SwapIn(m).procs[1].onSwap && m.cfg.swapBase <= SwapIn(m).procs[1].base;
  }
}
