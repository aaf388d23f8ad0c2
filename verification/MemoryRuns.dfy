/** Whole runs of the memory manager: allocation, freeing, swapping in and out,
    swapping turned on and off, in any order. */
module MemoryRuns {
  import opened Conservation
  import opened HoleSpec
  import opened Ownership
  import Queues
  import opened Sets
  import opened SwapSpec

  // ---- Start-up ----

  /** The state while the chunks are being added: the first `i` of them are holes. */
  ghost predicate Starting(m: Mem, chunks: seq<Hole>, i: nat)
    requires i <= |chunks|
  {
    && m.status.Running? && Canonical(m.holes) && |m.holes| <= i
    && (forall c: nat :: Free(m.holes, c) <==> Free(chunks[..i], c))
    && (forall j | 0 <= j < i :: chunks[j].End() <= m.cfg.swapBase)
  }

  lemma NextChunk(holes: seq<Hole>, chunks: seq<Hole>, i: nat)
    requires i < |chunks| && Canonical(holes) && AllDisjoint([], chunks) && 0 < chunks[i].len
    requires forall c: nat :: Free(holes, c) <==> Free(chunks[..i], c)
    ensures Canonical(Release(holes, chunks[i].base, chunks[i].len))
    ensures forall c: nat :: Free(Release(holes, chunks[i].base, chunks[i].len), c) <==> Free(chunks[..i + 1], c)
  {
    var b := chunks[i];
    ChunkNotFree(chunks, i);
    DisjointClicks(holes, b.base, b.len);
    ReleaseMeaning(holes, b.base, b.len);
    assert chunks[..i + 1] == chunks[..i] + [b];
    forall c: nat
      ensures Free(chunks[..i + 1], c) <==> Free(chunks[..i], c) || b.Has(c)
    {
      FreeSnoc(chunks[..i], b, c);
    }
  }

  lemma AddChunkStarting(m: Mem, chunks: seq<Hole>, i: nat)
    requires i < |chunks| && Starting(m, chunks, i) && AllDisjoint([], chunks) && 0 < chunks[i].len && i < m.cfg.nrHoles
    ensures Starting(AddChunk(m, chunks[i]), chunks, i + 1)
  {
    NextChunk(m.holes, chunks, i);
    ReleaseSize(m.holes, chunks[i].base, chunks[i].len);
  }

  lemma ChunkNotFree(chunks: seq<Hole>, i: nat)
    requires i < |chunks| && AllDisjoint([], chunks)
    ensures forall c: nat | chunks[i].base <= c < chunks[i].base + chunks[i].len :: !Free(chunks[..i], c)
  {
  }

  lemma FreeSnoc(hs: seq<Hole>, b: Hole, c: nat)
    ensures Free(hs + [b], c) <==> Free(hs, c) || b.Has(c)
  {
    var all := hs + [b];
    if j :| 0 <= j < |hs| && hs[j].Has(c) {
      assert all[j].Has(c);
    }
    if b.Has(c) {
      assert all[|hs|].Has(c);
    }
    if j :| 0 <= j < |all| && all[j].Has(c) {
      assert j < |hs| ==> hs[j].Has(c);
    }
  }

  lemma {:induction false} AddChunksStarting(m: Mem, chunks: seq<Hole>, i: nat)
    requires i <= |chunks| && Starting(m, chunks, i) && AllDisjoint([], chunks) && |chunks| <= m.cfg.nrHoles
    requires forall j | 0 <= j < |chunks| :: 0 < chunks[j].len
    ensures Starting(AddChunks(m, chunks, i), chunks, |chunks|)
    ensures var m' := AddChunks(m, chunks, i); m' == m.(holes := m'.holes, cfg := m.cfg.(swapBase := m'.cfg.swapBase))
    decreases |chunks| - i
  {
    if i < |chunks| {
      AddChunkStarting(m, chunks, i);
      AddChunksStarting(AddChunk(m, chunks[i]), chunks, i + 1);
    }
  }

  /** After start-up, with disjoint chunks and a slot for each, exactly the clicks of the
      chunks are free and the ownership invariant holds. */
  lemma MemInitInv(cfg: Config, nrSlots: nat, chunks: seq<Hole>)
    requires cfg.lowUser < cfg.nrProcs <= nrSlots && 0 < cfg.clickSize
    requires AllDisjoint([], chunks) && |chunks| <= cfg.nrHoles && forall j | 0 <= j < |chunks| :: 0 < chunks[j].len
    ensures Inv(MemInit(cfg, nrSlots, chunks), Arena(chunks, 0))
    ensures forall c: nat :: Free(MemInit(cfg, nrSlots, chunks).holes, c) <==> Free(chunks, c)
  {
    var start := Mem(cfg, [], seq(nrSlots, _ => EMPTY_SLOT), cfg.lowUser, [], false, false, map[], map[], Running);
    AddChunksStarting(start, chunks, 0);
    assert chunks[..|chunks|] == chunks;
    var m := MemInit(cfg, nrSlots, chunks);
    assert forall p: nat, c: nat :: !Held(m.procs, p, c);
  }

  // ---- swap_in ----

  /** Every worst-fit scan that this swap_in makes goes right. */
  predicate SwapInLegal(m: Mem, i: nat)
    requires WellFormed(m) && (m.status.Running? ==> i <= |m.inQueue|)
    decreases |m.inQueue| - i
  {
    m.status.Running? && i < |m.inQueue| ==>
      && (m.procs[m.inQueue[i]].swapIn ==> SoundHead(m, m.procs[m.inQueue[i]].size))
      && var (m1, i1) := SwapInTurn(m, i); m1.status.Running? ==> SwapInLegal(m1, i1)
  }

  lemma LoadFields(m: Mem, p: nat, newBase: nat)
    requires p < |m.procs| && Load(m, p, newBase).status.Running?
    ensures var rmp := m.procs[p];
      Load(m, p, newBase) == m.(
        ram := CopyIn(m.cfg, m.ram, m.file, rmp.base, newBase, rmp.size),
        procs := m.procs[p := rmp.(base := newBase, onSwap := false, swapIn := false)],
        holes := Release(m.holes, rmp.base, rmp.size))
  {
    var rmp := m.procs[p];
    assert m.procs[p := rmp.(base := newBase)][p := rmp.(base := newBase, onSwap := false, swapIn := false)]
        == m.procs[p := rmp.(base := newBase, onSwap := false, swapIn := false)];
  }

  /** Reading a swapped-out image into the front of hole `k` changes nobody's image. */
  lemma LoadedCell(m: Mem, m': Mem, p: nat, k: nat, q: nat, i: nat)
    requires p < |m.procs| && k < |m.holes| && m.procs[p].size <= m.holes[k].len && m.procs[p].onSwap
    requires q < |m.procs| && i < m.procs[q].size && !m.holes[k].Has(m.procs[q].base + i)
    requires m'.cfg == m.cfg && m'.file == m.file
    requires m'.ram == CopyIn(m.cfg, m.ram, m.file, m.procs[p].base, m.holes[k].base, m.procs[p].size)
    requires m'.procs == m.procs[p := m.procs[p].(base := m.holes[k].base, onSwap := false, swapIn := false)]
    ensures Cell(m', m'.procs[q], i) == Cell(m, m.procs[q], i)
  {
    var from, to, n := m.procs[p].base, m.holes[k].base, m.procs[p].size;
    CopyInGet(m.cfg, m.ram, m.file, from, to, n, if q == p then to + i else m.procs[q].base + i);
  }

  /** One process swapped in from a sound state, the block cut from hole `k`. */
  lemma LoadKeeps(m: Mem, a: Arena, p: nat, k: nat)
    requires Inv(m, a) && Roomy(m, a) && p < |m.procs| && m.procs[p].onSwap
    requires k < |m.holes| && m.procs[p].size <= m.holes[k].len && m.holes[k].base < m.cfg.swapBase
    ensures var m' := Load(m.(holes := Bite(m.holes, k, m.procs[p].size)), p, m.holes[k].base);
      Inv(m', a) && Roomy(m', a) && SameImages(m, m')
  {
    var rmp := m.procs[p];
    var m1 := m.(holes := Bite(m.holes, k, rmp.size));
    var m' := Load(m1, p, m.holes[k].base);
    HoleBound(m, a);
    LoadFields(m1, p, m.holes[k].base);
    var moved := rmp.(base := m.holes[k].base, onSwap := false, swapIn := false);
    Exchanged(m.cfg, a, m.holes, m.procs, p, k, moved);
    SameLive(m.procs, m'.procs);
    forall q: nat | q < |m.procs|
      ensures Image(m', q) == Image(m, q)
    {
      forall i: nat | i < m.procs[q].size
        ensures Cell(m', m'.procs[q], i) == Cell(m, m.procs[q], i)
      {
        HeldOutsideHoles(m.cfg, a, m.holes, m.procs, q, i, k);
        LoadedCell(m, m', p, k, q, i);
      }
    }
  }

  /** Allocating for process `p` and loading its image. */
  lemma AllocAndLoad(m: Mem, a: Arena, p: nat)
    requires Inv(m, a) && Roomy(m, a) && p < |m.procs| && m.procs[p].swapIn && SoundHead(m, m.procs[p].size)
    ensures var (m1, base) := AllocMem(m, m.procs[p].size);
      && (base.None? ==> Inv(m1, a) && Roomy(m1, a) && SameImages(m, m1) && Progressed(m, m1))
      && (base.Some? ==> var m2 := Load(m1, p, base.value);
            Inv(m2, a) && Roomy(m2, a) && SameImages(m, m2) && m2.inQueue == m.inQueue)
  {
    var size := m.procs[p].size;
    AllocMemMeaning(m, a, size);
    var mid := LastPass(m, size);
    AllocOnceMeaning(mid, a, size);
    if AllocOnce(mid, size).1.Some? {
      var k :| 0 <= k < |mid.holes| && mid.holes[k].base == AllocOnce(mid, size).1.value < mid.cfg.swapBase
               && size <= mid.holes[k].len && AllocOnce(mid, size).0 == mid.(holes := Bite(mid.holes, k, size));
      LoadKeeps(mid, a, p, k);
    }
  }

  lemma DequeueKeeps(m: Mem, a: Arena, i: nat)
    requires Inv(m, a) && Roomy(m, a) && i < |m.inQueue|
    ensures Inv(Dequeue(m, i), a) && Roomy(Dequeue(m, i), a) && SameImages(m, Dequeue(m, i))
  {
    SameStorage(m, Dequeue(m, i));
  }

  /** Images depend on the process table and the two stores only. */
  lemma SameStorage(m: Mem, m': Mem)
    requires m'.cfg == m.cfg && m'.ram == m.ram && m'.file == m.file && |m'.procs| == |m.procs|
    requires forall p | 0 <= p < |m.procs| ::
               && m'.procs[p].base == m.procs[p].base && m'.procs[p].size == m.procs[p].size
               && m'.procs[p].onSwap == m.procs[p].onSwap
    ensures SameImages(m, m')
  {
    forall p: nat | p < |m.procs|
      ensures Image(m', p) == Image(m, p)
    {
      assert forall i: nat | i < m.procs[p].size :: Cell(m', m'.procs[p], i) == Cell(m, m.procs[p], i);
    }
  }

  lemma SameImagesTrans(m: Mem, m1: Mem, m2: Mem)
    requires SameImages(m, m1) && SameImages(m1, m2)
    ensures SameImages(m, m2)
  {
  }

  lemma SwapInTurnKeeps(m: Mem, a: Arena, i: nat)
    requires Inv(m, a) && Roomy(m, a) && i < |m.inQueue|
    requires m.procs[m.inQueue[i]].swapIn ==> SoundHead(m, m.procs[m.inQueue[i]].size)
    ensures var m' := SwapInTurn(m, i).0; Inv(m', a) && Roomy(m', a) && SameImages(m, m')
  {
    var p := m.inQueue[i];
    if !m.procs[p].swapIn {
      DequeueKeeps(m, a, i);
    } else {
      var (m1, base) := AllocMem(m, m.procs[p].size);
      AllocAndLoad(m, a, p);
      if base.Some? {
        var m2 := Load(m1, p, base.value);
        DequeueKeeps(m2, a, i);
        SameImagesTrans(m, m2, Dequeue(m2, i));
      }
    }
  }

  /** swap_in keeps the ownership of all clicks and every image. */
  lemma {:induction false} SwapInMeaning(m: Mem, a: Arena, i: nat)
    requires Inv(m, a) && Roomy(m, a) && i <= |m.inQueue| && SwapInLegal(m, i)
    ensures var m' := SwapInFrom(m, i); Inv(m', a) && Roomy(m', a) && SameImages(m, m')
    decreases |m.inQueue| - i
  {
    if i < |m.inQueue| {
      var (m1, i1) := SwapInTurn(m, i);
      SwapInTurnKeeps(m, a, i);
      SwapInMeaning(m1, a, i1);
      SameImagesTrans(m, m1, SwapInFrom(m1, i1));
    }
  }

  // ---- When swap_in goes right ----

  /** First fit needs no condition. */
  lemma {:induction false} FirstFitLegal(m: Mem, i: nat)
    requires WellFormed(m) && (m.status.Running? ==> i <= |m.inQueue|) && !m.worst
    ensures SwapInLegal(m, i)
    decreases |m.inQueue| - i
  {
    if m.status.Running? && i < |m.inQueue| {
      var (m1, i1) := SwapInTurn(m, i);
      if m1.status.Running? {
        FirstFitLegal(m1, i1);
      }
    }
  }

  /** The clicks of the queued processes that are marked for the way in. */
  function MarkedClicks(procs: seq<Proc>, q: seq<nat>): nat
    requires forall i | 0 <= i < |q| :: q[i] < |procs|
  {
    if q == [] then 0
    else
      assert forall i | 0 <= i < |q[1..]| :: q[1..][i] == q[i + 1];
      (if procs[q[0]].swapIn then procs[q[0]].size else 0) + MarkedClicks(procs, q[1..])
  }

  /** The processes in memory and those marked from position `i` on do not fill the memory. */
  predicate EnoughRoom(m: Mem, a: Arena, i: nat)
    requires WellFormed(m) && i <= |m.inQueue|
  {
    InUse(m.procs, false) + MarkedClicks(m.procs, m.inQueue[i..]) < Lens(a.chunks)
  }

  /** Swapping out leaves fewer clicks in memory. */
  lemma {:induction false} InUseShrinks(procs: seq<Proc>, procs': seq<Proc>)
    requires |procs'| == |procs|
    requires forall p | 0 <= p < |procs| :: procs'[p].size == procs[p].size && (procs[p].onSwap ==> procs'[p].onSwap)
    ensures InUse(procs', false) <= InUse(procs, false)
  {
    if procs != [] {
      InUseShrinks(procs[1..], procs'[1..]);
    }
  }

  lemma {:induction false} MarkedSame(procs: seq<Proc>, procs': seq<Proc>, q: seq<nat>)
    requires |procs'| == |procs| && forall i | 0 <= i < |q| :: q[i] < |procs|
    requires forall i | 0 <= i < |q| ::
      procs'[q[i]].size == procs[q[i]].size && procs'[q[i]].swapIn == procs[q[i]].swapIn
    ensures MarkedClicks(procs', q) == MarkedClicks(procs, q)
  {
    if q != [] {
      assert forall i | 0 <= i < |q[1..]| :: q[1..][i] == q[i + 1];
      MarkedSame(procs, procs', q[1..]);
    }
  }

  lemma MarkedNext(procs: seq<Proc>, q: seq<nat>, i: nat)
    requires i < |q| && forall j | 0 <= j < |q| :: q[j] < |procs|
    ensures MarkedClicks(procs, q[i..])
      == (if procs[q[i]].swapIn then procs[q[i]].size else 0) + MarkedClicks(procs, q[i + 1..])
  {
    assert q[i..][1..] == q[i + 1..];
  }

  /** A process that could not be loaded has at most made others leave. */
  lemma FailedTurnKeepsRoom(m: Mem, a: Arena, i: nat, m1: Mem)
    requires WellFormed(m) && WellFormed(m1) && i < |m.inQueue| && EnoughRoom(m, a, i) && Progressed(m, m1)
    ensures EnoughRoom(m1, a, i) && EnoughRoom(m1, a, i + 1)
  {
    InUseShrinks(m.procs, m1.procs);
    MarkedSame(m.procs, m1.procs, m.inQueue[i..]);
    MarkedNext(m1.procs, m1.inQueue, i);
  }

  /** A process that has been loaded is marked no longer. */
  lemma LoadedTurnKeepsRoom(m: Mem, a: Arena, i: nat, newBase: nat)
    requires WellFormed(m) && i < |m.inQueue| && EnoughRoom(m, a, i)
    requires m.procs[m.inQueue[i]].swapIn && m.procs[m.inQueue[i]].onSwap
    requires Load(m, m.inQueue[i], newBase).status.Running?
    ensures EnoughRoom(Dequeue(Load(m, m.inQueue[i], newBase), i), a, i)
  {
    var p := m.inQueue[i];
    var moved := m.procs[p].(base := newBase, onSwap := false, swapIn := false);
    LoadFields(m, p, newBase);
    InUseUpdate(m.procs, p, moved, false);
    MarkedNext(m.procs, m.inQueue, i);
    MarkedSame(m.procs, m.procs[p := moved], m.inQueue[i + 1..]);
    assert (m.inQueue[..i] + m.inQueue[i + 1..])[i..] == m.inQueue[i + 1..];
  }

  lemma TurnKeepsRoom(m: Mem, a: Arena, i: nat)
    requires Inv(m, a) && Roomy(m, a) && ChunksApart(a) && i < |m.inQueue| && EnoughRoom(m, a, i)
    ensures SafeHead(m)
    ensures var (m1, i1) := SwapInTurn(m, i); m1.status.Running? && EnoughRoom(m1, a, i1)
  {
    var p := m.inQueue[i];
    RoomMeansSafe(m, a);
    SwapInTurnKeeps(m, a, i);
    if !m.procs[p].swapIn {
      MarkedNext(m.procs, m.inQueue, i);
      assert (m.inQueue[..i] + m.inQueue[i + 1..])[i..] == m.inQueue[i + 1..];
    } else {
      var (m1, base) := AllocMem(m, m.procs[p].size);
      AllocMemMeaning(m, a, m.procs[p].size);
      AllocOnceMeaning(LastPass(m, m.procs[p].size), a, m.procs[p].size);
      FailedTurnKeepsRoom(m, a, i, m1);
      if base.Some? {
        LoadedTurnKeepsRoom(m1, a, i, base.value);
      }
    }
  }

  /** Worst fit needs room for all who are to come in, which can be seen before the call. */
  lemma {:induction false} RoomyLegal(m: Mem, a: Arena, i: nat)
    requires Inv(m, a) && Roomy(m, a) && ChunksApart(a) && i <= |m.inQueue| && EnoughRoom(m, a, i)
    ensures SwapInLegal(m, i)
    decreases |m.inQueue| - i
  {
    if i < |m.inQueue| {
      var (m1, i1) := SwapInTurn(m, i);
      TurnKeepsRoom(m, a, i);
      SwapInTurnKeeps(m, a, i);
      RoomyLegal(m1, a, i1);
    }
  }

  // ---- swap_on and swap_off ----

  /** Nothing is swapped out: the swap area is exactly one hole. */
  lemma SwapAreaIsOneHole(m: Mem, a: Arena)
    requires Inv(m, a) && NoneSwapped(m) && 0 < a.swapSize
    ensures m.holes[Regular(m.holes, m.cfg.swapBase)..] == [Hole(m.cfg.swapBase, a.swapSize)]
  {
    var limit, r := m.cfg.swapBase, Regular(m.holes, m.cfg.swapBase);
    forall c: nat | limit <= c < limit + a.swapSize
      ensures Free(m.holes, c)
    {
      assert Managed(m.cfg, a, c);
      if p: nat :| Held(m.procs, p, c) {
        assert m.procs[p].base < limit;
        BlockBelow(m, a, p, c);
      }
    }
    assert Free(m.holes, limit);
    var i :| 0 <= i < |m.holes| && m.holes[i].Has(limit);
    HoleStart(m, a, i);
    HoleEnd(m, a, i);
    RegularCount(m.holes, limit, i);
    if r + 1 < |m.holes| {
      assert m.holes[r + 1].Has(m.holes[r + 1].base);
      assert Free(m.holes, m.holes[r + 1].base);
      assert Managed(m.cfg, a, m.holes[r + 1].base);
      NoChunkAt(m.cfg, a, m.holes[r + 1].base);
    }
  }

  lemma HoleStart(m: Mem, a: Arena, i: nat)
    requires Inv(m, a) && i < |m.holes| && m.holes[i].Has(m.cfg.swapBase)
    ensures m.holes[i].base == m.cfg.swapBase
  {
    if m.holes[i].base < m.cfg.swapBase {
      var c := m.cfg.swapBase - 1;
      assert m.holes[i].Has(c);
      assert Free(m.holes, c);
      assert Managed(m.cfg, a, c);
      NoChunkAt(m.cfg, a, c);
    }
  }

  lemma HoleEnd(m: Mem, a: Arena, i: nat)
    requires Inv(m, a) && i < |m.holes| && m.holes[i].Has(m.cfg.swapBase) && 0 < a.swapSize
    requires forall c: nat | m.cfg.swapBase <= c < m.cfg.swapBase + a.swapSize :: Free(m.holes, c)
    ensures m.holes[i].End() == m.cfg.swapBase + a.swapSize
  {
    var e := m.holes[i].End();
    NotAdjacent(m.holes, i);
    assert m.holes[i].Has(e - 1);
    assert Free(m.holes, e - 1);
    assert Managed(m.cfg, a, e - 1);
    NoChunkAt(m.cfg, a, e - 1);
  }

  lemma RegularCount(holes: seq<Hole>, limit: nat, i: nat)
    requires Canonical(holes) && i < |holes| && holes[i].base == limit
    ensures Regular(holes, limit) == i
  {
  }

  /** What turning swapping off leaves of the arena. */
  ghost function ArenaAfterOff(m: Mem, a: Arena): Arena
    requires WellFormed(m)
  {
    if m.swapFd && SwapOff(m).1 then a.(swapSize := 0) else a
  }

  lemma EnqueueKeeps(m: Mem, a: Arena, p: nat)
    requires Inv(m, a) && Roomy(m, a) && p < |m.procs| && m.procs[p].onSwap
    ensures Inv(Enqueue(m, p), a) && Roomy(Enqueue(m, p), a) && SameImages(m, Enqueue(m, p))
  {
    var m' := Enqueue(m, p);
    SameStorage(m, m');
    SameLive(m.procs, m'.procs);
    SamePartition(m.cfg, a, m.holes, m.procs, m'.procs);
  }

  lemma SamePartition(cfg: Config, a: Arena, holes: seq<Hole>, procs: seq<Proc>, procs': seq<Proc>)
    requires Partition(cfg, a, holes, procs) && |procs'| == |procs|
    requires forall p | 0 <= p < |procs| :: procs'[p].base == procs[p].base && procs'[p].size == procs[p].size
    ensures Partition(cfg, a, holes, procs')
  {
    assert forall p: nat, c: nat :: Held(procs', p, c) <==> Held(procs, p, c);
  }

  lemma {:induction false} EnqueueSwappedKeeps(m: Mem, a: Arena, r: nat)
    requires Inv(m, a) && Roomy(m, a) && m.cfg.lowUser <= r <= m.cfg.nrProcs
    ensures var m' := EnqueueSwapped(m, r); Inv(m', a) && Roomy(m', a) && SameImages(m, m')
    decreases m.cfg.nrProcs - r
  {
    if r < m.cfg.nrProcs {
      var m1 := if m.procs[r].onSwap then Enqueue(m, r) else m;
      if m.procs[r].onSwap {
        EnqueueKeeps(m, a, r);
      } else {
        SameImagesSelf(m);
      }
      EnqueueSwappedKeeps(m1, a, r + 1);
      SameImagesTrans(m, m1, EnqueueSwapped(m1, r + 1));
    }
  }

  /** The state of swap_off when everything that fits has been swapped in. */
  function Returned(m: Mem): Mem
    requires WellFormed(m)
  {
    SwapIn(EnqueueSwapped(m, m.cfg.lowUser))
  }

  /** With nothing swapped out, the swap hole is alone exactly when all regular memory is in use. */
  lemma OnlySwapHole(m: Mem, a: Arena)
    requires Inv(m, a) && NoneSwapped(m)
    ensures Regular(m.holes, m.cfg.swapBase) == 0 && |m.holes| == 1
        <==> 0 < a.swapSize && forall c: nat | c < m.cfg.swapBase :: !Free(m.holes, c)
  {
    var limit, r := m.cfg.swapBase, Regular(m.holes, m.cfg.swapBase);
    if m.holes != [] {
      var c := m.holes[0].base;
      assert m.holes[0].Has(c);
      assert Free(m.holes, c);
      assert Managed(m.cfg, a, c);
      if r == 0 {
        NoChunkAt(m.cfg, a, c);
        AboveLimit(m.holes, limit);
      }
    }
    if 0 < a.swapSize {
      SwapAreaIsOneHole(m, a);
      assert m.holes == m.holes[..r] + m.holes[r..];
    }
  }

  lemma AboveLimit(holes: seq<Hole>, limit: nat)
    requires Canonical(holes) && holes != [] && limit <= holes[0].base
    ensures forall c: nat | c < limit :: !Free(holes, c)
  {
  }

  lemma CloseFault(m: Mem, a: Arena)
    requires Inv(m, a) && NoneSwapped(m)
    ensures CloseSwap(m).0.status.NilDereference?
        <==> 0 < a.swapSize && forall c: nat | c < m.cfg.swapBase :: !Free(m.holes, c)
  {
    DropSwapMeaning(m.holes, m.cfg.swapBase);
    OnlySwapHole(m, a);
  }

  /** swap_off follows a nil pointer exactly when nothing is left on swap and no
      regular click is free. */
  lemma SwapOffFault(m: Mem, a: Arena)
    requires Inv(m, a) && Roomy(m, a) && m.swapFd && SwapInLegal(EnqueueSwapped(m, m.cfg.lowUser), 0)
    ensures SwapOff(m).0.status.NilDereference?
        <==> NoneSwapped(Returned(m)) && 0 < a.swapSize
             && forall c: nat | c < m.cfg.swapBase :: !Free(Returned(m).holes, c)
  {
    EnqueueSwappedKeeps(m, a, m.cfg.lowUser);
    SwapInMeaning(EnqueueSwapped(m, m.cfg.lowUser), a, 0);
    assert Returned(m).cfg == m.cfg;
    if NoneSwapped(Returned(m)) {
      CloseFault(Returned(m), a);
    }
  }

  /** Otherwise swap_off keeps everything, and when it succeeds the swap area is gone. */
  lemma SwapOffMeaning(m: Mem, a: Arena)
    requires Inv(m, a) && Roomy(m, a) && m.swapFd && SwapInLegal(EnqueueSwapped(m, m.cfg.lowUser), 0)
    ensures !SwapOff(m).0.status.NilDereference? ==>
      var m' := SwapOff(m).0; Inv(m', ArenaAfterOff(m, a)) && Roomy(m', a) && SameImages(m, m')
    ensures SwapOff(m).1 <==> NoneSwapped(Returned(m)) && !SwapOff(m).0.status.NilDereference?
  {
    EnqueueSwappedKeeps(m, a, m.cfg.lowUser);
    SwapInMeaning(EnqueueSwapped(m, m.cfg.lowUser), a, 0);
    var m1, m' := Returned(m), SwapOff(m).0;
    SameImagesTrans(m, EnqueueSwapped(m, m.cfg.lowUser), m1);
    DropSwapMeaning(m1.holes, m.cfg.swapBase);
    if NoneSwapped(m1) && !m'.status.NilDereference? {
      CutSwapArea(m1, a);
      SameStorage(m1, m');
      SameImagesTrans(m, m1, m');
    }
  }

  lemma CutSwapArea(m: Mem, a: Arena)
    requires Inv(m, a) && NoneSwapped(m) && !DropSwap(m.holes, m.cfg.swapBase, 0).1
    ensures var hs := DropSwap(m.holes, m.cfg.swapBase, 0).0;
      Canonical(hs) && Partition(m.cfg, a.(swapSize := 0), hs, m.procs)
  {
    var limit, r := m.cfg.swapBase, Regular(m.holes, m.cfg.swapBase);
    var hs := m.holes[..r];
    var a' := a.(swapSize := 0);
    DropSwapMeaning(m.holes, limit);
    if r == 0 && m.holes != [] {
      OnlyRegular(m, a);
    }
    assert hs == DropSwap(m.holes, limit, 0).0;
    forall c: nat
      ensures Free(hs, c) <==> Free(m.holes, c) && c < limit
    {
      CutFree(m, a, c);
    }
    forall p: nat, c: nat | Held(m.procs, p, c)
      ensures c < limit
    {
      BlockBelow(m, a, p, c);
    }
    forall c: nat | limit <= c
      ensures !Managed(m.cfg, a', c)
    {
      NoChunkAt(m.cfg, a, c);
    }
    assert forall c: nat | c < limit :: Managed(m.cfg, a', c) <==> Managed(m.cfg, a, c);
  }

  /** Without a swap area, or with more than one hole, a head hole above the limit is impossible. */
  lemma OnlyRegular(m: Mem, a: Arena)
    requires Inv(m, a) && NoneSwapped(m) && |m.holes| != 1 && m.holes != []
    ensures 0 < Regular(m.holes, m.cfg.swapBase)
  {
    var r := Regular(m.holes, m.cfg.swapBase);
    if r == 0 {
      var c := m.holes[0].base;
      assert m.holes[0].Has(c);
      assert Free(m.holes, c);
      assert Managed(m.cfg, a, c);
      NoChunkAt(m.cfg, a, c);
      SwapAreaIsOneHole(m, a);
    }
  }

  // ---- When swap_off goes right ----

  lemma {:induction false} NothingEnqueued(m: Mem, r: nat)
    requires WellFormed(m) && m.cfg.lowUser <= r <= m.cfg.nrProcs && NoneSwapped(m)
    ensures EnqueueSwapped(m, r) == m
    decreases m.cfg.nrProcs - r
  {
    if r < m.cfg.nrProcs {
      NothingEnqueued(m, r + 1);
    }
  }

  predicate NoneMarked(m: Mem) {
    forall p | 0 <= p < |m.procs| :: !m.procs[p].swapIn
  }

  /** Swapping in with nobody marked cleans the queue and does nothing else. */
  lemma {:induction false} NothingLoaded(m: Mem, i: nat)
    requires WellFormed(m) && m.status.Running? && i <= |m.inQueue| && NoneMarked(m)
    ensures SwapInLegal(m, i) && SwapInFrom(m, i) == m.(inQueue := m.inQueue[..i])
    decreases |m.inQueue| - i
  {
    if i < |m.inQueue| {
      NothingLoaded(Dequeue(m, i), i);
      assert (m.inQueue[..i] + m.inQueue[i + 1..])[..i] == m.inQueue[..i];
    } else {
      assert m.inQueue[..i] == m.inQueue;
    }
  }

  lemma NothingReturned(m: Mem, a: Arena)
    requires Inv(m, a) && NoneSwapped(m)
    ensures Returned(m) == m.(inQueue := []) && SwapInLegal(EnqueueSwapped(m, m.cfg.lowUser), 0)
  {
    NothingEnqueued(m, m.cfg.lowUser);
    NothingLoaded(m, 0);
  }

  /** With nothing swapped out swap_off follows a nil pointer exactly when there is a swap area
      and no regular click is free. */
  lemma SwapOffFaultNow(m: Mem, a: Arena)
    requires Inv(m, a) && Roomy(m, a) && m.swapFd && NoneSwapped(m)
    ensures SwapOff(m).0.status.NilDereference?
      <==> 0 < a.swapSize && forall c: nat | c < m.cfg.swapBase :: !Free(m.holes, c)
  {
    NothingReturned(m, a);
    SwapOffFault(m, a);
  }

  /** With everything in memory no regular click is free exactly when the processes are as
      large as the chunks together. */
  lemma FullExact(m: Mem, a: Arena)
    requires Inv(m, a) && ChunksApart(a) && NoneSwapped(m)
    ensures (forall c: nat | c < m.cfg.swapBase :: !Free(m.holes, c)) <==> InUse(m.procs, true) == Lens(a.chunks)
  {
    var r := Regular(m.holes, m.cfg.swapBase);
    ConservedBelow(m, a);
    AllResident(m.procs);
    LensZero(m.holes[..r]);
    if 0 < r {
      assert m.holes[0].Has(m.holes[0].base);
      assert Free(m.holes, m.holes[0].base);
    } else {
      forall c: nat | c < m.cfg.swapBase
        ensures !Free(m.holes, c)
      {
        CutFree(m, a, c);
      }
    }
  }

  lemma {:induction false} AllResident(procs: seq<Proc>)
    requires forall p | 0 <= p < |procs| :: !procs[p].onSwap
    ensures InUse(procs, false) == InUse(procs, true)
  {
    if procs != [] {
      AllResident(procs[1..]);
    }
  }

  lemma LensZero(holes: seq<Hole>)
    requires Canonical(holes)
    ensures Lens(holes) == 0 <==> holes == []
  {
  }

  /** The processes do not exactly fill the memory, or there is no swap area. */
  predicate NotBrimful(m: Mem, a: Arena) {
    a.swapSize == 0 || InUse(m.procs, true) != Lens(a.chunks)
  }

  lemma {:induction false} SameInUse(procs: seq<Proc>, procs': seq<Proc>)
    requires |procs'| == |procs| && forall p | 0 <= p < |procs| :: procs'[p].size == procs[p].size
    ensures InUse(procs', true) == InUse(procs, true)
  {
    if procs != [] {
      SameInUse(procs[1..], procs'[1..]);
    }
  }

  lemma ImagesSameSize(m: Mem, m': Mem)
    requires SameImages(m, m')
    ensures InUse(m'.procs, true) == InUse(m.procs, true)
  {
    forall p: nat | p < |m.procs|
      ensures m'.procs[p].size == m.procs[p].size
    {
      assert |Image(m', p)| == |Image(m, p)|;
    }
    SameInUse(m.procs, m'.procs);
  }

  /** Unless the processes exactly fill the memory, swap_off follows no nil pointer. */
  lemma SwapOffSafe(m: Mem, a: Arena)
    requires Inv(m, a) && Roomy(m, a) && ChunksApart(a) && m.swapFd && SwapInLegal(EnqueueSwapped(m, m.cfg.lowUser), 0)
    requires NotBrimful(m, a)
    ensures !SwapOff(m).0.status.NilDereference?
  {
    EnqueueSwappedKeeps(m, a, m.cfg.lowUser);
    SwapInMeaning(EnqueueSwapped(m, m.cfg.lowUser), a, 0);
    SameImagesTrans(m, EnqueueSwapped(m, m.cfg.lowUser), Returned(m));
    SwapOffFault(m, a);
    if NoneSwapped(Returned(m)) {
      ImagesSameSize(m, Returned(m));
      FullExact(Returned(m), a);
    }
  }

  /** With nothing swapped out that is exact. */
  lemma SwapOffExact(m: Mem, a: Arena)
    requires Inv(m, a) && Roomy(m, a) && ChunksApart(a) && m.swapFd && NoneSwapped(m)
    ensures SwapOff(m).0.status.NilDereference? <==> !NotBrimful(m, a)
  {
    SwapOffFaultNow(m, a);
    FullExact(m, a);
  }

  /** Those marked on the queue are on swap, so with those in memory they are no more than all. */
  lemma {:induction false} MarkedBound(procs: seq<Proc>, q: seq<nat>)
    requires Queues.Distinct(q) && forall i | 0 <= i < |q| :: q[i] < |procs|
    requires forall p | 0 <= p < |procs| && procs[p].swapIn && p in q :: procs[p].onSwap
    ensures InUse(procs, false) + MarkedClicks(procs, q) <= InUse(procs, true)
    decreases q
  {
    if q == [] {
      SomeResident(procs);
    } else {
      assert forall i | 0 <= i < |q[1..]| :: q[1..][i] == q[i + 1];
      var p := q[0];
      var home := procs[p].(onSwap := false);
      assert p !in q[1..];
      if procs[p].swapIn {
        MarkedBound(procs[p := home], q[1..]);
        InUseUpdate(procs, p, home, false);
        InUseUpdate(procs, p, home, true);
        MarkedSame(procs, procs[p := home], q[1..]);
      } else {
        MarkedBound(procs, q[1..]);
      }
    }
  }

  lemma {:induction false} SomeResident(procs: seq<Proc>)
    ensures InUse(procs, false) <= InUse(procs, true)
  {
    if procs != [] {
      SomeResident(procs[1..]);
    }
  }

  /** What can be seen before swap_off: all processes together leave a click of memory, or
      first fit is in use and they do not exactly fill it. */
  predicate CanSwapOff(m: Mem, a: Arena) {
    m.swapFd ==> InUse(m.procs, true) < Lens(a.chunks) || (!m.worst && NotBrimful(m, a))
  }

  lemma SwapOffLegal(m: Mem, a: Arena)
    requires Inv(m, a) && Roomy(m, a) && ChunksApart(a) && m.swapFd && CanSwapOff(m, a)
    ensures SwapInLegal(EnqueueSwapped(m, m.cfg.lowUser), 0) && !SwapOff(m).0.status.NilDereference?
  {
    var m1 := EnqueueSwapped(m, m.cfg.lowUser);
    EnqueueSwappedKeeps(m, a, m.cfg.lowUser);
    if m.worst {
      ImagesSameSize(m, m1);
      MarkedBound(m1.procs, m1.inQueue);
      assert m1.inQueue[0..] == m1.inQueue;
      RoomyLegal(m1, a, 0);
    } else {
      FirstFitLegal(m1, 0);
    }
    SwapOffSafe(m, a);
  }

  /** Turning swapping on adds the swap area, as far as addresses reach. */
  lemma SwapOnMeaning(m: Mem, a: Arena, offset: nat, bytes: nat)
    requires Inv(m, a) && Roomy(m, a) && !m.swapFd
    ensures var m' := SwapOn(m, offset, bytes).0;
      Inv(m', a.(swapSize := SwapClicks(m.cfg, bytes))) && Roomy(m', a) && SameImages(m, m')
  {
    var clicks, base := SwapClicks(m.cfg, bytes), m.cfg.swapBase;
    var m', a' := SwapOn(m, offset, bytes).0, a.(swapSize := SwapClicks(m.cfg, bytes));
    HoleBound(m, a);
    forall c: nat | base <= c < base + clicks
      ensures !Free(m.holes, c) && !Managed(m.cfg, a, c)
    {
      NoChunkAt(m.cfg, a, c);
    }
    DisjointClicks(m.holes, base, clicks);
    ReleaseMeaning(m.holes, base, clicks);
    assert forall c: nat :: Managed(m'.cfg, a', c) <==> Managed(m.cfg, a, c) || base <= c < base + clicks;
    forall p: nat | p < |m.procs|
      ensures Image(m', p) == Image(m, p)
    {
      if m.procs[p].onSwap && 0 < m.procs[p].size {
        var c := m.procs[p].base;
        assert Held(m.procs, p, c) && Managed(m.cfg, a, c);
        NoChunkAt(m.cfg, a, c);
        assert false;
      }
    }
  }

  // ---- Worst fit without a regular head hole ----

  /** The result is outside regular memory, or the manager dies on the way. */
  predicate GoesWrong(m: Mem, clicks: nat)
    requires WellFormed(m) && m.status.Running?
  {
    var (m', base) := AllocMem(m, clicks);
    m'.status.NilDereference? || (base.Some? && m.cfg.swapBase <= base.value)
  }

  /** Worst fit goes wrong exactly when there is no hole at all, or when the head hole
      lies in the swap area and is big enough. */
  lemma WorstFitGoesWrong(m: Mem, a: Arena, clicks: nat)
    requires Inv(m, a) && Roomy(m, a) && m.worst
    ensures GoesWrong(m, clicks) <==> !SoundHead(m, clicks)
    ensures !SoundHead(m, clicks) <==> m.holes == [] || (m.cfg.swapBase <= m.holes[0].base && clicks <= m.holes[0].len)
  {
    if SoundHead(m, clicks) {
      AllocMemMeaning(m, a, clicks);
      AllocOnceMeaning(LastPass(m, clicks), a, clicks);
    } else if m.holes != [] {
      WorstFitIrregularHead(m.holes, m.cfg.swapBase);
    }
  }

  // ---- Runs ----

  /** The calls and events that move memory around. `Fork` allocates for an empty slot,
      `Exit` frees the block of a slot; `Write` is a resident process storing a word. */
  datatype Op =
    | Fork(p: nat, clicks: nat)
    | Exit(p: nat)
    | PushOut
    | PullIn
    | Ask(p: nat)
    | Policy(worst: bool)
    | Flags(p: nat, blocked: bool, avoid: bool)
    | Write(p: nat, i: nat, w: Word)
    | On(offset: nat, bytes: nat)
    | Off

  /** What the callers of the memory manager may ask for in this state, as far as they can see
      it. Worst fit must not be led to hand out the swap area, swap_off must not be left without
      a hole, and a fork has to leave room in the table. */
  predicate Legal(m: Mem, a: Arena, op: Op)
    requires WellFormed(m)
  {
    match op
    case Fork(p, n) =>
      p < |m.procs| && m.procs[p] == EMPTY_SLOT && SoundHead(m, n) && |Live(m.procs)| + |a.chunks| + 2 < m.cfg.nrHoles
    case Exit(p) => p < |m.procs|
    case PushOut => true
    case PullIn => !m.worst || EnoughRoom(m, a, 0)
    case Ask(p) => p < |m.procs| && m.procs[p].onSwap
    case Policy(w) => true
    case Flags(p, b, v) => p < |m.procs|
    case Write(p, i, w) => p < |m.procs| && !m.procs[p].onSwap && i < m.procs[p].size
    case On(o, b) => true
    case Off => CanSwapOff(m, a)
  }

  function Apply(m: Mem, op: Op): (m': Mem)
    requires WellFormed(m) && m.status.Running?
    requires op.Fork? || op.Exit? || op.Ask? || op.Flags? || op.Write? ==> op.p < |m.procs|
    ensures |m'.procs| == |m.procs|
  {
    match op
    case Fork(p, n) =>
      var (m1, base) := AllocMem(m, n);
      if base.Some? then m1.(procs := m1.procs[p := Proc(base.value, n, false, false, false, false)]) else m1
    case Exit(p) =>
      GiveBack(m, m.procs[p].base, m.procs[p].size).(procs := m.procs[p := EMPTY_SLOT])
    case PushOut => SwapOut(m).0
    case PullIn => SwapIn(m)
    case Ask(p) => Enqueue(m, p)
    case Policy(w) => m.(worst := w)
    case Flags(p, b, v) => m.(procs := m.procs[p := m.procs[p].(blocked := b, avoid := v)])
    case Write(p, i, w) => m.(ram := m.ram[m.procs[p].base + i := w])
    case On(o, b) => SwapOn(m, o, b).0
    case Off => SwapOff(m).0
  }

  ghost function ArenaAfter(m: Mem, a: Arena, op: Op): Arena
    requires WellFormed(m)
  {
    match op
    case On(o, b) => if m.swapFd then a else a.(swapSize := SwapClicks(m.cfg, b))
    case Off => ArenaAfterOff(m, a)
    case _ => a
  }

  /** The step is about process `p` itself: it starts, ends, or stores a word. */
  predicate Concerns(op: Op, p: nat) {
    (op.Fork? || op.Exit? || op.Write?) && op.p == p
  }

  /** What one step keeps. */
  ghost predicate StepKeeps(m: Mem, a: Arena, op: Op, m': Mem) {
    && Inv(m', a) && Roomy(m', a) && |m'.procs| == |m.procs|
    && forall q: nat | q < |m.procs| && !Concerns(op, q) :: Image(m', q) == Image(m, q)
  }

  lemma ForkFrom(mid: Mem, a: Arena, k: nat, p: nat, n: nat)
    requires Inv(mid, a) && p < |mid.procs| && mid.procs[p].size == 0
    requires k < |mid.holes| && n <= mid.holes[k].len && mid.holes[k].base < mid.cfg.swapBase
    ensures var procs := mid.procs[p := Proc(mid.holes[k].base, n, false, false, false, false)];
      && Inv(mid.(holes := Bite(mid.holes, k, n), procs := procs), a)
      && |Live(procs)| <= |Live(mid.procs)| + 1
  {
    var born := Proc(mid.holes[k].base, n, false, false, false, false);
    BiteMeaning(mid.holes, k, n);
    BittenWereFree(mid.holes, k, n);
    Rehomed(mid.cfg, a, mid.holes, mid.procs, p, born, Bite(mid.holes, k, n));
    SubsetSize(Live(mid.procs[p := born]), Live(mid.procs) + {p});
  }

  lemma ForkStep(m: Mem, a: Arena, p: nat, n: nat)
    requires Inv(m, a) && Roomy(m, a) && Legal(m, a, Fork(p, n))
    ensures StepKeeps(m, a, Fork(p, n), Apply(m, Fork(p, n)))
  {
    AllocMemMeaning(m, a, n);
    var mid, m' := LastPass(m, n), Apply(m, Fork(p, n));
    AllocOnceMeaning(mid, a, n);
    if AllocOnce(mid, n).1.Some? {
      var k :| 0 <= k < |mid.holes| && mid.holes[k].base == AllocOnce(mid, n).1.value < mid.cfg.swapBase
               && n <= mid.holes[k].len && AllocOnce(mid, n).0 == mid.(holes := Bite(mid.holes, k, n));
      SameLive(m.procs, mid.procs);
      ForkFrom(mid, a, k, p, n);
      ForkImages(m, mid, m', p);
    }
  }

  lemma ForkImages(m: Mem, mid: Mem, m': Mem, p: nat)
    requires SameImages(m, mid) && p < |m'.procs| == |m.procs| && m'.procs == mid.procs[p := m'.procs[p]]
    requires m'.cfg == mid.cfg && m'.ram == mid.ram && m'.file == mid.file
    ensures forall q: nat | q < |m.procs| && q != p :: Image(m', q) == Image(m, q)
  {
    forall q: nat | q < |m.procs| && q != p
      ensures Image(m', q) == Image(m, q)
    {
      assert forall i: nat | i < mid.procs[q].size :: Cell(m', m'.procs[q], i) == Cell(mid, mid.procs[q], i);
      assert Image(m', q) == Image(mid, q);
    }
  }

  lemma ExitStep(m: Mem, a: Arena, p: nat)
    requires Inv(m, a) && Roomy(m, a) && p < |m.procs|
    ensures StepKeeps(m, a, Exit(p), Apply(m, Exit(p)))
  {
    var rmp, m' := m.procs[p], Apply(m, Exit(p));
    HoleBound(m, a);
    forall c: nat | rmp.Holds(c)
      ensures !Free(m.holes, c)
    {
      assert Held(m.procs, p, c);
    }
    DisjointClicks(m.holes, rmp.base, rmp.size);
    ReleaseMeaning(m.holes, rmp.base, rmp.size);
    Rehomed(m.cfg, a, m.holes, m.procs, p, EMPTY_SLOT, m'.holes);
    SubsetSize(Live(m'.procs), Live(m.procs));
    SameImagesSelf(m);
    ForkImages(m, m, m', p);
  }

  lemma SameImagesSelf(m: Mem)
    ensures SameImages(m, m)
  {
  }

  /** A word stored by one process is in nobody else's image. */
  lemma WriteElsewhere(m: Mem, a: Arena, p: nat, i: nat, w: Word, q: nat)
    requires Inv(m, a) && Legal(m, a, Write(p, i, w)) && q < |m.procs| && q != p
    ensures Image(Apply(m, Write(p, i, w)), q) == Image(m, q)
  {
    var m' := Apply(m, Write(p, i, w));
    assert Held(m.procs, p, m.procs[p].base + i);
    forall j: nat | j < m.procs[q].size
      ensures Cell(m', m'.procs[q], j) == Cell(m, m.procs[q], j)
    {
      assert Held(m.procs, q, m.procs[q].base + j);
    }
  }

  lemma WriteStep(m: Mem, a: Arena, p: nat, i: nat, w: Word)
    requires Inv(m, a) && Roomy(m, a) && Legal(m, a, Write(p, i, w))
    ensures var m' := Apply(m, Write(p, i, w));
      StepKeeps(m, a, Write(p, i, w), m') && Image(m', p) == Image(m, p)[i := w]
  {
    var m' := Apply(m, Write(p, i, w));
    forall q: nat | q < |m.procs| && q != p
      ensures Image(m', q) == Image(m, q)
    {
      WriteElsewhere(m, a, p, i, w, q);
    }
    assert forall j: nat | j < m.procs[p].size ::
      Cell(m', m'.procs[p], j) == if j == i then w else Cell(m, m.procs[p], j);
  }

  lemma FlagsStep(m: Mem, a: Arena, p: nat, b: bool, v: bool)
    requires Inv(m, a) && Roomy(m, a) && p < |m.procs|
    ensures StepKeeps(m, a, Flags(p, b, v), Apply(m, Flags(p, b, v)))
  {
    var m' := Apply(m, Flags(p, b, v));
    SameStorage(m, m');
    SameLive(m.procs, m'.procs);
    SamePartition(m.cfg, a, m.holes, m.procs, m'.procs);
  }

  lemma PullInLegal(m: Mem, a: Arena)
    requires Inv(m, a) && Roomy(m, a) && ChunksApart(a) && Legal(m, a, PullIn)
    ensures SwapInLegal(m, 0)
  {
    if m.worst {
      RoomyLegal(m, a, 0);
    } else {
      FirstFitLegal(m, 0);
    }
  }

  /** Every legal step keeps the ownership of all clicks, the manager running, and the
      image of every process the step is not about. */
  lemma Step(m: Mem, a: Arena, op: Op)
    requires Inv(m, a) && Roomy(m, a) && ChunksApart(a) && Legal(m, a, op)
    ensures StepKeeps(m, ArenaAfter(m, a, op), op, Apply(m, op))
  {
    SameImagesSelf(m);
    match op
    case Fork(p, n) => ForkStep(m, a, p, n);
    case Exit(p) => ExitStep(m, a, p);
    case PushOut =>
      match SearchFrom(m, m.outswap) {
        case None =>
        case Some(r) => SwapOutKeeps(m, a, r);
      }
    case PullIn =>
      PullInLegal(m, a);
      SwapInMeaning(m, a, 0);
    case Ask(p) => EnqueueKeeps(m, a, p);
    case Policy(w) => SameStorage(m, Apply(m, op));
    case Flags(p, b, v) => FlagsStep(m, a, p, b, v);
    case Write(p, i, w) => WriteStep(m, a, p, i, w);
    case On(o, b) => if !m.swapFd { SwapOnMeaning(m, a, o, b); }
    case Off =>
      if m.swapFd {
        SwapOffLegal(m, a);
        SwapOffMeaning(m, a);
      }
  }

  ghost predicate LegalRun(m: Mem, a: Arena, ops: seq<Op>)
    requires Inv(m, a) && Roomy(m, a) && ChunksApart(a)
    decreases |ops|
  {
    ops != [] ==>
      && Legal(m, a, ops[0])
      && (Step(m, a, ops[0]); LegalRun(Apply(m, ops[0]), ArenaAfter(m, a, ops[0]), ops[1..]))
  }

  ghost function Run(m: Mem, a: Arena, ops: seq<Op>): (r: (Mem, Arena))
    requires Inv(m, a) && Roomy(m, a) && ChunksApart(a) && LegalRun(m, a, ops)
    decreases |ops|
  {
    if ops == [] then (m, a)
    else
      Step(m, a, ops[0]);
      Run(Apply(m, ops[0]), ArenaAfter(m, a, ops[0]), ops[1..])
  }

  /** Over any legal run every managed click keeps exactly one owner, the manager never
      dies, and a process that does nothing itself finds its image unchanged. */
  lemma {:induction false} RunMeaning(m: Mem, a: Arena, ops: seq<Op>)
    requires Inv(m, a) && Roomy(m, a) && ChunksApart(a) && LegalRun(m, a, ops)
    ensures var (m', a') := Run(m, a, ops);
      && Inv(m', a') && Roomy(m', a') && a'.chunks == a.chunks && |m'.procs| == |m.procs|
      && forall q: nat | q < |m.procs| && (forall i | 0 <= i < |ops| :: !Concerns(ops[i], q)) ::
          Image(m', q) == Image(m, q)
    decreases |ops|
  {
    if ops != [] {
      Step(m, a, ops[0]);
      RunMeaning(Apply(m, ops[0]), ArenaAfter(m, a, ops[0]), ops[1..]);
      assert forall q | forall i | 0 <= i < |ops| :: !Concerns(ops[i], q) ::
          !Concerns(ops[0], q) && forall i | 0 <= i < |ops[1..]| :: !Concerns(ops[1..][i], q);
    }
  }
}
