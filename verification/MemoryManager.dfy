/** The memory manager itself: global variables, the hole table and the process table,
    updated in place. Every method is tied to the function of `SwapSpec` it computes. */
module MemoryManager {
  import opened HoleSpec
  import opened HoleTables
  import opened Options
  import Queues
  import opened SwapSpec

  /** Linking a slot behind the last one on the queue, wherever it was before. */
  lemma JoinedChain(next: seq<int>, q: seq<nat>, p: nat)
    requires Queues.Chain(next, q) && Queues.Distinct(q) && p < |next|
    ensures q == [] ==> Queues.Chain(next[p := Queues.NIL], Joined(q, p))
    ensures q != [] ==>
      Queues.Last(q) < |next| && Queues.Chain(next[Queues.Last(q) := p][p := Queues.NIL], Joined(q, p))
    ensures q != [] ==> Queues.First(Joined(q, p)) == Queues.First(q)
  {
    JoinedMeaning(q, p);
    if p !in q {
      Queues.ChainAppend(next, q, p);
    } else {
      var j: nat :| j < |q| && q[j] == p;
      var last := Queues.Last(q);
      JoinedCuts(q, j);
      Queues.ChainAt(next, q, |q| - 1);
      var next', q' := next[last := p][p := Queues.NIL], q[..j + 1];
      forall i: nat | i < |q'|
        ensures Queues.LinkAt(next', q', i)
      {
        Queues.ChainAt(next, q, i);
      }
    }
  }

  /** A walk along the queue stands at position `i`, with the slot in front of it at hand. */
  predicate Cursor(q: seq<nat>, rmp: int, previous: int, i: nat) {
    i <= |q| && rmp == Queues.First(q[i..]) && previous == if i == 0 then Queues.NIL else q[i - 1]
  }

  class Manager {
    const lowUser: nat
    const nrProcs: nat
    const swapMax: nat
    const clickSize: nat
    const table: HoleTable
    const mproc: array<Proc>
    // The queue of processes to swap in: its first slot, and the link of each slot.
    var inHead: int
    const swapq: array<int>
    var swapBase: nat
    var swapOffset: nat
    var swapFd: bool
    var outswap: nat
    var worst: bool
    var status: Status
    // What rw_seg reads and writes.
    var ram: Store
    var file: Store
    // The queue that the links stand for.
    ghost var inQueue: seq<nat>

    ghost predicate Valid()
      reads this, table, table.hole, mproc, swapq
    {
      && table.Valid()
      && WellFormed(State())
      && swapq.Length == mproc.Length && Queues.Chain(swapq[..], inQueue) && inHead == Queues.First(inQueue)
    }

    function Cfg(): Config
      reads this
    {
      Config(lowUser, nrProcs, table.hole.Length, swapBase, swapMax, swapOffset, clickSize)
    }

    /** The whole state as a value. */
    ghost function State(): (m: Mem)
      requires table.Valid()
      reads this, table, table.hole, mproc
      ensures m.status == status && |m.procs| == mproc.Length
    {
      Mem(Cfg(), table.Contents(), mproc[..], outswap, inQueue, worst, swapFd, ram, file, status)
    }

    /** mem_init: one hole for each chunk the kernel reports, up to the first empty one. */
    constructor (lowUser: nat, nrProcs: nat, nrSlots: nat, nrHoles: nat, swapMax: nat, clickSize: nat,
      chunks: seq<Hole>)
      requires lowUser < nrProcs <= nrSlots && 0 < clickSize && 0 < nrHoles
      ensures Valid() && fresh(table) && fresh(table.hole) && fresh(mproc) && fresh(swapq)
      ensures State() == MemInit(Config(lowUser, nrProcs, nrHoles, 0, swapMax, 0, clickSize), nrSlots, chunks)
    {
      this.lowUser, this.nrProcs, this.swapMax, this.clickSize := lowUser, nrProcs, swapMax, clickSize;
      table := new HoleTable(nrHoles);
      mproc := new Proc[nrSlots](_ => EMPTY_SLOT);
      swapq := new int[nrSlots](_ => Queues.NIL);
      inHead := Queues.NIL;
      swapBase, swapOffset, swapFd := 0, 0, false;
      inQueue, outswap, worst, status := [], lowUser, false, Running;
      ram, file := map[], map[];
      new;
      ghost var start := Mem(Config(lowUser, nrProcs, nrHoles, 0, swapMax, 0, clickSize), [],
                             seq(nrSlots, _ => EMPTY_SLOT), lowUser,
                             [], false, false, map[], map[], Running);
      assert State() == start by {
        assert mproc[..] == start.procs;
      }
      AskForChunks(chunks);
      swapBase := swapBase + 1;
    }

    /** Ask the kernel for chunks of memory until it reports an empty one. */
    method AskForChunks(chunks: seq<Hole>)
      requires Valid()
      modifies this, table, table.hole
      ensures Valid() && State() == AddChunks(old(State()), chunks, 0)
    {
      var i := 0;
      while i < |chunks| && chunks[i].len != 0 && status.Running?
        invariant i <= |chunks| && Valid()
        invariant AddChunks(State(), chunks, i) == AddChunks(old(State()), chunks, 0)
        decreases |chunks| - i
      {
        TakeNext(chunks, i);
        i := i + 1;
      }
      AddChunksDone(State(), chunks, i);
    }

    method TakeNext(chunks: seq<Hole>, i: nat)
      requires Valid() && i < |chunks| && chunks[i].len != 0 && status.Running?
      modifies this, table, table.hole
      ensures Valid() && AddChunks(State(), chunks, i + 1) == AddChunks(old(State()), chunks, i)
    {
      AddChunksStep(State(), chunks, i);
      TakeChunk(chunks[i]);
    }

    method TakeChunk(chunk: Hole)
      requires Valid()
      modifies this, table, table.hole
      ensures Valid() && State() == AddChunk(old(State()), chunk)
    {
      GiveBack(chunk.base, chunk.len);
      if status.Running? && swapBase < chunk.base + chunk.len {
        swapBase := chunk.base + chunk.len;
      }
    }

    method GiveBack(base: nat, clicks: nat)
      requires Valid()
      modifies this`status, table, table.hole
      ensures Valid() && State() == SwapSpec.GiveBack(old(State()), base, clicks)
    {
      var panicked := table.FreeMem(base, clicks);
      if panicked {
        status := HoleTableFull;
      }
    }

    /** Swap process `r` out if it is a candidate and fits in the swap area. */
    method TrySwapOut(r: nat) returns (done: bool)
      requires Valid() && lowUser <= r < nrProcs
      modifies this, table, table.hole, mproc
      ensures Valid() && done == Swappable(old(State()), r)
      ensures State() == if done then SwapOutAt(old(State()), r) else old(State())
    {
      var p := mproc[r];
      if !(p.blocked && !p.avoid && !p.onSwap) {
        return false;
      }
      var found, newBase := table.TakeSwapHole(swapBase, p.size);
      if !found {
        return false;
      }
      StoreImage(r, newBase);
      return true;
    }

    /** Swap space has been found: write the image and update the map. */
    method StoreImage(r: nat, newBase: nat)
      requires Valid() && lowUser <= r < nrProcs
      modifies this, table, table.hole, mproc
      ensures Valid() && State() == Unload(old(State()), r, newBase)
    {
      var rmp := mproc[r];
      file := CopyOut(Cfg(), ram, file, rmp.base, newBase, rmp.size);
      mproc[r] := rmp.(base := newBase);
      GiveBack(rmp.base, rmp.size);
      if status.Running? {
        mproc[r] := mproc[r].(onSwap := true);
        outswap := r;
      }
    }

    /** Try to put one more process on swap, looking behind the last one first. */
    method SwapOut() returns (done: bool)
      requires Valid() && status.Running?
      modifies this, table, table.hole, mproc
      ensures Valid() && (State(), done) == SwapSpec.SwapOut(old(State()))
    {
      var rmp := outswap;
      ghost var m := State();
      while true
        invariant Valid() && State() == m
        invariant lowUser <= rmp < nrProcs
        invariant SearchFrom(m, m.outswap) == SearchFrom(m, rmp)
        decreases Ahead(m, rmp)
      {
        rmp := if rmp + 1 == nrProcs then lowUser else rmp + 1;
        done := TrySwapOut(rmp);
        if done || rmp == outswap {
          return;
        }
      }
    }

    /** Allocate a block, swapping other processes out if needed. */
    method AllocMem(clicks: nat) returns (base: Option<nat>)
      requires Valid() && status.Running?
      modifies this, table, table.hole, mproc
      ensures Valid() && (State(), base) == SwapSpec.AllocMem(old(State()), clicks)
    {
      ghost var start := State();
      while true
        invariant Valid() && status.Running?
        invariant SwapSpec.AllocMem(start, clicks) == SwapSpec.AllocMem(State(), clicks)
        decreases Resident(State().procs)
      {
        AllocMemStep(State(), clicks);
        base := AllocPass(clicks);
        if base.Some? || !status.Running? {
          return;
        }
        var done := SwapOut();
        if !done || !status.Running? {
          return;
        }
      }
    }

    method AllocPass(clicks: nat) returns (base: Option<nat>)
      requires Valid() && status.Running?
      modifies this`status, table, table.hole
      ensures Valid() && (State(), base) == AllocOnce(old(State()), clicks)
    {
      var found, at;
      if worst {
        if table.holeHead == Queues.NIL {
          status := NilDereference;
          return None;
        }
        found, at := table.TakeWorstFit(swapBase, clicks);
      } else {
        found, at := table.TakeFirstFit(swapBase, clicks);
      }
      return if found then Some(at) else None;
    }

    /** Queue a swapped-out process for the way in, behind the last slot on the queue. */
    method SwapInqueue(p: nat)
      requires Valid() && p < mproc.Length
      modifies this`inHead, this`inQueue, swapq, mproc
      ensures Valid() && State() == Enqueue(old(State()), p)
    {
      if mproc[p].swapIn {
        return;
      }
      EnqueueFits(State(), p);
      JoinedChain(swapq[..], inQueue, p);
      var last := LastQueued();
      if last == Queues.NIL {
        inHead := p;
      } else {
        swapq[last] := p;
      }
      swapq[p] := Queues.NIL;
      inQueue := Joined(inQueue, p);
      mproc[p] := mproc[p].(swapIn := true);
    }

    method LastQueued() returns (last: int)
      requires Valid()
      ensures last == if inQueue == [] then Queues.NIL else Queues.Last(inQueue)
    {
      last := Queues.NIL;
      var pmp := inHead;
      ghost var j := 0;
      while pmp != Queues.NIL
        invariant 0 <= j <= |inQueue| && pmp == Queues.First(inQueue[j..])
        invariant last == if j == 0 then Queues.NIL else inQueue[j - 1]
        decreases |inQueue| - j
      {
        Queues.ChainAt(swapq[..], inQueue, j);
        last, pmp := pmp, swapq[pmp];
        j := j + 1;
      }
    }

    /** Swap in the queued processes, as far as memory allows. */
    method SwapIn()
      requires Valid() && status.Running?
      modifies this, table, table.hole, mproc, swapq
      ensures Valid() && State() == SwapSpec.SwapIn(old(State()))
    {
      ghost var start := State();
      var rmp, previous := inHead, Queues.NIL;
      ghost var i: nat := 0;
      while rmp != Queues.NIL
        invariant Valid() && status.Running? && Cursor(inQueue, rmp, previous, i)
        invariant SwapInFrom(start, 0) == SwapInFrom(State(), i)
        decreases |inQueue| - i
      {
        rmp, previous, i := SwapInNext(rmp, previous, i);
        if !status.Running? {
          return;
        }
      }
    }

    method SwapInNext(p: nat, previous: int, ghost i: nat) returns (rmp: int, previous': int, ghost next: nat)
      requires Valid() && status.Running? && i < |inQueue| && Cursor(inQueue, p, previous, i)
      modifies this, table, table.hole, mproc, swapq
      ensures Valid() && State() == SwapInTurn(old(State()), i).0 && next == SwapInTurn(old(State()), i).1
      ensures status.Running? ==> Cursor(inQueue, rmp, previous', next)
    {
      if mproc[p].swapIn {
        rmp, previous', next := SwapInMarked(p, previous, i);
      } else {
        rmp, previous', next := swapq[p], previous, i;
        Unlink(p, previous, i);
      }
    }

    method SwapInMarked(p: nat, previous: int, ghost i: nat) returns (rmp: int, previous': int, ghost next: nat)
      requires Valid() && status.Running? && i < |inQueue| && Cursor(inQueue, p, previous, i) && mproc[p].swapIn
      modifies this, table, table.hole, mproc, swapq
      ensures Valid() && State() == SwapInTurn(old(State()), i).0 && next == SwapInTurn(old(State()), i).1
      ensures status.Running? ==> Cursor(inQueue, rmp, previous', next)
    {
      NextQueued(i);
      rmp, previous', next := swapq[p], previous, i;
      ghost var m := State();
      var base := AllocMem(mproc[p].size);
      assert inQueue == m.inQueue;
      if base.None? {
        previous', next := p, i + 1;
      } else {
        BringIn(p, base.value, previous, i);
      }
    }

    lemma NextQueued(i: nat)
      requires Valid() && i < |inQueue|
      ensures inQueue[i] < swapq.Length && swapq[inQueue[i]] == Queues.First(inQueue[i + 1..])
    {
      Queues.ChainAt(swapq[..], inQueue, i);
    }

    method BringIn(p: nat, newBase: nat, previous: int, ghost i: nat)
      requires Valid() && i < |inQueue| && Cursor(inQueue, p, previous, i)
      modifies this, table, table.hole, mproc, swapq
      ensures Valid() && State() == SwapSpec.BringIn(old(State()), i, newBase)
      ensures status.Running? ==> Cursor(inQueue, old(swapq[p]), previous, i)
    {
      LoadImage(p, newBase);
      if status.Running? {
        Unlink(p, previous, i);
      }
    }

    method Unlink(p: nat, previous: int, ghost i: nat)
      requires Valid() && i < |inQueue| && Cursor(inQueue, p, previous, i)
      modifies this`inHead, this`inQueue, swapq
      ensures Valid() && State() == Dequeue(old(State()), i)
      ensures Cursor(inQueue, old(swapq[p]), previous, i)
    {
      ghost var q := inQueue;
      Queues.ChainAt(swapq[..], q, i);
      if previous == Queues.NIL {
        Queues.ChainTail(swapq[..], q);
        inHead := swapq[p];
      } else {
        Queues.ChainUnlink(swapq[..], q, i);
        swapq[previous] := swapq[p];
      }
      inQueue := q[..i] + q[i + 1..];
      assert Dequeue(old(State()), i).inQueue == inQueue;
      assert inQueue[i..] == q[i + 1..];
    }

    /** Memory has been found: update the map and read the image. */
    method LoadImage(p: nat, newBase: nat)
      requires Valid() && p < mproc.Length
      modifies this, table, table.hole, mproc
      ensures Valid() && State() == Load(old(State()), p, newBase)
    {
      var rmp := mproc[p];
      mproc[p] := rmp.(base := newBase);
      ram := CopyIn(Cfg(), ram, file, rmp.base, newBase, rmp.size);
      GiveBack(rmp.base, rmp.size);
      if status.Running? {
        mproc[p] := mproc[p].(onSwap := false, swapIn := false);
      }
    }

    /** Turn swapping on. */
    method SwapOn(offset: nat, bytes: nat) returns (ok: bool)
      requires Valid()
      modifies this, table, table.hole
      ensures Valid() && (State(), ok) == SwapSpec.SwapOn(old(State()), offset, bytes)
    {
      if swapFd {
        return false;
      }
      swapFd := true;
      swapOffset := offset;
      var clicks := bytes / clickSize;
      if swapMax < clicks {
        clicks := swapMax;
      }
      if 0 < clicks {
        GiveBack(swapBase, clicks);
      }
      return true;
    }

    /** Put all swapped out processes on the inswap queue. */
    method EnqueueAll()
      requires Valid()
      modifies this`inHead, this`inQueue, swapq, mproc
      ensures Valid() && State() == EnqueueSwapped(old(State()), lowUser)
    {
      ghost var start := State();
      var rmp := lowUser;
      while rmp < nrProcs
        invariant Valid() && lowUser <= rmp <= nrProcs
        invariant State().cfg == start.cfg && EnqueueSwapped(start, lowUser) == EnqueueSwapped(State(), rmp)
      {
        if mproc[rmp].onSwap {
          SwapInqueue(rmp);
        }
        rmp := rmp + 1;
      }
    }

    method AllInMemory() returns (all: bool)
      requires Valid()
      ensures all == NoneSwapped(State())
    {
      var rmp := lowUser;
      while rmp < nrProcs
        invariant lowUser <= rmp <= nrProcs
        invariant forall r | lowUser <= r < rmp :: !mproc[r].onSwap
      {
        if mproc[rmp].onSwap {
          return false;
        }
        rmp := rmp + 1;
      }
      return true;
    }

    /** Turn swapping off, if everything fits in memory. */
    method SwapOff() returns (ok: bool)
      requires Valid() && status.Running?
      modifies this, table, table.hole, mproc, swapq
      ensures Valid() && (State(), ok) == SwapSpec.SwapOff(old(State()))
    {
      if !swapFd {
        return true;
      }
      EnqueueAll();
      SwapIn();
      if !status.Running? {
        return false;
      }
      var all := AllInMemory();
      if !all {
        return false;
      }
      ok := CloseSwap();
    }

    method CloseSwap() returns (ok: bool)
      requires Valid()
      modifies this`status, this`swapFd, table, table.hole
      ensures Valid() && (State(), ok) == SwapSpec.CloseSwap(old(State()))
    {
      var fault := table.RemoveSwapHoles(swapBase);
      if fault {
        status := NilDereference;
        return false;
      }
      swapFd := false;
      return true;
    }
  }
}
