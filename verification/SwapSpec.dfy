/** What `alloc_mem`, `swap_out`, `swap_in`, `swap_on` and `swap_off` do, as
    functions on the whole memory-manager state. */
module SwapSpec {
  import opened HoleSpec
  import opened Options
  import Queues

  /** The contents of one click. */
  type Word = int
  type Store = map<int, Word>

  function Get(s: Store, k: int): Word {
    if k in s then s[k] else 0
  }

  /** A slot of the process table, as far as swapping looks at it: where the image
      is, how long it is, and its flags. `blocked` stands for PAUSED, WAITING or
      SIGSUSPENDED, `avoid` for TRACED or REPLY. Slots at or above `nrProcs` stand for
      the blocks the manager never swaps. */
  datatype Proc = Proc(base: nat, size: nat, blocked: bool, avoid: bool, onSwap: bool, swapIn: bool) {
    predicate Holds(c: nat) { base <= c < base + size }
  }

  const EMPTY_SLOT := Proc(0, 0, false, false, false, false)

  datatype Config = Config(
    lowUser: nat, nrProcs: nat, nrHoles: nat, swapBase: nat, swapMax: nat, swapOffset: nat, clickSize: nat)

  /** The manager dies when the hole table overflows or when it follows a nil pointer. */
  datatype Status = Running | HoleTableFull | NilDereference

  datatype Mem = Mem(
    cfg: Config, holes: seq<Hole>, procs: seq<Proc>, outswap: nat, inQueue: seq<nat>,
    worst: bool, swapFd: bool, ram: Store, file: Store, status: Status)

  ghost predicate WellFormed(m: Mem) {
    && m.cfg.lowUser < m.cfg.nrProcs <= |m.procs| && 0 < m.cfg.clickSize
    && m.cfg.lowUser <= m.outswap < m.cfg.nrProcs
    && (forall i | 0 <= i < |m.inQueue| :: m.inQueue[i] < |m.procs|)
    && Queues.Distinct(m.inQueue)
  }

  // ---- Copying images between memory and the swap file ----

  /** Where in the swap file the click at address `a` of the swap area is kept. */
  function FileOffset(cfg: Config, a: nat): int {
    cfg.swapOffset + (a - cfg.swapBase) * cfg.clickSize
  }

  function CopyOut(cfg: Config, ram: Store, file: Store, from: nat, to: nat, n: nat): Store {
    if n == 0 then file
    else CopyOut(cfg, ram, file, from, to, n - 1)[FileOffset(cfg, to + n - 1) := Get(ram, from + n - 1)]
  }

  function CopyIn(cfg: Config, ram: Store, file: Store, from: nat, to: nat, n: nat): Store {
    if n == 0 then ram
    else CopyIn(cfg, ram, file, from, to, n - 1)[to + n - 1 := Get(file, FileOffset(cfg, from + n - 1))]
  }

  /** Click `i` of a process, wherever its image is. */
  function Cell(m: Mem, rmp: Proc, i: nat): Word {
    if rmp.onSwap then Get(m.file, FileOffset(m.cfg, rmp.base + i)) else Get(m.ram, rmp.base + i)
  }

  /** The virtual image of a process. */
  function Image(m: Mem, p: nat): seq<Word>
    requires p < |m.procs|
  {
    seq(m.procs[p].size, i requires 0 <= i < m.procs[p].size => Cell(m, m.procs[p], i))
  }

  // ---- The operations ----

  function GiveBack(m: Mem, base: nat, clicks: nat): (m': Mem)
    ensures m'.status.Running? ==> m.status.Running?
  {
    if 0 < clicks && |m.holes| == m.cfg.nrHoles then m.(status := HoleTableFull)
    else m.(holes := Release(m.holes, base, clicks))
  }

  predicate Candidate(p: Proc) {
    p.blocked && !p.avoid && !p.onSwap
  }

  /** The slot looked at after slot `r`. */
  function NextSlot(cfg: Config, r: nat): nat {
    if r + 1 == cfg.nrProcs then cfg.lowUser else r + 1
  }

  /** How many slots there are from the one behind `r` up to `outswap`, going round. */
  function Ahead(m: Mem, r: nat): nat
    requires WellFormed(m) && m.cfg.lowUser <= r < m.cfg.nrProcs
  {
    if r < m.outswap then m.outswap - r else m.cfg.nrProcs - r + m.outswap - m.cfg.lowUser
  }

  predicate Swappable(m: Mem, r: nat)
    requires r < |m.procs|
  {
    Candidate(m.procs[r]) && SwapFit(m.holes, m.cfg.swapBase, m.procs[r].size) < |m.holes|
  }

  /** The first process behind `r`, going round, that can be swapped out and fits. */
  function SearchFrom(m: Mem, r: nat): (found: Option<nat>)
    requires WellFormed(m) && m.cfg.lowUser <= r < m.cfg.nrProcs
    ensures found.Some? ==> m.cfg.lowUser <= found.value < m.cfg.nrProcs && Swappable(m, found.value)
    decreases Ahead(m, r)
  {
    var r' := NextSlot(m.cfg, r);
    if Swappable(m, r') then Some(r')
    else if r' == m.outswap then None
    else SearchFrom(m, r')
  }

  /** Write the image of process `r` to the block at `newBase` of the swap area. */
  function Unload(m: Mem, r: nat, newBase: nat): (m': Mem)
    requires r < |m.procs|
    ensures m'.cfg == m.cfg && |m'.procs| == |m.procs|
    ensures m'.inQueue == m.inQueue && m'.worst == m.worst && m'.swapFd == m.swapFd
    ensures m'.outswap == m.outswap || m'.outswap == r
  {
    var rmp := m.procs[r];
    var moved := m.(
      file := CopyOut(m.cfg, m.ram, m.file, rmp.base, newBase, rmp.size),
      procs := m.procs[r := rmp.(base := newBase)]);
    var freed := GiveBack(moved, rmp.base, rmp.size);
    if freed.status.Running? then
      freed.(procs := freed.procs[r := freed.procs[r].(onSwap := true)], outswap := r)
    else freed
  }

  function SwapOutAt(m: Mem, r: nat): (m': Mem)
    requires WellFormed(m) && m.cfg.lowUser <= r < m.cfg.nrProcs && Swappable(m, r)
    ensures WellFormed(m') && m'.cfg == m.cfg && |m'.procs| == |m.procs|
    ensures m'.inQueue == m.inQueue && m'.worst == m.worst && m'.swapFd == m.swapFd
  {
    var k := SwapFit(m.holes, m.cfg.swapBase, m.procs[r].size);
    Unload(m.(holes := Bite(m.holes, k, m.procs[r].size)), r, m.holes[k].base)
  }

  function SwapOut(m: Mem): (r: (Mem, bool))
    requires WellFormed(m)
    ensures WellFormed(r.0) && r.0.cfg == m.cfg && |r.0.procs| == |m.procs|
    ensures r.0.inQueue == m.inQueue && r.0.worst == m.worst && r.0.swapFd == m.swapFd
  {
    match SearchFrom(m, m.outswap)
    case None => (m, false)
    case Some(r) => (SwapOutAt(m, r), true)
  }

  /** A process in memory that waits for something and for which there is room in the swap area. */
  ghost predicate MayGo(m: Mem, r: nat) {
    && m.cfg.lowUser <= r < m.cfg.nrProcs && r < |m.procs|
    && m.procs[r].blocked && !m.procs[r].avoid && !m.procs[r].onSwap
    && exists h :: 0 <= h < |m.holes| && m.cfg.swapBase <= m.holes[h].base && m.procs[r].size <= m.holes[h].len
  }

  /** How many slots on slot `q` is from slot `r`, going round. */
  function Round(cfg: Config, r: nat, q: nat): int {
    if r < q then q - r else q - r + cfg.nrProcs - cfg.lowUser
  }

  lemma SwappableMeaning(m: Mem, r: nat)
    requires m.cfg.lowUser <= r < m.cfg.nrProcs && r < |m.procs|
    ensures Swappable(m, r) <==> MayGo(m, r)
  {
  }

  /** The search stops at the first who may go behind `r`, and fails if up to `outswap` nobody may. */
  lemma {:induction false} SearchExact(m: Mem, r: nat)
    requires WellFormed(m) && m.cfg.lowUser <= r < m.cfg.nrProcs
    ensures var found := SearchFrom(m, r);
      && (found.Some? ==>
            MayGo(m, found.value) && forall q: nat | MayGo(m, q) :: Round(m.cfg, r, found.value) <= Round(m.cfg, r, q))
      && (found.None? ==> forall q: nat | MayGo(m, q) :: Round(m.cfg, r, m.outswap) < Round(m.cfg, r, q))
    decreases Ahead(m, r)
  {
    var r' := NextSlot(m.cfg, r);
    SwappableMeaning(m, r');
    if !Swappable(m, r') {
      assert forall q: nat | MayGo(m, q) :: Round(m.cfg, r, q) == Round(m.cfg, r', q) + 1;
      if r' != m.outswap {
        SearchExact(m, r');
      }
    }
  }

  /** Process `r`, the first who may go behind the one who went last, has gone to hole `h`, the
      first of the swap area that is large enough. */
  ghost predicate FirstGone(m: Mem, m': Mem, r: nat, h: nat) {
    && MayGo(m, r) && (forall q: nat | MayGo(m, q) :: Round(m.cfg, m.outswap, r) <= Round(m.cfg, m.outswap, q))
    && h < |m.holes| && m.cfg.swapBase <= m.holes[h].base && m.procs[r].size <= m.holes[h].len
    && (forall i | 0 <= i < h :: m.cfg.swapBase <= m.holes[i].base ==> m.holes[i].len < m.procs[r].size)
    && m'.outswap == r && m'.procs == m.procs[r := m.procs[r].(base := m.holes[h].base, onSwap := true)]
  }

  lemma SwapOutAtProcs(m: Mem, r: nat)
    requires WellFormed(m) && m.cfg.lowUser <= r < m.cfg.nrProcs && Swappable(m, r)
    requires SwapOutAt(m, r).status.Running?
    ensures var h := SwapFit(m.holes, m.cfg.swapBase, m.procs[r].size);
      && SwapOutAt(m, r).outswap == r
      && SwapOutAt(m, r).procs == m.procs[r := m.procs[r].(base := m.holes[h].base, onSwap := true)]
  {
    var h := SwapFit(m.holes, m.cfg.swapBase, m.procs[r].size);
    assert m.procs[r := m.procs[r].(base := m.holes[h].base)][r := m.procs[r].(base := m.holes[h].base, onSwap := true)]
        == m.procs[r := m.procs[r].(base := m.holes[h].base, onSwap := true)];
  }

  /** swap_out succeeds exactly if somebody may go, and then the first one goes. */
  lemma SwapOutExact(m: Mem)
    requires WellFormed(m)
    ensures SwapOut(m).1 <==> exists r: nat :: MayGo(m, r)
    ensures !SwapOut(m).1 ==> SwapOut(m).0 == m
    ensures SwapOut(m).1 && SwapOut(m).0.status.Running? ==>
      exists r: nat, h: nat :: FirstGone(m, SwapOut(m).0, r, h)
  {
    SearchExact(m, m.outswap);
    match SearchFrom(m, m.outswap)
    case None =>
    case Some(r) =>
      SwappableMeaning(m, r);
      if SwapOut(m).0.status.Running? {
        SwapOutAtProcs(m, r);
        assert FirstGone(m, SwapOut(m).0, r, SwapFit(m.holes, m.cfg.swapBase, m.procs[r].size));
      }
  }

  /** One pass over the holes with the chosen policy. */
  function AllocOnce(m: Mem, clicks: nat): (r: (Mem, Option<nat>))
    ensures r.0 == m.(holes := r.0.holes, status := r.0.status)
  {
    if m.worst then
      if m.holes == [] then (m.(status := NilDereference), None)
      else
        var k := WorstFit(m.holes, m.cfg.swapBase);
        if clicks <= m.holes[k].len then (m.(holes := Bite(m.holes, k, clicks)), Some(m.holes[k].base))
        else (m, None)
    else
      var k := FirstFit(m.holes, m.cfg.swapBase, clicks);
      if k < |m.holes| && clicks <= m.holes[k].len then (m.(holes := Bite(m.holes, k, clicks)), Some(m.holes[k].base))
      else (m, None)
  }

  /** How many processes the scan of swap_out could still put on swap. */
  function Resident(procs: seq<Proc>): nat {
    if procs == [] then 0 else (if procs[0].onSwap then 0 else 1) + Resident(procs[1..])
  }

  lemma {:induction false} ResidentUpdate(procs: seq<Proc>, r: nat, p: Proc)
    requires r < |procs|
    ensures Resident(procs[r := p])
      == Resident(procs) - (if procs[r].onSwap then 0 else 1) + (if p.onSwap then 0 else 1)
  {
    if 0 < r {
      ResidentUpdate(procs[1..], r - 1, p);
      assert procs[r := p][1..] == procs[1..][r - 1 := p];
    } else {
      assert procs[r := p][1..] == procs[1..];
    }
  }

  /** Every successful swap_out leaves one process fewer in memory. */
  lemma SwapOutProgress(m: Mem)
    requires WellFormed(m) && m.status.Running?
    ensures var (m', ok) := SwapOut(m);
      && (ok && m'.status.Running? ==> Resident(m'.procs) + 1 == Resident(m.procs))
      && (!ok ==> m' == m)
  {
    match SearchFrom(m, m.outswap)
    case None =>
    case Some(r) =>
      var k := SwapFit(m.holes, m.cfg.swapBase, m.procs[r].size);
      var procs' := m.procs[r := m.procs[r].(base := m.holes[k].base)];
      assert SwapOutAt(m, r).status.Running? ==>
          SwapOutAt(m, r).procs == m.procs[r := m.procs[r].(base := m.holes[k].base, onSwap := true)];
      ResidentUpdate(m.procs, r, m.procs[r].(base := m.holes[k].base, onSwap := true));
  }

  function AllocMem(m: Mem, clicks: nat): (r: (Mem, Option<nat>))
    requires WellFormed(m) && m.status.Running?
    ensures WellFormed(r.0) && r.0.cfg == m.cfg && |r.0.procs| == |m.procs|
    ensures r.0.inQueue == m.inQueue && r.0.worst == m.worst && r.0.swapFd == m.swapFd
    ensures r.1.Some? ==> r.0.status.Running?
    decreases Resident(m.procs)
  {
    var (m1, base) := AllocOnce(m, clicks);
    if base.Some? || !m1.status.Running? then (m1, base)
    else
      SwapOutProgress(m1);
      var (m2, ok) := SwapOut(m1);
      if ok && m2.status.Running? then AllocMem(m2, clicks) else (m2, None)
  }

  /** One turn of the retry loop. */
  lemma AllocMemStep(m: Mem, clicks: nat)
    requires WellFormed(m) && m.status.Running?
    ensures var (m1, base) := AllocOnce(m, clicks);
      if base.Some? || !m1.status.Running? then AllocMem(m, clicks) == (m1, base)
      else
        var (m2, ok) := SwapOut(m1);
        && m1 == m
        && if ok && m2.status.Running? then AllocMem(m, clicks) == AllocMem(m2, clicks)
            && Resident(m2.procs) < Resident(m.procs)
           else AllocMem(m, clicks) == (m2, None)
  {
    if AllocOnce(m, clicks).0.status.Running? {
      SwapOutProgress(AllocOnce(m, clicks).0);
    }
  }

  /** The queue after slot `p` has been linked behind its last slot and its own link has been
      cleared: a slot that is still on the queue cuts off whatever is behind it. */
  function Joined(q: seq<nat>, p: nat): seq<nat> {
    if q == [] || q[0] == p then [p] else [q[0]] + Joined(q[1..], p)
  }

  lemma {:induction false} JoinedMeaning(q: seq<nat>, p: nat)
    requires Queues.Distinct(q)
    ensures Queues.Distinct(Joined(q, p)) && p in Joined(q, p)
    ensures forall x | x in Joined(q, p) :: x == p || x in q
    ensures p !in q ==> Joined(q, p) == q + [p]
  {
    if q != [] && q[0] != p {
      JoinedMeaning(q[1..], p);
      assert forall x :: x in q <==> x == q[0] || x in q[1..];
      assert q[0] !in q[1..] && q[0] !in Joined(q[1..], p);
    }
  }

  /** A slot in the middle of the queue keeps what is in front of it only. */
  lemma {:induction false} JoinedCuts(q: seq<nat>, j: nat)
    requires Queues.Distinct(q) && j < |q|
    ensures Joined(q, q[j]) == q[..j + 1]
  {
    if 0 < j {
      JoinedCuts(q[1..], j - 1);
    }
  }

  function Enqueue(m: Mem, p: nat): (m': Mem)
    requires p < |m.procs|
    ensures m'.cfg == m.cfg && |m'.procs| == |m.procs| && m'.worst == m.worst && m'.swapFd == m.swapFd
    ensures WellFormed(m) ==> WellFormed(m')
  {
    if m.procs[p].swapIn then m
    else
      EnqueueFits(m, p);
      m.(inQueue := Joined(m.inQueue, p), procs := m.procs[p := m.procs[p].(swapIn := true)])
  }

  lemma EnqueueFits(m: Mem, p: nat)
    requires p < |m.procs|
    ensures WellFormed(m) ==>
      Queues.Distinct(Joined(m.inQueue, p))
      && forall i | 0 <= i < |Joined(m.inQueue, p)| :: Joined(m.inQueue, p)[i] < |m.procs|
  {
    if WellFormed(m) {
      JoinedMeaning(m.inQueue, p);
      var q := Joined(m.inQueue, p);
      forall i | 0 <= i < |q|
        ensures q[i] < |m.procs|
      {
        assert q[i] in q;
      }
    }
  }

  /** Bring process `p` into the freshly allocated block at `newBase`. */
  function Load(m: Mem, p: nat, newBase: nat): (m': Mem)
    requires p < |m.procs|
    ensures m'.cfg == m.cfg && |m'.procs| == |m.procs|
    ensures m'.inQueue == m.inQueue && m'.worst == m.worst && m'.swapFd == m.swapFd && m'.outswap == m.outswap
  {
    var rmp := m.procs[p];
    var moved := m.(
      ram := CopyIn(m.cfg, m.ram, m.file, rmp.base, newBase, rmp.size),
      procs := m.procs[p := rmp.(base := newBase)]);
    var freed := GiveBack(moved, rmp.base, rmp.size);
    if freed.status.Running? then
      freed.(procs := freed.procs[p := freed.procs[p].(onSwap := false, swapIn := false)])
    else freed
  }

  function Dequeue(m: Mem, i: nat): (m': Mem)
    requires i < |m.inQueue|
    ensures WellFormed(m) ==> WellFormed(m')
  {
    m.(inQueue := m.inQueue[..i] + m.inQueue[i + 1..])
  }

  /** The process at position `i` comes in and leaves the queue, unless its swap block had no slot. */
  function BringIn(m: Mem, i: nat, newBase: nat): (m': Mem)
    requires i < |m.inQueue| && m.inQueue[i] < |m.procs|
    ensures m'.cfg == m.cfg && |m'.procs| == |m.procs|
    ensures m'.worst == m.worst && m'.swapFd == m.swapFd
    ensures m'.status.Running? ==> m'.inQueue == m.inQueue[..i] + m.inQueue[i + 1..]
  {
    var m2 := Load(m, m.inQueue[i], newBase);
    if m2.status.Running? then Dequeue(m2, i) else m2
  }

  /** One turn of the loop of swap_in: the state it goes on with, and from where. */
  function SwapInTurn(m: Mem, i: nat): (r: (Mem, nat))
    requires WellFormed(m) && m.status.Running? && i < |m.inQueue|
    ensures WellFormed(r.0) && r.0.cfg == m.cfg && |r.0.procs| == |m.procs|
    ensures r.0.worst == m.worst && r.0.swapFd == m.swapFd
    ensures r.0.status.Running? ==> r.1 <= |r.0.inQueue| && |r.0.inQueue| - r.1 < |m.inQueue| - i
  {
    var p := m.inQueue[i];
    if !m.procs[p].swapIn then (Dequeue(m, i), i)
    else
      var (m1, base) := AllocMem(m, m.procs[p].size);
      if base.None? then (m1, i + 1) else (BringIn(m1, i, base.value), i)
  }

  /** Bring in the queued processes from position `i` on, as far as memory allows. */
  function SwapInFrom(m: Mem, i: nat): (m': Mem)
    requires WellFormed(m) && (m.status.Running? ==> i <= |m.inQueue|)
    ensures WellFormed(m') && m'.cfg == m.cfg && |m'.procs| == |m.procs|
    ensures m'.worst == m.worst && m'.swapFd == m.swapFd
    decreases |m.inQueue| - i
  {
    if !m.status.Running? || i == |m.inQueue| then m
    else
      var (m1, i1) := SwapInTurn(m, i);
      if m1.status.Running? then SwapInFrom(m1, i1) else m1
  }

  function SwapIn(m: Mem): (m': Mem)
    requires WellFormed(m)
    ensures WellFormed(m') && m'.cfg == m.cfg && |m'.procs| == |m.procs|
    ensures m'.worst == m.worst && m'.swapFd == m.swapFd
  {
    SwapInFrom(m, 0)
  }

  /** Add the hole that stands for the swap file; refused when there already is one. */
  function SwapOn(m: Mem, offset: nat, bytes: nat): (r: (Mem, bool))
    requires WellFormed(m)
  {
    if m.swapFd then (m, false)
    else
      var clicks := SwapClicks(m.cfg, bytes);
      (GiveBack(m.(cfg := m.cfg.(swapOffset := offset), swapFd := true), m.cfg.swapBase, clicks), true)
  }

  function SwapClicks(cfg: Config, bytes: nat): nat
    requires 0 < cfg.clickSize
  {
    if cfg.swapMax < bytes / cfg.clickSize then cfg.swapMax else bytes / cfg.clickSize
  }

  /** Queue every swapped-out process from slot `r` on. */
  function EnqueueSwapped(m: Mem, r: nat): (m': Mem)
    requires WellFormed(m) && m.cfg.lowUser <= r <= m.cfg.nrProcs
    ensures WellFormed(m') && m'.cfg == m.cfg && |m'.procs| == |m.procs|
    ensures m'.worst == m.worst && m'.swapFd == m.swapFd
    decreases m.cfg.nrProcs - r
  {
    if r == m.cfg.nrProcs then m
    else EnqueueSwapped(if m.procs[r].onSwap then Enqueue(m, r) else m, r + 1)
  }

  predicate NoneSwapped(m: Mem)
    requires WellFormed(m)
  {
    forall r | m.cfg.lowUser <= r < m.cfg.nrProcs :: !m.procs[r].onSwap
  }

  /** Remove the swap hole and close the swap file, once all is in memory. */
  function CloseSwap(m: Mem): (r: (Mem, bool)) {
    var (holes, fault) := DropSwap(m.holes, m.cfg.swapBase, 0);
    if fault then (m.(holes := holes, status := NilDereference), false) else (m.(holes := holes, swapFd := false), true)
  }

  /** Turn swapping off; `false` means that some image would not fit in memory. */
  function SwapOff(m: Mem): (r: (Mem, bool))
    requires WellFormed(m)
  {
    if !m.swapFd then (m, true)
    else
      var m1 := SwapIn(EnqueueSwapped(m, m.cfg.lowUser));
      if !m1.status.Running? || !NoneSwapped(m1) then (m1, false) else CloseSwap(m1)
  }

  // ---- Start-up ----

  /** Make a hole of a reported chunk and keep track of where memory ends. */
  function AddChunk(m: Mem, chunk: Hole): (m': Mem)
    ensures WellFormed(m) ==> WellFormed(m')
  {
    var m1 := GiveBack(m, chunk.base, chunk.len);
    if m1.status.Running? && m1.cfg.swapBase < chunk.End() then m1.(cfg := m1.cfg.(swapBase := chunk.End()))
    else m1
  }

  /** The chunks from `i` on, up to the first empty one. */
  function AddChunks(m: Mem, chunks: seq<Hole>, i: nat): Mem
    requires i <= |chunks|
    decreases |chunks| - i
  {
    if i == |chunks| || chunks[i].len == 0 || !m.status.Running? then m
    else AddChunks(AddChunk(m, chunks[i]), chunks, i + 1)
  }

  lemma AddChunksStep(m: Mem, chunks: seq<Hole>, i: nat)
    requires i < |chunks| && chunks[i].len != 0 && m.status.Running?
    ensures AddChunks(m, chunks, i) == AddChunks(AddChunk(m, chunks[i]), chunks, i + 1)
  {
  }

  lemma AddChunksDone(m: Mem, chunks: seq<Hole>, i: nat)
    requires i <= |chunks| && (i < |chunks| && chunks[i].len != 0 ==> !m.status.Running?)
    ensures AddChunks(m, chunks, i) == m
  {
  }

  /** The state mem_init leaves: the swap area starts one click above all memory. */
  function MemInit(cfg: Config, nrSlots: nat, chunks: seq<Hole>): Mem {
    var m := AddChunks(
      Mem(cfg, [], seq(nrSlots, _ => EMPTY_SLOT), cfg.lowUser, [], false, false, map[], map[], Running), chunks, 0);
    m.(cfg := m.cfg.(swapBase := m.cfg.swapBase + 1))
  }
}
