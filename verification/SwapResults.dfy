/** What swapping achieves: whom swap_in leaves on the queue and why, whom swap_off gives up
    over, and which part of the swap file is written. */
module SwapResults {
  import opened Conservation
  import opened HoleSpec
  import opened MemoryRuns
  import opened Ownership
  import Queues
  import opened SwapQueue
  import opened SwapSpec

  // ---- The queue after swap_in ----

  /** Those of the queue that are still marked, in order. */
  function Still(q: seq<nat>, procs: seq<Proc>): seq<nat>
    requires forall i | 0 <= i < |q| :: q[i] < |procs|
  {
    if q == [] then []
    else
      assert forall i | 0 <= i < |q[1..]| :: q[1..][i] == q[i + 1];
      (if procs[q[0]].swapIn then [q[0]] else []) + Still(q[1..], procs)
  }

  /** Marks go, and never come. */
  predicate MarksGo(m: Mem, m': Mem) {
    |m'.procs| == |m.procs| && forall p | 0 <= p < |m.procs| && m'.procs[p].swapIn :: m.procs[p].swapIn
  }

  /** A turn takes at most the mark of its own process, which leaves the queue with its mark. */
  lemma TurnMarks(m: Mem, a: Arena, i: nat)
    requires Inv(m, a) && Roomy(m, a) && i < |m.inQueue|
    requires m.procs[m.inQueue[i]].swapIn ==> SoundHead(m, m.procs[m.inQueue[i]].size)
    ensures var (m1, i1) := SwapInTurn(m, i);
      m1.status.Running? && TurnTaken(m, i, m1, i1)
  {
    var p := m.inQueue[i];
    SwapInTurnKeeps(m, a, i);
    if m.procs[p].swapIn {
      var (m1, base) := AllocMem(m, m.procs[p].size);
      AllocMemMeaning(m, a, m.procs[p].size);
      AllocOnceMeaning(LastPass(m, m.procs[p].size), a, m.procs[p].size);
      if base.Some? {
        LoadFields(m1, p, base.value);
      }
    }
  }

  lemma {:induction false} StillSame(q: seq<nat>, procs: seq<Proc>, procs': seq<Proc>)
    requires forall i | 0 <= i < |q| :: q[i] < |procs| && q[i] < |procs'| && procs'[q[i]].swapIn == procs[q[i]].swapIn
    ensures Still(q, procs') == Still(q, procs)
  {
    if q != [] {
      assert forall i | 0 <= i < |q[1..]| :: q[1..][i] == q[i + 1];
      StillSame(q[1..], procs, procs');
    }
  }

  /** From position `i` on exactly those still marked are on the queue, in the order they had. */
  predicate QueueLeft(m: Mem, i: nat, m': Mem)
    requires i <= |m.inQueue| && forall j | 0 <= j < |m.inQueue| :: m.inQueue[j] < |m.procs|
  {
    && MarksGo(m, m')
    && (TailInTable(m.inQueue, i, m'.procs); m'.inQueue == m.inQueue[..i] + Still(m.inQueue[i..], m'.procs))
    && forall p | 0 <= p < |m.procs| && p !in m.inQueue[i..] :: m'.procs[p].swapIn == m.procs[p].swapIn
  }

  /** What a turn does to the queue. */
  predicate TurnTaken(m: Mem, i: nat, m1: Mem, i1: nat)
    requires i < |m.inQueue| && m.inQueue[i] < |m.procs|
  {
    && |m1.procs| == |m.procs|
    && (forall q | 0 <= q < |m.procs| && q != m.inQueue[i] :: m1.procs[q].swapIn == m.procs[q].swapIn)
    && (m1.procs[m.inQueue[i]].swapIn ==> m.procs[m.inQueue[i]].swapIn)
    && if m1.procs[m.inQueue[i]].swapIn then m1.inQueue == m.inQueue && i1 == i + 1
       else m1.inQueue == m.inQueue[..i] + m.inQueue[i + 1..] && i1 == i
  }

  lemma TurnThenRest(m: Mem, i: nat, m1: Mem, i1: nat, m': Mem)
    requires WellFormed(m) && i < |m.inQueue| && TurnTaken(m, i, m1, i1)
    requires WellFormed(m1) && i1 <= |m1.inQueue| && QueueLeft(m1, i1, m')
    ensures QueueLeft(m, i, m')
  {
    var p := m.inQueue[i];
    QueueBehind(m.inQueue, i, m1.inQueue, i1, m1.procs[p].swapIn);
    assert m'.procs[p].swapIn == m1.procs[p].swapIn;
    StillGoesOn(m.inQueue, i, m1.inQueue, i1, m'.procs);
    assert m.inQueue[i..][0] == p && forall q | q in m1.inQueue[i1..] :: q in m.inQueue[i..];
  }

  lemma {:induction false} SwapInQueue(m: Mem, a: Arena, i: nat)
    requires Inv(m, a) && Roomy(m, a) && i <= |m.inQueue| && SwapInLegal(m, i)
    ensures WellFormed(SwapInFrom(m, i)) && QueueLeft(m, i, SwapInFrom(m, i))
    decreases |m.inQueue| - i
  {
    if i < |m.inQueue| {
      var (m1, i1) := SwapInTurn(m, i);
      TurnMarks(m, a, i);
      SwapInTurnKeeps(m, a, i);
      SwapInQueue(m1, a, i1);
      TurnThenRest(m, i, m1, i1, SwapInFrom(m1, i1));
    } else {
      assert m.inQueue[..i] == m.inQueue;
    }
  }

  /** The queue behind the process whose turn it was. */
  lemma QueueBehind(q: seq<nat>, i: nat, q1: seq<nat>, i1: nat, stays: bool)
    requires i < |q| && Queues.Distinct(q)
    requires if stays then q1 == q && i1 == i + 1 else q1 == q[..i] + q[i + 1..] && i1 == i
    ensures i1 <= |q1| && q1[i1..] == q[i..][1..] && q[i] !in q1[i1..]
    ensures q1[..i1] == q[..i] + if stays then [q[i]] else []
  {
    if stays {
      assert q1[i1..] == q[i..][1..];
    } else {
      assert q1[i1..] == q[i + 1..] == q[i..][1..];
    }
  }

  lemma TailInTable(q: seq<nat>, i: nat, procs: seq<Proc>)
    requires i <= |q| && forall j | 0 <= j < |q| :: q[j] < |procs|
    ensures forall j | 0 <= j < |q[i..]| :: q[i..][j] < |procs|
  {
  }

  lemma StillFirst(tail: seq<nat>, procs: seq<Proc>)
    requires tail != [] && forall j | 0 <= j < |tail| :: tail[j] < |procs|
    ensures forall j | 0 <= j < |tail[1..]| :: tail[1..][j] < |procs|
    ensures Still(tail, procs) == (if procs[tail[0]].swapIn then [tail[0]] else []) + Still(tail[1..], procs)
  {
    TailInTable(tail, 1, procs);
  }

  lemma StillGoesOn(q: seq<nat>, i: nat, q1: seq<nat>, i1: nat, procs: seq<Proc>)
    requires i < |q| && i1 <= |q1| && q1[i1..] == q[i..][1..]
    requires forall j | 0 <= j < |q| :: q[j] < |procs|
    requires q1[..i1] == q[..i] + if procs[q[i]].swapIn then [q[i]] else []
    ensures forall j | 0 <= j < |q1[i1..]| :: q1[i1..][j] < |procs|
    ensures forall j | 0 <= j < |q[i..]| :: q[i..][j] < |procs|
    ensures q1[..i1] + Still(q1[i1..], procs) == q[..i] + Still(q[i..], procs)
  {
    TailInTable(q, i, procs);
    StillFirst(q[i..], procs);
    Regroup(q[..i], if procs[q[i]].swapIn then [q[i]] else [], Still(q1[i1..], procs));
  }

  lemma Regroup(a: seq<nat>, b: seq<nat>, c: seq<nat>)
    ensures a + b + c == a + (b + c)
  {
  }

  // ---- Whom it leaves there ----

  /** Nobody waits for anything, so that nobody would be swapped out to make room. */
  predicate Calm(m: Mem) {
    forall p | 0 <= p < |m.procs| :: !m.procs[p].blocked || m.procs[p].avoid
  }

  /** Somewhere below the swap area there are that many free clicks in a row. */
  ghost predicate HasRoom(m: Mem, clicks: nat) {
    exists c: nat :: RoomAt(m, c, clicks)
  }

  ghost predicate RoomAt(m: Mem, c: nat, clicks: nat) {
    forall x: nat | c <= x < c + clicks :: Free(m.holes, x) && x < m.cfg.swapBase
  }

  /** Free clicks in a row belong to one hole. */
  lemma {:induction false} OneHole(holes: seq<Hole>, c: nat, clicks: nat) returns (i: nat)
    requires Canonical(holes) && 0 < clicks && forall x: nat | c <= x < c + clicks :: Free(holes, x)
    ensures i < |holes| && holes[i].base <= c && c + clicks <= holes[i].End()
    decreases clicks
  {
    if clicks == 1 {
      assert Free(holes, c);
      i :| 0 <= i < |holes| && holes[i].Has(c);
    } else {
      i := OneHole(holes, c, clicks - 1);
      NotAdjacent(holes, i);
      assert Free(holes, c + clicks - 1);
    }
  }

  lemma RoomIsHole(m: Mem, a: Arena, clicks: nat)
    requires Inv(m, a) && 0 < clicks && HasRoom(m, clicks)
    ensures exists i | 0 <= i < |m.holes| :: m.holes[i].base < m.cfg.swapBase && clicks <= m.holes[i].len
  {
    var c: nat :| RoomAt(m, c, clicks);
    var i := OneHole(m.holes, c, clicks);
    assert Free(m.holes, c) && c < m.cfg.swapBase;
  }

  /** No click below the swap area becomes free. */
  ghost predicate Fuller(m: Mem, m': Mem) {
    m'.cfg == m.cfg && forall x: nat | Free(m'.holes, x) && x < m.cfg.swapBase :: Free(m.holes, x)
  }

  lemma FullerRoom(m: Mem, m': Mem, clicks: nat)
    requires Fuller(m, m') && HasRoom(m', clicks)
    ensures HasRoom(m, clicks)
  {
    var c: nat :| RoomAt(m', c, clicks);
    forall x: nat | c <= x < c + clicks
      ensures Free(m.holes, x) && x < m.cfg.swapBase
    {
      assert Free(m'.holes, x);
    }
    assert RoomAt(m, c, clicks);
  }

  lemma SameRoom(m: Mem, m': Mem, clicks: nat)
    ensures m'.holes == m.holes && m'.cfg == m.cfg ==> (HasRoom(m', clicks) <==> HasRoom(m, clicks))
  {
    if m'.holes == m.holes && m'.cfg == m.cfg {
      assert forall c: nat :: RoomAt(m', c, clicks) <==> RoomAt(m, c, clicks);
    }
  }

  /** Where only swapped-out processes move, nothing regular becomes free. */
  lemma StaysFull(m: Mem, m': Mem, a: Arena)
    requires Inv(m, a) && Inv(m', a) && m'.cfg == m.cfg && |m'.procs| == |m.procs|
    requires forall p | 0 <= p < |m.procs| && !m.procs[p].onSwap :: m'.procs[p] == m.procs[p]
    ensures Fuller(m, m')
  {
    forall x: nat | Free(m'.holes, x) && x < m.cfg.swapBase
      ensures Free(m.holes, x)
    {
      assert Managed(m.cfg, a, x);
      if !Free(m.holes, x) {
        var p: nat :| Held(m.procs, p, x);
        assert !m.procs[p].onSwap;
        assert Held(m'.procs, p, x);
        assert false;
      }
    }
  }

  lemma CalmAlloc(m: Mem, a: Arena, clicks: nat)
    requires Inv(m, a) && Calm(m) && SoundHead(m, clicks)
    ensures AllocMem(m, clicks) == AllocOnce(m, clicks)
  {
    AllocOnceMeaning(m, a, clicks);
    SwapOutExact(m);
    if AllocOnce(m, clicks).1.None? {
      assert forall r: nat :: !MayGo(m, r);
      SwapOutProgress(m);
    }
  }

  /** A turn brings its process in or finds no room for it, and touches nobody in memory. */
  lemma CalmTurn(m: Mem, a: Arena, i: nat)
    requires Inv(m, a) && Roomy(m, a) && Calm(m) && i < |m.inQueue|
    requires m.procs[m.inQueue[i]].swapIn ==> SoundHead(m, m.procs[m.inQueue[i]].size)
    ensures var m1, p := SwapInTurn(m, i).0, m.inQueue[i];
      && Inv(m1, a) && Calm(m1) && Fuller(m, m1) && |m1.procs| == |m.procs|
      && (forall q | 0 <= q < |m.procs| && q != p :: m1.procs[q] == m.procs[q])
      && m1.procs[p].size == m.procs[p].size
      && (m1.procs[p].swapIn && 0 < m.procs[p].size ==> !HasRoom(m1, m.procs[p].size))
      && (m.procs[p].onSwap && !m1.procs[p].onSwap <==> m.procs[p].swapIn && !m1.procs[p].swapIn)
  {
    SwapInTurnKeeps(m, a, i);
    CalmTurnProcs(m, a, i);
    StaysFull(m, SwapInTurn(m, i).0, a);
    SameRoom(m, SwapInTurn(m, i).0, m.procs[m.inQueue[i]].size);
  }

  lemma CalmTurnProcs(m: Mem, a: Arena, i: nat)
    requires Inv(m, a) && Roomy(m, a) && Calm(m) && i < |m.inQueue|
    requires m.procs[m.inQueue[i]].swapIn ==> SoundHead(m, m.procs[m.inQueue[i]].size)
    ensures var m1, p := SwapInTurn(m, i).0, m.inQueue[i];
      && m1.status.Running? && |m1.procs| == |m.procs|
      && m1.procs == m.procs[p := m1.procs[p]] && m1.procs[p].size == m.procs[p].size
      && m1.procs[p].blocked == m.procs[p].blocked && m1.procs[p].avoid == m.procs[p].avoid
      && (!m.procs[p].swapIn ==> m1.procs[p] == m.procs[p])
      && (m1.procs[p].swapIn ==> m1.procs[p] == m.procs[p])
      && (m.procs[p].swapIn && !m1.procs[p].swapIn ==> !m1.procs[p].onSwap)
      && (m1.procs[p].swapIn && 0 < m.procs[p].size ==> m1.holes == m.holes && !HasRoom(m, m.procs[p].size))
  {
    var p := m.inQueue[i];
    SwapInTurnKeeps(m, a, i);
    if m.procs[p].swapIn {
      CalmAlloc(m, a, m.procs[p].size);
      AllocOnceMeaning(m, a, m.procs[p].size);
      var (m2, base) := AllocOnce(m, m.procs[p].size);
      if base.Some? {
        LoadFields(m2, p, base.value);
      } else if 0 < m.procs[p].size && HasRoom(m, m.procs[p].size) {
        RoomIsHole(m, a, m.procs[p].size);
      }
    }
  }

  /** Everybody in front of position `i` has found no room. */
  ghost predicate NoRoomBefore(m: Mem, i: nat)
    requires i <= |m.inQueue| && forall j | 0 <= j < |m.inQueue| :: m.inQueue[j] < |m.procs|
  {
    forall j | 0 <= j < i :: 0 < m.procs[m.inQueue[j]].size ==> !HasRoom(m, m.procs[m.inQueue[j]].size)
  }

  lemma CalmTurnGoesOn(m: Mem, a: Arena, i: nat)
    requires Inv(m, a) && Roomy(m, a) && Calm(m) && i < |m.inQueue| && NoRoomBefore(m, i)
    requires m.procs[m.inQueue[i]].swapIn ==> SoundHead(m, m.procs[m.inQueue[i]].size)
    ensures var (m1, i1) := SwapInTurn(m, i);
      m1.status.Running? && i1 <= |m1.inQueue| && WellFormed(m1) && NoRoomBefore(m1, i1)
  {
    var (m1, i1) := SwapInTurn(m, i);
    TurnMarks(m, a, i);
    CalmTurn(m, a, i);
    forall j | 0 <= j < i1 && 0 < m1.procs[m1.inQueue[j]].size
      ensures !HasRoom(m1, m1.procs[m1.inQueue[j]].size)
    {
      if j < i {
        assert m1.inQueue[j] == m.inQueue[j];
        if HasRoom(m1, m1.procs[m1.inQueue[j]].size) {
          FullerRoom(m, m1, m1.procs[m1.inQueue[j]].size);
        }
      }
    }
  }

  lemma {:induction false} CalmSwapIn(m: Mem, a: Arena, i: nat)
    requires Inv(m, a) && Roomy(m, a) && Calm(m) && i <= |m.inQueue| && SwapInLegal(m, i) && NoRoomBefore(m, i)
    ensures var m' := SwapInFrom(m, i);
      && WellFormed(m') && |m'.procs| == |m.procs| && NoRoomBefore(m', |m'.inQueue|)
      && forall p | 0 <= p < |m.procs| && m'.procs[p].onSwap ::
           m.procs[p].onSwap && m'.procs[p].swapIn == m.procs[p].swapIn
    decreases |m.inQueue| - i
  {
    if i < |m.inQueue| {
      var (m1, i1) := SwapInTurn(m, i);
      TurnMarks(m, a, i);
      CalmTurn(m, a, i);
      CalmTurnGoesOn(m, a, i);
      SwapInTurnKeeps(m, a, i);
      CalmSwapIn(m1, a, i1);
    }
  }

  /** When nobody would be swapped out to make room, swap_in leaves exactly those on the queue
      for whom there is no room any more; who does not fit keeps nobody behind it waiting. */
  lemma SwapInLeaves(m: Mem, a: Arena)
    requires Inv(m, a) && Roomy(m, a) && Calm(m) && SwapInLegal(m, 0)
    ensures var m' := SwapIn(m);
      && |m'.procs| == |m.procs| && (forall p | p in m'.inQueue :: p < |m'.procs|)
      && m'.inQueue == Still(m.inQueue, m'.procs)
      && forall p | p in m'.inQueue && 0 < m'.procs[p].size :: !HasRoom(m', m'.procs[p].size)
  {
    SwapInQueue(m, a, 0);
    CalmSwapIn(m, a, 0);
    assert m.inQueue[0..] == m.inQueue && m.inQueue[..0] == [];
  }

  // ---- Asking ----

  /** Who is asked for is marked, and last on the queue behind those who were in front of it; who
      was marked already stays where it is. */
  lemma AskedIsLast(m: Mem, p: nat)
    requires WellFormed(m) && p < |m.procs|
    ensures var m' := Enqueue(m, p);
      && m' == m.(inQueue := m'.inQueue, procs := m'.procs)
      && m'.procs == m.procs[p := m.procs[p].(swapIn := true)]
      && (m.procs[p].swapIn ==> m'.inQueue == m.inQueue)
      && (!m.procs[p].swapIn && p !in m.inQueue ==> m'.inQueue == m.inQueue + [p])
      && forall j | 0 <= j < |m.inQueue| && m.inQueue[j] == p && !m.procs[p].swapIn ::
           m'.inQueue == m.inQueue[..j] + [p]
  {
    JoinedMeaning(m.inQueue, p);
    forall j | 0 <= j < |m.inQueue| && m.inQueue[j] == p
      ensures Joined(m.inQueue, p) == m.inQueue[..j] + [p]
    {
      JoinedCuts(m.inQueue, j);
    }
    assert m.procs[p := m.procs[p]] == m.procs;
  }

  // ---- swap_off ----

  /** Before swap_off swaps in, it asks for everybody who is swapped out. */
  lemma {:induction false} AllAsked(m: Mem, r: nat)
    requires WellFormed(m) && m.cfg.lowUser <= r <= m.cfg.nrProcs
    ensures var m' := EnqueueSwapped(m, r);
      && m' == m.(inQueue := m'.inQueue, procs := m'.procs) && |m'.procs| == |m.procs|
      && forall p | 0 <= p < |m.procs| ::
           m'.procs[p] == m.procs[p].(swapIn := m.procs[p].swapIn || (r <= p < m.cfg.nrProcs && m.procs[p].onSwap))
    decreases m.cfg.nrProcs - r
  {
    if r < m.cfg.nrProcs {
      AskedIsLast(m, r);
      AllAsked(if m.procs[r].onSwap then Enqueue(m, r) else m, r + 1);
    }
  }

  /** When nobody would be swapped out to make room, swap_off succeeds exactly if it leaves nobody
      on swap, and leaves there only those for whom there is no room. */
  lemma SwapOffLeaves(m: Mem, a: Arena)
    requires Inv(m, a) && Roomy(m, a) && ChunksApart(a) && m.swapFd && CanSwapOff(m, a)
    requires Calm(m) && Complete(m) && NoneStale(m)
    ensures var (m', ok) := SwapOff(m);
      && |m'.procs| == |m.procs| && m'.swapFd == !ok
      && (ok <==> forall p | 0 <= p < |m'.procs| :: !m'.procs[p].onSwap)
      && forall p | 0 <= p < |m'.procs| && m'.procs[p].onSwap && 0 < m'.procs[p].size :: !HasRoom(m', m'.procs[p].size)
  {
    var m2 := SwapIn(EnqueueSwapped(m, m.cfg.lowUser));
    SwapOffLegal(m, a);
    ReturnedLeaves(m, a);
    if NoneSwapped(m2) {
      DropSwapMeaning(m2.holes, m2.cfg.swapBase);
    }
  }

  lemma ReturnedLeaves(m: Mem, a: Arena)
    requires Inv(m, a) && Roomy(m, a) && ChunksApart(a) && m.swapFd && CanSwapOff(m, a)
    requires Calm(m) && Complete(m) && NoneStale(m)
    ensures var m2 := SwapIn(EnqueueSwapped(m, m.cfg.lowUser));
      && Inv(m2, a) && |m2.procs| == |m.procs|
      && (NoneSwapped(m2) <==> forall p | 0 <= p < |m2.procs| :: !m2.procs[p].onSwap)
      && forall p | 0 <= p < |m2.procs| && m2.procs[p].onSwap && 0 < m2.procs[p].size :: !HasRoom(m2, m2.procs[p].size)
  {
    var m1 := EnqueueSwapped(m, m.cfg.lowUser);
    SwapOffLegal(m, a);
    EnqueueSwappedKeeps(m, a, m.cfg.lowUser);
    AllAsked(m, m.cfg.lowUser);
    EnqueueSwappedComplete(m, m.cfg.lowUser);
    SwapInMeaning(m1, a, 0);
    CalmSwapIn(m1, a, 0);
    SwapInKeepsComplete(m1, a, 0);
    LeftOnSwap(m1, SwapIn(m1), a);
  }

  lemma LeftOnSwap(m1: Mem, m2: Mem, a: Arena)
    requires Inv(m2, a) && |m2.procs| == |m1.procs| && Complete(m2) && NoRoomBefore(m2, |m2.inQueue|)
    requires m2.cfg == m1.cfg
    requires forall p | m1.cfg.lowUser <= p < m1.cfg.nrProcs && m1.procs[p].onSwap :: m1.procs[p].swapIn
    requires forall p | 0 <= p < |m1.procs| && m2.procs[p].onSwap ::
      m1.procs[p].onSwap && m2.procs[p].swapIn == m1.procs[p].swapIn
    ensures NoneSwapped(m2) <==> forall p | 0 <= p < |m2.procs| :: !m2.procs[p].onSwap
    ensures forall p | 0 <= p < |m2.procs| && m2.procs[p].onSwap && 0 < m2.procs[p].size ::
      !HasRoom(m2, m2.procs[p].size)
  {
    forall p | 0 <= p < |m2.procs| && m2.procs[p].onSwap && 0 < m2.procs[p].size
      ensures !HasRoom(m2, m2.procs[p].size)
    {
      assert m2.procs[p].swapIn;
      var j: nat :| j < |m2.inQueue| && m2.inQueue[j] == p;
    }
  }

  // ---- The swap file ----

  /** How swapping is turned on: once, with the given offset, and the most whole clicks that the
      file and the limit allow. */
  lemma SwapOnExact(m: Mem, offset: nat, bytes: nat)
    requires WellFormed(m)
    ensures var (m', ok) := SwapOn(m, offset, bytes);
      && ok == !m.swapFd && (!ok ==> m' == m)
      && (ok ==> m'.swapFd && m' == m.(cfg := m.cfg.(swapOffset := offset), swapFd := true, holes := m'.holes,
                                       status := m'.status))
    ensures var clicks := SwapClicks(m.cfg, bytes);
      && clicks <= m.cfg.swapMax && clicks * m.cfg.clickSize <= bytes
      && (clicks == m.cfg.swapMax || bytes < (clicks + 1) * m.cfg.clickSize)
  {
    var q := bytes / m.cfg.clickSize;
    assert bytes == q * m.cfg.clickSize + bytes % m.cfg.clickSize;
    Distribute(q, 1, m.cfg.clickSize);
    if m.cfg.swapMax < q {
      Distribute(m.cfg.swapMax, q - m.cfg.swapMax, m.cfg.clickSize);
    }
  }

  /** The part of the swap file that belongs to the swap area. */
  predicate InSwapFile(cfg: Config, a: Arena, x: int) {
    cfg.swapOffset <= x < cfg.swapOffset + a.swapSize * cfg.clickSize
  }

  lemma {:induction false} CopyOutElsewhere(cfg: Config, ram: Store, file: Store, from: nat, to: nat, n: nat, x: int)
    requires forall c: nat | to <= c < to + n :: FileOffset(cfg, c) != x
    ensures Get(CopyOut(cfg, ram, file, from, to, n), x) == Get(file, x)
  {
    if 0 < n {
      CopyOutElsewhere(cfg, ram, file, from, to, n - 1, x);
    }
  }

  /** The clicks of the swap area lie in its part of the file. */
  lemma ClickInFile(cfg: Config, a: Arena, c: nat)
    requires cfg.swapBase <= c < cfg.swapBase + a.swapSize && 0 < cfg.clickSize
    ensures InSwapFile(cfg, a, FileOffset(cfg, c))
  {
    Distribute(c - cfg.swapBase, a.swapSize - (c - cfg.swapBase), cfg.clickSize);
    Distribute(1, a.swapSize - (c - cfg.swapBase) - 1, cfg.clickSize);
  }

  predicate FileKept(m: Mem, m': Mem, x: int) {
    Get(m'.file, x) == Get(m.file, x)
  }

  lemma HoleInFile(m: Mem, a: Arena, k: nat, n: nat, x: int)
    requires Inv(m, a) && k < |m.holes| && m.cfg.swapBase <= m.holes[k].base && n <= m.holes[k].len
    requires !InSwapFile(m.cfg, a, x)
    ensures forall c: nat | m.holes[k].base <= c < m.holes[k].base + n :: FileOffset(m.cfg, c) != x
  {
    forall c: nat | m.holes[k].base <= c < m.holes[k].base + n
      ensures FileOffset(m.cfg, c) != x
    {
      assert m.holes[k].Has(c);
      assert Free(m.holes, c);
      NoChunkAt(m.cfg, a, c);
      ClickInFile(m.cfg, a, c);
    }
  }

  lemma SwapOutFile(m: Mem, a: Arena, r: nat, x: int)
    requires Inv(m, a) && Roomy(m, a) && m.cfg.lowUser <= r < m.cfg.nrProcs && Swappable(m, r)
    requires !InSwapFile(m.cfg, a, x)
    ensures FileKept(m, SwapOutAt(m, r), x)
  {
    SwapOutKeeps(m, a, r);
    SwapOutAtFields(m, r);
    var k, n := SwapFit(m.holes, m.cfg.swapBase, m.procs[r].size), m.procs[r].size;
    HoleInFile(m, a, k, n, x);
    CopyOutElsewhere(m.cfg, m.ram, m.file, m.procs[r].base, m.holes[k].base, n, x);
  }

  lemma {:induction false} AllocFile(m: Mem, a: Arena, clicks: nat, x: int)
    requires Inv(m, a) && Roomy(m, a) && SoundHead(m, clicks) && !InSwapFile(m.cfg, a, x)
    ensures FileKept(m, AllocMem(m, clicks).0, x)
    decreases Resident(m.procs)
  {
    AllocOnceMeaning(m, a, clicks);
    if AllocOnce(m, clicks).1.None? {
      SwapOutProgress(m);
      match SearchFrom(m, m.outswap)
      case None =>
      case Some(r) =>
        SwapOutKeeps(m, a, r);
        HeadAfterSwapOut(m, a, r);
        SwapOutFile(m, a, r, x);
        AllocFile(SwapOutAt(m, r), a, clicks, x);
    }
  }

  lemma {:induction false} SwapInFile(m: Mem, a: Arena, i: nat, x: int)
    requires Inv(m, a) && Roomy(m, a) && i <= |m.inQueue| && SwapInLegal(m, i) && !InSwapFile(m.cfg, a, x)
    ensures FileKept(m, SwapInFrom(m, i), x)
    decreases |m.inQueue| - i
  {
    if i < |m.inQueue| {
      var (m1, i1) := SwapInTurn(m, i);
      SwapInTurnKeeps(m, a, i);
      TurnFile(m, a, i, x);
      SwapInFile(m1, a, i1, x);
    }
  }

  lemma TurnFile(m: Mem, a: Arena, i: nat, x: int)
    requires Inv(m, a) && Roomy(m, a) && i < |m.inQueue| && !InSwapFile(m.cfg, a, x)
    requires m.procs[m.inQueue[i]].swapIn ==> SoundHead(m, m.procs[m.inQueue[i]].size)
    ensures FileKept(m, SwapInTurn(m, i).0, x)
  {
    var p := m.inQueue[i];
    if m.procs[p].swapIn {
      AllocFile(m, a, m.procs[p].size, x);
    }
  }

  /** Nothing is ever written to the swap file outside the part that was given to swap_on. */
  lemma StepFile(m: Mem, a: Arena, op: Op, x: int)
    requires Inv(m, a) && Roomy(m, a) && ChunksApart(a) && Legal(m, a, op) && !InSwapFile(m.cfg, a, x)
    ensures FileKept(m, Apply(m, op), x)
    ensures Apply(m, op).cfg == if op.On? && !m.swapFd then m.cfg.(swapOffset := op.offset) else m.cfg
  {
    match op
    case Fork(p, n) => AllocFile(m, a, n, x);
    case PushOut =>
      match SearchFrom(m, m.outswap) {
        case None =>
        case Some(r) => SwapOutFile(m, a, r, x);
      }
    case PullIn =>
      PullInLegal(m, a);
      SwapInFile(m, a, 0, x);
    case Off =>
      if m.swapFd {
        SwapOffFile(m, a, x);
      }
    case _ =>
  }

  lemma SwapOffFile(m: Mem, a: Arena, x: int)
    requires Inv(m, a) && Roomy(m, a) && ChunksApart(a) && m.swapFd && CanSwapOff(m, a) && !InSwapFile(m.cfg, a, x)
    ensures FileKept(m, SwapOff(m).0, x) && SwapOff(m).0.cfg == m.cfg
  {
    var m1 := EnqueueSwapped(m, m.cfg.lowUser);
    SwapOffLegal(m, a);
    EnqueueSwappedKeeps(m, a, m.cfg.lowUser);
    AllAsked(m, m.cfg.lowUser);
    SwapInFile(m1, a, 0, x);
  }

  // ---- Start-up ----

  lemma ChunkBase(m: Mem, chunk: Hole)
    requires |m.holes| < m.cfg.nrHoles && m.status.Running?
    ensures var m1 := AddChunk(m, chunk);
      && m1.status.Running? && |m1.holes| <= |m.holes| + 1 && m1.cfg.nrHoles == m.cfg.nrHoles
      && m1.cfg.swapBase == if m.cfg.swapBase < chunk.End() then chunk.End() else m.cfg.swapBase
  {
    ReleaseSize(m.holes, chunk.base, chunk.len);
  }

  function Higher(base: nat, chunks: seq<Hole>, i: nat): nat
    requires i <= |chunks|
    decreases |chunks| - i
  {
    if i == |chunks| then base else Higher(if base < chunks[i].End() then chunks[i].End() else base, chunks, i + 1)
  }

  lemma {:induction false} HigherMeaning(base: nat, chunks: seq<Hole>, i: nat)
    requires i <= |chunks|
    ensures var h := Higher(base, chunks, i);
      && base <= h && (forall j | i <= j < |chunks| :: chunks[j].End() <= h)
      && (h == base || exists j | i <= j < |chunks| :: chunks[j].End() == h)
    decreases |chunks| - i
  {
    if i < |chunks| {
      HigherMeaning(if base < chunks[i].End() then chunks[i].End() else base, chunks, i + 1);
    }
  }

  lemma {:induction false} HighestChunk(m: Mem, chunks: seq<Hole>, i: nat)
    requires i <= |chunks| && |m.holes| + |chunks| - i <= m.cfg.nrHoles && m.status.Running?
    requires forall j | 0 <= j < |chunks| :: 0 < chunks[j].len
    ensures AddChunks(m, chunks, i).cfg.swapBase == Higher(m.cfg.swapBase, chunks, i)
    decreases |chunks| - i
  {
    if i == |chunks| {
      AddChunksDone(m, chunks, i);
    } else {
      ChunkBase(m, chunks[i]);
      AddChunksStep(m, chunks, i);
      HighestChunk(AddChunk(m, chunks[i]), chunks, i + 1);
    }
  }

  /** The swap area begins one click above the highest chunk. */
  lemma SwapAreaStarts(cfg: Config, nrSlots: nat, chunks: seq<Hole>)
    requires cfg.swapBase == 0 && |chunks| <= cfg.nrHoles && forall j | 0 <= j < |chunks| :: 0 < chunks[j].len
    ensures var base := MemInit(cfg, nrSlots, chunks).cfg.swapBase;
      && (forall j | 0 <= j < |chunks| :: chunks[j].End() + 1 <= base)
      && (chunks == [] ==> base == 1) && (chunks != [] ==> exists j | 0 <= j < |chunks| :: chunks[j].End() + 1 == base)
  {
    var start := Mem(cfg, [], seq(nrSlots, _ => EMPTY_SLOT), cfg.lowUser, [], false, false, map[], map[], Running);
    HighestChunk(start, chunks, 0);
    HigherMeaning(0, chunks, 0);
    if chunks != [] {
      assert chunks[0].End() <= AddChunks(start, chunks, 0).cfg.swapBase;
    }
  }

  lemma {:induction false} ChunksUpTo(m: Mem, chunks: seq<Hole>, i: nat, e: nat)
    requires i <= e < |chunks| && chunks[e].len == 0
    ensures AddChunks(m, chunks, i) == AddChunks(m, chunks[..e], i)
    decreases e - i
  {
    if i == e || chunks[i].len == 0 || !m.status.Running? {
      AddChunksDone(m, chunks, i);
      AddChunksDone(m, chunks[..e], i);
    } else {
      AddChunksStep(m, chunks, i);
      AddChunksStep(m, chunks[..e], i);
      ChunksUpTo(AddChunk(m, chunks[i]), chunks, i + 1, e);
    }
  }

  /** The chunks that are reported end with an empty one; what stands behind it does not count. */
  lemma InitStops(cfg: Config, nrSlots: nat, chunks: seq<Hole>, e: nat)
    requires e < |chunks| && chunks[e].len == 0
    ensures MemInit(cfg, nrSlots, chunks) == MemInit(cfg, nrSlots, chunks[..e])
  {
    ChunksUpTo(Mem(cfg, [], seq(nrSlots, _ => EMPTY_SLOT), cfg.lowUser, [], false, false, map[], map[], Running),
               chunks, 0, e);
  }
}
