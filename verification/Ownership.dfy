/** Who owns a click: every managed click belongs to exactly one hole or one live
    block, swapped-out images lie in the swap area, and moving an image between
    memory and the swap file does not change it. */
module Ownership {
  import opened HoleSpec
  import opened Sets
  import opened SwapSpec

  /** The memory being managed: the chunks reported at start-up and the swap area. */
  datatype Arena = Arena(chunks: seq<Hole>, swapSize: nat)

  ghost predicate Managed(cfg: Config, a: Arena, c: nat) {
    Free(a.chunks, c) || cfg.swapBase <= c < cfg.swapBase + a.swapSize
  }

  /** Regular memory ends at least one click below the swap area. */
  predicate ArenaOk(cfg: Config, a: Arena) {
    0 < cfg.swapBase && forall i | 0 <= i < |a.chunks| :: a.chunks[i].End() < cfg.swapBase
  }

  ghost predicate Held(procs: seq<Proc>, p: nat, c: nat) {
    p < |procs| && procs[p].Holds(c)
  }

  /** The owner of each managed click is unique, and only managed clicks are owned. */
  ghost predicate Partition(cfg: Config, a: Arena, holes: seq<Hole>, procs: seq<Proc>) {
    && (forall c: nat :: Free(holes, c) ==> Managed(cfg, a, c))
    && (forall p: nat, c: nat :: Held(procs, p, c) ==> Managed(cfg, a, c) && !Free(holes, c))
    && (forall p: nat, q: nat, c: nat :: Held(procs, p, c) && Held(procs, q, c) ==> p == q)
    && (forall c: nat :: Managed(cfg, a, c) ==> Free(holes, c) || exists p: nat :: Held(procs, p, c))
  }

  /** Exactly the swapped-out images lie in the swap area, and only user processes are there. */
  predicate Placed(cfg: Config, procs: seq<Proc>) {
    forall p | 0 <= p < |procs| ::
      && (procs[p].onSwap <==> cfg.swapBase <= procs[p].base)
      && (procs[p].swapIn ==> procs[p].onSwap)
      && (procs[p].onSwap ==> cfg.lowUser <= p < cfg.nrProcs)
  }

  ghost predicate Inv(m: Mem, a: Arena) {
    && WellFormed(m) && m.status.Running? && ArenaOk(m.cfg, a)
    && (!m.swapFd ==> a.swapSize == 0)
    && Canonical(m.holes)
    && Partition(m.cfg, a, m.holes, m.procs)
    && Placed(m.cfg, m.procs)
  }

  // ---- Moving one block ----

  /** Process `p` gives up its block for a free one. */
  lemma Rehomed(cfg: Config, a: Arena, holes: seq<Hole>, procs: seq<Proc>, p: nat, moved: Proc, holes': seq<Hole>)
    requires Partition(cfg, a, holes, procs) && p < |procs|
    requires forall c: nat | moved.Holds(c) :: Free(holes, c)
    requires forall c: nat :: Free(holes', c) <==> (Free(holes, c) && !moved.Holds(c)) || procs[p].Holds(c)
    ensures Partition(cfg, a, holes', procs[p := moved])
  {
    var procs' := procs[p := moved];
    assert forall q: nat, c: nat | q != p :: Held(procs', q, c) <==> Held(procs, q, c);
    assert forall c: nat :: Held(procs', p, c) <==> moved.Holds(c);
    assert forall c: nat :: Held(procs, p, c) <==> procs[p].Holds(c);
    forall c: nat | Managed(cfg, a, c)
      ensures Free(holes', c) || exists q: nat :: Held(procs', q, c)
    {
      if !Free(holes, c) {
        var q: nat :| Held(procs, q, c);
        if q != p {
          assert Held(procs', q, c);
        }
      } else if moved.Holds(c) {
        assert Held(procs', p, c);
      }
    }
  }

  /** Taking a block from hole `k` and giving another one back, as sets of clicks. */
  lemma BiteAndRelease(holes: seq<Hole>, k: nat, clicks: nat, base: nat)
    requires Canonical(holes) && k < |holes| && clicks <= holes[k].len
    requires forall c: nat | base <= c < base + clicks :: !Free(holes, c)
    ensures var after := Release(Bite(holes, k, clicks), base, clicks);
      && Canonical(after)
      && (forall c: nat :: Free(after, c) <==>
            (Free(holes, c) && !(holes[k].base <= c < holes[k].base + clicks)) || base <= c < base + clicks)
  {
    BiteMeaning(holes, k, clicks);
    DisjointClicks(Bite(holes, k, clicks), base, clicks);
    ReleaseMeaning(Bite(holes, k, clicks), base, clicks);
  }

  lemma BittenWereFree(holes: seq<Hole>, k: nat, clicks: nat)
    requires k < |holes| && clicks <= holes[k].len
    ensures forall c: nat | holes[k].base <= c < holes[k].base + clicks :: Free(holes, c)
  {
    forall c: nat | holes[k].base <= c < holes[k].base + clicks
      ensures Free(holes, c)
    {
      assert holes[k].Has(c);
    }
  }

  // ---- The swap file keeps images apart and intact ----

  /** Different clicks are at different places in the swap file, one whole click apart. */
  lemma OffsetsApart(cfg: Config, x: nat, y: nat)
    requires x < y && 0 < cfg.clickSize
    ensures FileOffset(cfg, x) + cfg.clickSize <= FileOffset(cfg, y)
  {
    Distribute(x - cfg.swapBase, y - x, cfg.clickSize);
    Distribute(1, y - x - 1, cfg.clickSize);
  }

  lemma Distribute(a: int, b: int, k: nat)
    ensures (a + b) * k == a * k + b * k
    ensures 0 <= b ==> 0 <= b * k
  {
  }

  lemma {:induction false} CopyOutGet(cfg: Config, ram: Store, file: Store, from: nat, to: nat, n: nat, x: nat)
    requires 0 < cfg.clickSize
    ensures Get(CopyOut(cfg, ram, file, from, to, n), FileOffset(cfg, x))
         == if to <= x < to + n then Get(ram, from + x - to) else Get(file, FileOffset(cfg, x))
  {
    if 0 < n {
      CopyOutGet(cfg, ram, file, from, to, n - 1, x);
      var last := to + n - 1;
      if x < last {
        OffsetsApart(cfg, x, last);
      } else if last < x {
        OffsetsApart(cfg, last, x);
      }
    }
  }

  lemma {:induction false} CopyInGet(cfg: Config, ram: Store, file: Store, from: nat, to: nat, n: nat, x: nat)
    ensures Get(CopyIn(cfg, ram, file, from, to, n), x)
         == if to <= x < to + n then Get(file, FileOffset(cfg, from + x - to)) else Get(ram, x)
  {
    if 0 < n {
      CopyInGet(cfg, ram, file, from, to, n - 1, x);
    }
  }

  /** The byte ranges that two swapped-out processes occupy in the swap file never overlap. */
  lemma SwapRangesApart(m: Mem, a: Arena, p: nat, q: nat)
    requires Inv(m, a) && p < |m.procs| && q < |m.procs| && p != q
    requires m.procs[p].onSwap && m.procs[q].onSwap && 0 < m.procs[p].size && 0 < m.procs[q].size
    ensures var (s, t) := (m.procs[p], m.procs[q]);
      || FileOffset(m.cfg, s.base) + s.size * m.cfg.clickSize <= FileOffset(m.cfg, t.base)
      || FileOffset(m.cfg, t.base) + t.size * m.cfg.clickSize <= FileOffset(m.cfg, s.base)
  {
    var (s, t) := (m.procs[p], m.procs[q]);
    assert s.base < t.base + t.size && t.base < s.base + s.size ==>
      var c := if s.base <= t.base then t.base else s.base; Held(m.procs, p, c) && Held(m.procs, q, c);
    if s.base + s.size <= t.base {
      RangeEnd(m.cfg, s, t);
    } else {
      RangeEnd(m.cfg, t, s);
    }
  }

  lemma RangeEnd(cfg: Config, s: Proc, t: Proc)
    requires s.base + s.size <= t.base && 0 < s.size && 0 < cfg.clickSize
    ensures FileOffset(cfg, s.base) + s.size * cfg.clickSize <= FileOffset(cfg, t.base)
  {
    var gap := t.base - s.base - s.size;
    Distribute(s.base - cfg.swapBase, s.size, cfg.clickSize);
    Distribute(s.base - cfg.swapBase + s.size, gap, cfg.clickSize);
  }

  /** The images of all processes are the same in both states. */
  ghost predicate SameImages(m: Mem, m': Mem) {
    |m'.procs| == |m.procs| && forall p: nat | p < |m.procs| :: Image(m', p) == Image(m, p)
  }

  // ---- swap_out ----

  /** The state after a successful swap_out, field by field. */
  lemma SwapOutAtFields(m: Mem, r: nat)
    requires WellFormed(m) && m.cfg.lowUser <= r < m.cfg.nrProcs && Swappable(m, r)
    requires SwapOutAt(m, r).status.Running?
    ensures var rmp, k := m.procs[r], SwapFit(m.holes, m.cfg.swapBase, m.procs[r].size);
      SwapOutAt(m, r) == m.(
        holes := Release(Bite(m.holes, k, rmp.size), rmp.base, rmp.size),
        file := CopyOut(m.cfg, m.ram, m.file, rmp.base, m.holes[k].base, rmp.size),
        procs := m.procs[r := rmp.(base := m.holes[k].base, onSwap := true)],
        outswap := r)
  {
    var rmp, k := m.procs[r], SwapFit(m.holes, m.cfg.swapBase, m.procs[r].size);
    assert m.procs[r := rmp.(base := m.holes[k].base)][r := rmp.(base := m.holes[k].base, onSwap := true)]
        == m.procs[r := rmp.(base := m.holes[k].base, onSwap := true)];
  }

  /** Exchanging the block of `r` for the front of hole `k`. */
  lemma Exchanged(cfg: Config, a: Arena, holes: seq<Hole>, procs: seq<Proc>, r: nat, k: nat, moved: Proc)
    requires Canonical(holes) && Partition(cfg, a, holes, procs) && r < |procs|
    requires k < |holes| && moved.size == procs[r].size <= holes[k].len && moved.base == holes[k].base
    ensures var holes' := Release(Bite(holes, k, moved.size), procs[r].base, procs[r].size);
      Canonical(holes') && Partition(cfg, a, holes', procs[r := moved])
  {
    forall c: nat | procs[r].Holds(c)
      ensures !Free(holes, c)
    {
      assert Held(procs, r, c);
    }
    BiteAndRelease(holes, k, moved.size, procs[r].base);
    BittenWereFree(holes, k, moved.size);
    Rehomed(cfg, a, holes, procs, r, moved, Release(Bite(holes, k, moved.size), procs[r].base, procs[r].size));
  }

  lemma SwapOutAtInv(m: Mem, a: Arena, r: nat)
    requires Inv(m, a) && m.cfg.lowUser <= r < m.cfg.nrProcs && Swappable(m, r)
    requires SwapOutAt(m, r).status.Running?
    ensures Inv(SwapOutAt(m, r), a)
  {
    SwapOutAtFields(m, r);
    var k := SwapFit(m.holes, m.cfg.swapBase, m.procs[r].size);
    Exchanged(m.cfg, a, m.holes, m.procs, r, k, m.procs[r].(base := m.holes[k].base, onSwap := true));
  }

  /** A copy into the clicks [to, to+n) of the swap area, none of them held by `q`. */
  lemma CopyOutCell(m: Mem, m': Mem, from: nat, to: nat, n: nat, q: Proc, i: nat)
    requires m'.cfg == m.cfg && m'.ram == m.ram && 0 < m.cfg.clickSize
    requires m'.file == CopyOut(m.cfg, m.ram, m.file, from, to, n)
    requires !(to <= q.base + i < to + n)
    ensures Cell(m', q, i) == Cell(m, q, i)
  {
    CopyOutGet(m.cfg, m.ram, m.file, from, to, n, q.base + i);
  }

  lemma HeldOutsideHoles(cfg: Config, a: Arena, holes: seq<Hole>, procs: seq<Proc>, p: nat, i: nat, k: nat)
    requires Partition(cfg, a, holes, procs) && p < |procs| && i < procs[p].size && k < |holes|
    ensures !holes[k].Has(procs[p].base + i)
  {
    var c := procs[p].base + i;
    assert Held(procs, p, c);
    assert !Free(holes, c);
  }

  lemma SwapOutCell(m: Mem, a: Arena, r: nat, p: nat, i: nat)
    requires Inv(m, a) && m.cfg.lowUser <= r < m.cfg.nrProcs && Swappable(m, r)
    requires SwapOutAt(m, r).status.Running? && p < |m.procs| && i < m.procs[p].size
    ensures Cell(SwapOutAt(m, r), SwapOutAt(m, r).procs[p], i) == Cell(m, m.procs[p], i)
  {
    SwapOutAtFields(m, r);
    var k := SwapFit(m.holes, m.cfg.swapBase, m.procs[r].size);
    HeldOutsideHoles(m.cfg, a, m.holes, m.procs, p, i, k);
    MovedCell(m, SwapOutAt(m, r), r, k, p, i);
  }

  lemma MovedCell(m: Mem, m': Mem, r: nat, k: nat, p: nat, i: nat)
    requires r < |m.procs| && k < |m.holes| && m.procs[r].size <= m.holes[k].len && !m.procs[r].onSwap
    requires p < |m.procs| && i < m.procs[p].size && 0 < m.cfg.clickSize
    requires !m.holes[k].Has(m.procs[p].base + i)
    requires m'.cfg == m.cfg && m'.ram == m.ram
    requires m'.file == CopyOut(m.cfg, m.ram, m.file, m.procs[r].base, m.holes[k].base, m.procs[r].size)
    requires m'.procs == m.procs[r := m.procs[r].(base := m.holes[k].base, onSwap := true)]
    ensures Cell(m', m'.procs[p], i) == Cell(m, m.procs[p], i)
  {
    var from, to, n := m.procs[r].base, m.holes[k].base, m.procs[r].size;
    if p == r {
      CopyOutGet(m.cfg, m.ram, m.file, from, to, n, to + i);
    } else {
      CopyOutCell(m, m', from, to, n, m.procs[p], i);
    }
  }

  lemma SwapOutAtImages(m: Mem, a: Arena, r: nat)
    requires Inv(m, a) && m.cfg.lowUser <= r < m.cfg.nrProcs && Swappable(m, r)
    requires SwapOutAt(m, r).status.Running?
    ensures SameImages(m, SwapOutAt(m, r))
  {
    SwapOutAtFields(m, r);
    SameCells(m, a, SwapOutAt(m, r), r);
  }

  lemma SameCells(m: Mem, a: Arena, m': Mem, r: nat)
    requires Inv(m, a) && m.cfg.lowUser <= r < m.cfg.nrProcs && Swappable(m, r)
    requires m' == SwapOutAt(m, r) && m'.status.Running? && |m'.procs| == |m.procs|
    requires forall p | 0 <= p < |m.procs| :: m'.procs[p].size == m.procs[p].size
    ensures SameImages(m, m')
  {
    forall p: nat | p < |m.procs|
      ensures Image(m', p) == Image(m, p)
    {
      forall i: nat | i < m.procs[p].size
        ensures Cell(m', m'.procs[p], i) == Cell(m, m.procs[p], i)
      {
        SwapOutCell(m, a, r, p, i);
      }
    }
  }

  // ---- alloc_mem ----

  /** Worst fit looks at the head hole unconditionally; it must be a regular one. */
  predicate SafeHead(m: Mem) {
    m.worst ==> m.holes != [] && m.holes[0].base < m.cfg.swapBase
  }

  /** The first pass of worst fit for `clicks` goes right: the head hole is regular, or too
      small to be handed out. */
  predicate SoundHead(m: Mem, clicks: nat) {
    m.worst ==> m.holes != [] && (m.holes[0].base < m.cfg.swapBase || m.holes[0].len < clicks)
  }

  /** A free regular click means that the head hole is regular. */
  lemma HeadRegular(holes: seq<Hole>, c: nat, limit: nat)
    requires Canonical(holes) && Free(holes, c) && c < limit
    ensures holes != [] && holes[0].base < limit
  {
    var i :| 0 <= i < |holes| && holes[i].Has(c);
    assert 0 < i ==> holes[0].base + holes[0].len < holes[i].base;
  }

  lemma ExchangedHead(cfg: Config, a: Arena, holes: seq<Hole>, procs: seq<Proc>, r: nat, k: nat)
    requires Canonical(holes) && Partition(cfg, a, holes, procs) && r < |procs|
    requires k < |holes| && procs[r].size <= holes[k].len
    requires holes[0].base < cfg.swapBase <= holes[k].base
    ensures var holes' := Release(Bite(holes, k, procs[r].size), procs[r].base, procs[r].size);
      holes' != [] && holes'[0].base < cfg.swapBase
  {
    forall c: nat | procs[r].Holds(c)
      ensures !Free(holes, c)
    {
      assert Held(procs, r, c);
    }
    BiteAndRelease(holes, k, procs[r].size, procs[r].base);
    assert holes[0].Has(holes[0].base);
    assert Free(holes, holes[0].base);
    HeadRegular(Release(Bite(holes, k, procs[r].size), procs[r].base, procs[r].size), holes[0].base, cfg.swapBase);
  }

  /** Everything a successful swap_out keeps. */
  lemma SwapOutStep(m: Mem, a: Arena, r: nat)
    requires Inv(m, a)
    requires m.cfg.lowUser <= r < m.cfg.nrProcs && Swappable(m, r) && SwapOutAt(m, r).status.Running?
    ensures Inv(SwapOutAt(m, r), a) && SameImages(m, SwapOutAt(m, r)) && Progressed(m, SwapOutAt(m, r))
    ensures SafeHead(m) ==> SafeHead(SwapOutAt(m, r))
  {
    SwapOutAtFields(m, r);
    SwapOutAtInv(m, a, r);
    SwapOutAtImages(m, a, r);
    if m.worst && SafeHead(m) {
      ExchangedHead(m.cfg, a, m.holes, m.procs, r, SwapFit(m.holes, m.cfg.swapBase, m.procs[r].size));
    }
  }

  /** One pass over the holes that goes right: a block is found exactly when some regular hole
      is big enough, and the block comes from a regular hole. */
  lemma AllocOnceMeaning(m: Mem, a: Arena, clicks: nat)
    requires Inv(m, a) && SoundHead(m, clicks)
    ensures var (m', base) := AllocOnce(m, clicks);
      && m'.status.Running?
      && (base.None? ==> m' == m)
      && (base.Some? <==> exists i | 0 <= i < |m.holes| :: m.holes[i].base < m.cfg.swapBase && clicks <= m.holes[i].len)
      && (base.Some? ==> exists k | 0 <= k < |m.holes| ::
            && m.holes[k].base == base.value < m.cfg.swapBase && clicks <= m.holes[k].len
            && m' == m.(holes := Bite(m.holes, k, clicks)))
  {
    if !m.worst {
      FirstFitMeaning(m.holes, m.cfg.swapBase, clicks);
    } else if SafeHead(m) {
      WorstFitMeaning(m.holes, m.cfg.swapBase);
    } else {
      WorstFitIrregularHead(m.holes, m.cfg.swapBase);
    }
  }

  /** Which hole it is: the first that is big enough, or the first of the biggest. */
  lemma AllocOncePolicy(m: Mem, a: Arena, clicks: nat)
    requires Inv(m, a) && SoundHead(m, clicks) && AllocOnce(m, clicks).1.Some?
    ensures exists k | 0 <= k < |m.holes| ::
      && m.holes[k].base == AllocOnce(m, clicks).1.value < m.cfg.swapBase
      && (!m.worst ==> forall i | 0 <= i < k :: m.holes[i].base < m.cfg.swapBase ==> m.holes[i].len < clicks)
      && (m.worst ==> forall i | 0 <= i < |m.holes| && m.holes[i].base < m.cfg.swapBase ::
            m.holes[i].len <= m.holes[k].len && (i < k ==> m.holes[i].len < m.holes[k].len))
  {
    if !m.worst {
      FirstFitMeaning(m.holes, m.cfg.swapBase, clicks);
    } else if SafeHead(m) {
      WorstFitMeaning(m.holes, m.cfg.swapBase);
    } else {
      WorstFitIrregularHead(m.holes, m.cfg.swapBase);
    }
  }

  /** The state in which the pass that ends alloc_mem is made. */
  function LastPass(m: Mem, clicks: nat): (mid: Mem)
    requires WellFormed(m) && m.status.Running?
    decreases Resident(m.procs)
  {
    var (m1, base) := AllocOnce(m, clicks);
    if base.Some? || !m1.status.Running? then m
    else
      SwapOutProgress(m1);
      var (m2, ok) := SwapOut(m1);
      if ok && m2.status.Running? then LastPass(m2, clicks) else m2
  }

  /** Nothing but swapping happened on the way. */
  predicate Progressed(m: Mem, m': Mem) {
    && m'.cfg == m.cfg && m'.inQueue == m.inQueue && m'.worst == m.worst && m'.swapFd == m.swapFd
    && |m'.procs| == |m.procs|
    && (forall p | 0 <= p < |m.procs| ::
          && m'.procs[p].size == m.procs[p].size && m'.procs[p].swapIn == m.procs[p].swapIn
          && (m.procs[p].onSwap ==> m'.procs[p] == m.procs[p]))
  }

  // ---- How many holes there can be ----

  /** The processes that own memory. */
  function Live(procs: seq<Proc>): set<nat> {
    set p: nat | p < |procs| && 0 < procs[p].size
  }

  /** The click behind a hole starts a live block, or the hole reaches the end of a
      chunk or of the swap area. */
  lemma BehindHole(m: Mem, a: Arena, i: nat)
    requires Inv(m, a) && i < |m.holes|
    ensures var e := m.holes[i].End();
      || (exists p: nat :: p in Live(m.procs) && m.procs[p].base == e)
      || (exists j :: 0 <= j < |a.chunks| && a.chunks[j].End() == e)
      || e == m.cfg.swapBase + a.swapSize
  {
    var e := m.holes[i].End();
    assert m.holes[i].Has(e - 1);
    assert Free(m.holes, e - 1);
    assert Managed(m.cfg, a, e - 1);
    if Managed(m.cfg, a, e) {
      NotAdjacent(m.holes, i);
      var p: nat :| Held(m.procs, p, e);
      assert !Held(m.procs, p, e - 1);
      assert p in Live(m.procs) && m.procs[p].base == e;
    } else if Free(a.chunks, e - 1) {
      var j :| 0 <= j < |a.chunks| && a.chunks[j].Has(e - 1);
      if a.chunks[j].Has(e) {
        assert Free(a.chunks, e);
      }
    }
  }

  lemma NotAdjacent(holes: seq<Hole>, i: nat)
    requires Canonical(holes) && i < |holes|
    ensures !Free(holes, holes[i].End())
  {
  }

  /** Distinct members of a finite set are not more than its elements. */
  lemma {:induction false} Pigeonhole(s: seq<nat>, t: set<nat>)
    requires forall i, j | 0 <= i < j < |s| :: s[i] != s[j]
    requires forall i | 0 <= i < |s| :: s[i] in t
    ensures |s| <= |t|
  {
    if s != [] {
      Pigeonhole(s[1..], t - {s[0]});
    }
  }

  /** Which block, chunk or area ends the hole: a number below |procs| for a block, then
      the chunks, then the swap area. */
  ghost function Stop(m: Mem, a: Arena, i: nat): (s: nat)
    requires Inv(m, a) && i < |m.holes|
    ensures s <= |m.procs| + |a.chunks|
    ensures s < |m.procs| ==> s in Live(m.procs) && m.procs[s].base == m.holes[i].End()
    ensures |m.procs| <= s < |m.procs| + |a.chunks| ==> a.chunks[s - |m.procs|].End() == m.holes[i].End()
    ensures s == |m.procs| + |a.chunks| ==> m.holes[i].End() == m.cfg.swapBase + a.swapSize
  {
    BehindHole(m, a, i);
    var e := m.holes[i].End();
    if exists p: nat :: p in Live(m.procs) && m.procs[p].base == e then
      var p: nat :| p in Live(m.procs) && m.procs[p].base == e; p
    else if exists j :: 0 <= j < |a.chunks| && a.chunks[j].End() == e then
      var j :| 0 <= j < |a.chunks| && a.chunks[j].End() == e; |m.procs| + j
    else |m.procs| + |a.chunks|
  }

  /** There are never more holes than live blocks and initial chunks, the swap area counting as one. */
  lemma HoleBound(m: Mem, a: Arena)
    requires Inv(m, a)
    ensures |m.holes| <= |Live(m.procs)| + |a.chunks| + 1
  {
    var stops := seq(|m.holes|, i requires 0 <= i < |m.holes| => Stop(m, a, i));
    var others := Range(|m.procs|, |a.chunks| + 1);
    forall i, j | 0 <= i < j < |stops|
      ensures stops[i] != stops[j]
    {
      assert m.holes[i].End() < m.holes[j].base;
    }
    Pigeonhole(stops, Live(m.procs) + others);
  }

  /** The hole table has room for every hole there can be. */
  predicate Roomy(m: Mem, a: Arena) {
    |Live(m.procs)| + |a.chunks| + 1 < m.cfg.nrHoles
  }

  lemma SameLive(procs: seq<Proc>, procs': seq<Proc>)
    requires |procs'| == |procs|
    requires forall p | 0 <= p < |procs| :: procs'[p].size == procs[p].size
    ensures Live(procs') == Live(procs)
  {
  }

  /** With room in the table, swap_out does not panic. */
  lemma SwapOutAtRuns(m: Mem, a: Arena, r: nat)
    requires Inv(m, a) && Roomy(m, a) && m.cfg.lowUser <= r < m.cfg.nrProcs && Swappable(m, r)
    ensures SwapOutAt(m, r).status.Running?
  {
    HoleBound(m, a);
  }

  /** Everything a swap_out keeps, when the table is roomy. */
  lemma SwapOutKeeps(m: Mem, a: Arena, r: nat)
    requires Inv(m, a) && Roomy(m, a) && m.cfg.lowUser <= r < m.cfg.nrProcs && Swappable(m, r)
    ensures var m' := SwapOutAt(m, r);
      && Inv(m', a) && Roomy(m', a) && SameImages(m, m') && Progressed(m, m')
      && (SafeHead(m) ==> SafeHead(m'))
  {
    SwapOutAtRuns(m, a, r);
    SwapOutStep(m, a, r);
    SameLive(m.procs, SwapOutAt(m, r).procs);
  }

  /** Swapping out a process that owns memory leaves a regular head hole. */
  lemma FreshRegularHead(m: Mem, a: Arena, r: nat)
    requires Inv(m, a) && Roomy(m, a) && m.cfg.lowUser <= r < m.cfg.nrProcs && Swappable(m, r) && 0 < m.procs[r].size
    ensures SafeHead(SwapOutAt(m, r))
  {
    SwapOutKeeps(m, a, r);
    SwapOutAtFields(m, r);
    var m', rmp := SwapOutAt(m, r), m.procs[r];
    assert Held(m.procs, r, rmp.base);
    assert Managed(m.cfg, a, rmp.base);
    if !Free(m'.holes, rmp.base) {
      var p: nat :| Held(m'.procs, p, rmp.base);
      assert p != r ==> Held(m.procs, p, rmp.base);
      assert false;
    }
    HeadRegular(m'.holes, rmp.base, m.cfg.swapBase);
  }

  /** Swapping out a process leaves a regular head hole, or an empty image moved and nothing changed. */
  lemma HeadAfterSwapOut(m: Mem, a: Arena, r: nat)
    requires Inv(m, a) && Roomy(m, a) && m.cfg.lowUser <= r < m.cfg.nrProcs && Swappable(m, r)
    ensures SafeHead(SwapOutAt(m, r)) || SwapOutAt(m, r).holes == m.holes
  {
    if m.procs[r].size == 0 {
      SwapOutKeeps(m, a, r);
      SwapOutAtFields(m, r);
    } else {
      FreshRegularHead(m, a, r);
    }
  }

  /** Retrying after each swap_out keeps everything in order: the pass that ends alloc_mem
      starts from a sound state with unchanged images, and when alloc_mem gives up, nobody
      can be swapped out any more. The hole table never overflows on the way. */
  lemma {:induction false} AllocMemMeaning(m: Mem, a: Arena, clicks: nat)
    requires Inv(m, a) && Roomy(m, a) && SoundHead(m, clicks)
    ensures var mid := LastPass(m, clicks);
      && Inv(mid, a) && Roomy(mid, a) && SoundHead(mid, clicks) && SameImages(m, mid) && Progressed(m, mid)
      && AllocMem(m, clicks) == AllocOnce(mid, clicks)
      && (AllocMem(m, clicks).1.None? ==> forall r: nat :: !MayGo(mid, r))
    decreases Resident(m.procs)
  {
    AllocOnceMeaning(m, a, clicks);
    if AllocOnce(m, clicks).1.None? {
      SwapOutProgress(m);
      SwapOutExact(m);
      match SearchFrom(m, m.outswap)
      case None =>
      case Some(r) =>
        SwapOutKeeps(m, a, r);
        HeadAfterSwapOut(m, a, r);
        AllocMemMeaning(SwapOutAt(m, r), a, clicks);
    }
  }
}
