/** Clicks add up: what is free and what is in use is what there is, in memory and altogether. */
module Conservation {
  import opened HoleSpec
  import opened Ownership
  import opened Sets
  import opened SwapSpec

  // ---- Blocks and their clicks ----

  function Lens(bs: seq<Hole>): nat {
    if bs == [] then 0 else bs[0].len + Lens(bs[1..])
  }

  ghost function Clicks(bs: seq<Hole>): set<nat> {
    if bs == [] then {} else Range(bs[0].base, bs[0].len) + Clicks(bs[1..])
  }

  lemma {:induction false} ClicksMeaning(bs: seq<Hole>, c: nat)
    ensures c in Clicks(bs) <==> Free(bs, c)
  {
    if bs != [] {
      ClicksMeaning(bs[1..], c);
      FreeCons(bs[0], bs[1..], c);
      assert [bs[0]] + bs[1..] == bs;
    }
  }

  ghost predicate NoOverlap(bs: seq<Hole>) {
    forall i, j, c: nat | 0 <= i < j < |bs| && bs[i].Has(c) :: !bs[j].Has(c)
  }

  lemma {:induction false} ClicksSize(bs: seq<Hole>)
    requires NoOverlap(bs)
    ensures |Clicks(bs)| == Lens(bs)
  {
    if bs != [] {
      ClicksSize(bs[1..]);
      var first, rest := Range(bs[0].base, bs[0].len), Clicks(bs[1..]);
      forall c | c in first
        ensures c !in rest
      {
        ClicksMeaning(bs[1..], c);
        forall j | 0 <= j < |bs[1..]|
          ensures !bs[1..][j].Has(c)
        {
          assert bs[1..][j] == bs[j + 1];
        }
      }
      assert first !! rest;
    }
  }

  // ---- Processes ----

  /** The block of a process: of each one, or only of those in memory. */
  function BlockOf(p: Proc, all: bool): Hole {
    if all || !p.onSwap then Hole(p.base, p.size) else Hole(0, 0)
  }

  function Blocks(procs: seq<Proc>, all: bool): seq<Hole> {
    seq(|procs|, i requires 0 <= i < |procs| => BlockOf(procs[i], all))
  }

  /** The clicks of all processes, or only of those in memory. */
  function InUse(procs: seq<Proc>, all: bool): nat {
    if procs == [] then 0 else BlockOf(procs[0], all).len + InUse(procs[1..], all)
  }

  lemma {:induction false} InUseLens(procs: seq<Proc>, all: bool)
    ensures Lens(Blocks(procs, all)) == InUse(procs, all)
  {
    if procs != [] {
      InUseLens(procs[1..], all);
      assert Blocks(procs, all)[1..] == Blocks(procs[1..], all);
    }
  }

  lemma {:induction false} InUseUpdate(procs: seq<Proc>, r: nat, p: Proc, all: bool)
    requires r < |procs|
    ensures InUse(procs[r := p], all) == InUse(procs, all) - BlockOf(procs[r], all).len + BlockOf(p, all).len
  {
    if r == 0 {
      assert procs[r := p][1..] == procs[1..];
    } else {
      assert procs[r := p][1..] == procs[1..][r - 1 := p];
      InUseUpdate(procs[1..], r - 1, p, all);
    }
  }

  lemma BlockClicks(procs: seq<Proc>, all: bool, c: nat)
    ensures Free(Blocks(procs, all), c) <==> exists p: nat :: Held(procs, p, c) && (all || !procs[p].onSwap)
  {
    if i :| 0 <= i < |procs| && Blocks(procs, all)[i].Has(c) {
      assert Held(procs, i, c) && (all || !procs[i].onSwap);
    }
    if p: nat :| Held(procs, p, c) && (all || !procs[p].onSwap) {
      assert Blocks(procs, all)[p].Has(c);
    }
  }

  lemma BlocksApart(cfg: Config, a: Arena, holes: seq<Hole>, procs: seq<Proc>, all: bool)
    requires Partition(cfg, a, holes, procs)
    ensures NoOverlap(Blocks(procs, all))
  {
    var bs := Blocks(procs, all);
    forall i, j, c: nat | 0 <= i < j < |bs| && bs[i].Has(c)
      ensures !bs[j].Has(c)
    {
      assert Held(procs, i, c);
      assert bs[j].Has(c) ==> Held(procs, j, c);
    }
  }

  // ---- Memory and the swap area ----

  /** The chunks reported at start-up share no click. */
  ghost predicate ChunksApart(a: Arena) {
    NoOverlap(a.chunks)
  }

  lemma NoChunkAt(cfg: Config, a: Arena, c: nat)
    requires ArenaOk(cfg, a) && cfg.swapBase - 1 <= c
    ensures !Free(a.chunks, c)
  {
  }

  /** Nobody has the click below the swap area. */
  lemma NobodyAtGap(m: Mem, a: Arena, p: nat)
    requires Inv(m, a) && p < |m.procs|
    ensures !m.procs[p].Holds(m.cfg.swapBase - 1)
  {
    var c: nat := m.cfg.swapBase - 1;
    NoChunkAt(m.cfg, a, c);
    assert !Managed(m.cfg, a, c);
    assert !Held(m.procs, p, c);
  }

  /** A block that starts in regular memory stays there. */
  lemma BlockBelow(m: Mem, a: Arena, p: nat, c: nat)
    requires Inv(m, a) && Held(m.procs, p, c) && m.procs[p].base < m.cfg.swapBase
    ensures c < m.cfg.swapBase
  {
    NobodyAtGap(m, a, p);
  }

  lemma CutFree(m: Mem, a: Arena, c: nat)
    requires Inv(m, a)
    ensures Free(m.holes[..Regular(m.holes, m.cfg.swapBase)], c) <==> Free(m.holes, c) && c < m.cfg.swapBase
  {
    var limit, r := m.cfg.swapBase, Regular(m.holes, m.cfg.swapBase);
    forall i | 0 <= i < |m.holes| && m.holes[i].Has(c)
      ensures i < r <==> c < limit
    {
      HoleOnOneSide(m, a, i);
    }
    if i :| 0 <= i < |m.holes| && m.holes[i].Has(c) && c < limit {
      assert m.holes[..r][i].Has(c);
    }
    if i :| 0 <= i < r && m.holes[..r][i].Has(c) {
      assert m.holes[i].Has(c);
    }
  }

  /** No hole reaches from memory into the swap area. */
  lemma HoleOnOneSide(m: Mem, a: Arena, i: nat)
    requires Inv(m, a) && i < |m.holes|
    ensures i < Regular(m.holes, m.cfg.swapBase) <==> m.holes[i].base < m.cfg.swapBase
    ensures m.holes[i].base < m.cfg.swapBase ==> m.holes[i].End() <= m.cfg.swapBase
  {
    var c: nat := m.cfg.swapBase - 1;
    NoChunkAt(m.cfg, a, c);
    assert !Managed(m.cfg, a, c);
    assert !Free(m.holes, c);
  }

  lemma CanonicalNoOverlap(holes: seq<Hole>)
    requires Canonical(holes)
    ensures NoOverlap(holes)
  {
  }

  lemma UnionSize(s: set<nat>, t: set<nat>)
    requires s !! t
    ensures |s + t| == |s| + |t|
  {
  }

  lemma SameClicks(m: Mem, a: Arena, c: nat)
    requires Inv(m, a)
    ensures c in Clicks(m.holes) || c in Clicks(Blocks(m.procs, true)) <==> Managed(m.cfg, a, c)
    ensures !(c in Clicks(m.holes) && c in Clicks(Blocks(m.procs, true)))
    ensures Managed(m.cfg, a, c) <==> c in Clicks(a.chunks) || c in Range(m.cfg.swapBase, a.swapSize)
    ensures !(c in Clicks(a.chunks) && c in Range(m.cfg.swapBase, a.swapSize))
  {
    ClicksMeaning(m.holes, c);
    ClicksMeaning(Blocks(m.procs, true), c);
    ClicksMeaning(a.chunks, c);
    BlockClicks(m.procs, true, c);
    if m.cfg.swapBase <= c {
      NoChunkAt(m.cfg, a, c);
    }
  }

  lemma SumOfTwo(s: set<nat>, t: set<nat>, u: set<nat>, v: set<nat>)
    requires s !! t && u !! v && s + t == u + v
    ensures |s| + |t| == |u| + |v|
  {
    UnionSize(s, t);
    UnionSize(u, v);
  }

  /** The clicks of a list of holes and of the blocks of processes, as numbers. */
  lemma Sizes(cfg: Config, a: Arena, all: seq<Hole>, holes: seq<Hole>, procs: seq<Proc>, swapped: bool)
    requires Canonical(holes) && Partition(cfg, a, all, procs) && ChunksApart(a)
    ensures |Clicks(holes)| == Lens(holes) && |Clicks(a.chunks)| == Lens(a.chunks)
    ensures |Clicks(Blocks(procs, swapped))| == InUse(procs, swapped)
  {
    CanonicalNoOverlap(holes);
    BlocksApart(cfg, a, all, procs, swapped);
    ClicksSize(holes);
    ClicksSize(Blocks(procs, swapped));
    ClicksSize(a.chunks);
    InUseLens(procs, swapped);
  }

  lemma SameSets(m: Mem, a: Arena)
    requires Inv(m, a)
    ensures Clicks(m.holes) !! Clicks(Blocks(m.procs, true))
    ensures Clicks(a.chunks) !! Range(m.cfg.swapBase, a.swapSize)
    ensures Clicks(m.holes) + Clicks(Blocks(m.procs, true)) == Clicks(a.chunks) + Range(m.cfg.swapBase, a.swapSize)
  {
    forall c: nat
      ensures c in Clicks(m.holes) || c in Clicks(Blocks(m.procs, true))
          <==> c in Clicks(a.chunks) || c in Range(m.cfg.swapBase, a.swapSize)
      ensures !(c in Clicks(m.holes) && c in Clicks(Blocks(m.procs, true)))
      ensures !(c in Clicks(a.chunks) && c in Range(m.cfg.swapBase, a.swapSize))
    {
      SameClicks(m, a, c);
    }
  }

  /** Free clicks and clicks of processes together are the clicks of the chunks and of the swap area. */
  lemma Conserved(m: Mem, a: Arena)
    requires Inv(m, a) && ChunksApart(a)
    ensures Lens(m.holes) + InUse(m.procs, true) == Lens(a.chunks) + a.swapSize
  {
    Sizes(m.cfg, a, m.holes, m.holes, m.procs, true);
    SameSets(m, a);
    SumOfTwo(Clicks(m.holes), Clicks(Blocks(m.procs, true)), Clicks(a.chunks), Range(m.cfg.swapBase, a.swapSize));
  }

  lemma SameClicksBelow(m: Mem, a: Arena, c: nat)
    requires Inv(m, a)
    ensures var regular := m.holes[..Regular(m.holes, m.cfg.swapBase)];
      && (c in Clicks(regular) || c in Clicks(Blocks(m.procs, false)) <==> c in Clicks(a.chunks))
      && !(c in Clicks(regular) && c in Clicks(Blocks(m.procs, false)))
  {
    ClicksMeaning(m.holes[..Regular(m.holes, m.cfg.swapBase)], c);
    ClicksMeaning(Blocks(m.procs, false), c);
    ClicksMeaning(a.chunks, c);
    BlockClicks(m.procs, false, c);
    CutFree(m, a, c);
    BelowOrNot(m, a, c);
  }

  lemma SameSetsBelow(m: Mem, a: Arena)
    requires Inv(m, a)
    ensures var regular := m.holes[..Regular(m.holes, m.cfg.swapBase)];
      && Clicks(regular) !! Clicks(Blocks(m.procs, false))
      && Clicks(regular) + Clicks(Blocks(m.procs, false)) == Clicks(a.chunks) + {}
  {
    var regular := m.holes[..Regular(m.holes, m.cfg.swapBase)];
    forall c: nat
      ensures c in Clicks(regular) || c in Clicks(Blocks(m.procs, false)) <==> c in Clicks(a.chunks)
      ensures !(c in Clicks(regular) && c in Clicks(Blocks(m.procs, false)))
    {
      SameClicksBelow(m, a, c);
    }
  }

  /** The same below the swap area, where the processes in memory and no others are. */
  lemma ConservedBelow(m: Mem, a: Arena)
    requires Inv(m, a) && ChunksApart(a)
    ensures Lens(m.holes[..Regular(m.holes, m.cfg.swapBase)]) + InUse(m.procs, false) == Lens(a.chunks)
  {
    var regular := m.holes[..Regular(m.holes, m.cfg.swapBase)];
    Sizes(m.cfg, a, m.holes, regular, m.procs, false);
    SameSetsBelow(m, a);
    SumOfTwo(Clicks(regular), Clicks(Blocks(m.procs, false)), Clicks(a.chunks), {});
  }

  /** Who owns a click of memory is in memory. */
  lemma BelowOrNot(m: Mem, a: Arena, c: nat)
    requires Inv(m, a)
    ensures Free(a.chunks, c) ==> c < m.cfg.swapBase
    ensures (exists p: nat :: Held(m.procs, p, c) && !m.procs[p].onSwap) ==> c < m.cfg.swapBase
    ensures c < m.cfg.swapBase ==> forall p: nat | Held(m.procs, p, c) :: !m.procs[p].onSwap
  {
    if m.cfg.swapBase <= c {
      NoChunkAt(m.cfg, a, c);
      if p: nat :| Held(m.procs, p, c) && !m.procs[p].onSwap {
        BlockBelow(m, a, p, c);
      }
    }
  }

  /** As long as the processes in memory do not fill it, the head hole is regular. */
  lemma RoomMeansSafe(m: Mem, a: Arena)
    requires Inv(m, a) && ChunksApart(a) && InUse(m.procs, false) < Lens(a.chunks)
    ensures SafeHead(m)
  {
    ConservedBelow(m, a);
  }
}
