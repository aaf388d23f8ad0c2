/** Chains of blocks: what writing, reading and deleting along links does on any disk. */
module VfsChains {
  import opened Options
  import opened VfsSpec

  /** What a file is cut into. */
  function Chunks(content: seq<Byte>): seq<seq<Byte>>
    decreases |content|
  {
    if content == [] then [] else [Take(content)] + Chunks(Rest(content))
  }

  lemma {:induction false} ChunkAmount(content: seq<Byte>)
    ensures |Chunks(content)| == (|content| + BLOCK_SIZE - 1) / BLOCK_SIZE
    decreases |content|
  {
    if content != [] {
      ChunkAmount(Rest(content));
    }
  }

  // ---- Free blocks ----

  ghost predicate Ascending(q: seq<nat>) {
    forall i, j | 0 <= i < j < |q| :: q[i] < q[j]
  }

  lemma {:induction false} FreeFromMember(blocks: seq<Block>, i: nat, b: nat)
    ensures b in FreeFrom(blocks, i) <==> i <= b < |blocks| && IsFree(blocks[b])
    decreases |blocks| - i
  {
    if i < |blocks| {
      FreeFromMember(blocks, i + 1, b);
    }
  }

  lemma AscendingFrom(i: nat, q: seq<nat>)
    requires Ascending(q) && forall j | 0 <= j < |q| :: i < q[j]
    ensures Ascending([i] + q)
  {
  }

  lemma {:induction false} FreeFromAscending(blocks: seq<Block>, i: nat)
    ensures Ascending(FreeFrom(blocks, i))
    decreases |blocks| - i
  {
    if i < |blocks| {
      FreeFromAscending(blocks, i + 1);
      var q := FreeFrom(blocks, i + 1);
      forall j | 0 <= j < |q|
        ensures i < q[j]
      {
        FreeFromMember(blocks, i + 1, q[j]);
      }
      AscendingFrom(i, q);
    }
  }

  /** The next free block is the first of the free ones, and the others follow it. */
  lemma {:induction false} NextFreeFirst(blocks: seq<Block>, i: nat)
    ensures var next := NextFree(blocks, i);
      FreeFrom(blocks, i) == if next.None? then [] else [next.value] + FreeFrom(blocks, next.value + 1)
    decreases |blocks| - i
  {
    if i < |blocks| && !IsFree(blocks[i]) {
      NextFreeFirst(blocks, i + 1);
    }
  }

  lemma {:induction false} FreeBehind(blocks: seq<Block>, blocks': seq<Block>, i: nat)
    requires |blocks'| == |blocks| && forall b | i <= b < |blocks| :: blocks'[b] == blocks[b]
    ensures FreeFrom(blocks', i) == FreeFrom(blocks, i) && NextFree(blocks', i) == NextFree(blocks, i)
    decreases |blocks| - i
  {
    if i < |blocks| {
      FreeBehind(blocks, blocks', i + 1);
    }
  }

  // ---- Chains ----

  /** The blocks of a chain hold a file, chunk by chunk; the last is linked to block 0. */
  predicate Holds(d: Disk, chain: seq<nat>, content: seq<Byte>)
    decreases |content|
  {
    if content == [] then chain == []
    else
      && chain != [] && chain[0] < |d.blocks|
      && (Rest(content) != [] ==> 1 < |chain|)
      && d.blocks[chain[0]] == Block(Pad(Take(content)), Offset(d, if Rest(content) == [] then 0 else chain[1]))
      && Holds(d, chain[1..], Rest(content))
  }

  lemma {:induction false} HoldsFrame(d: Disk, d': Disk, chain: seq<nat>, content: seq<Byte>)
    requires Holds(d, chain, content) && d'.blockStart == d.blockStart && |d'.blocks| == |d.blocks|
    requires forall b | b in chain && b < |d.blocks| :: d'.blocks[b] == d.blocks[b]
    ensures Holds(d', chain, content)
    decreases |content|
  {
    if content != [] {
      HoldsFrame(d, d', chain[1..], Rest(content));
    }
  }

  lemma {:induction false} HoldsLength(d: Disk, chain: seq<nat>, content: seq<Byte>)
    requires Holds(d, chain, content)
    ensures |chain| == |Chunks(content)| && forall b | b in chain :: b < |d.blocks|
    decreases |content|
  {
    if content != [] {
      HoldsLength(d, chain[1..], Rest(content));
      assert forall b :: b in chain <==> b == chain[0] || b in chain[1..];
    }
  }

  lemma PadTaken(content: seq<Byte>)
    ensures |content| < BLOCK_SIZE ==> Pad(Take(content))[..|content|] == Take(content)
    ensures BLOCK_SIZE <= |content| ==> Pad(Take(content))[..BLOCK_SIZE] == Take(content)
  {
  }

  /** Reading a chain gives the file it holds. */
  lemma {:induction false} ReadHeld(d: Disk, chain: seq<nat>, content: seq<Byte>)
    requires WellFormed(d) && Holds(d, chain, content) && content != []
    ensures ReadFrom(d, Offset(d, chain[0]), |content|) == Some(content)
    decreases |content|
  {
    OffsetIndex(d, chain[0]);
    PadTaken(content);
    assert content == Take(content) + Rest(content);
    if Rest(content) != [] {
      ReadHeld(d, chain[1..], Rest(content));
    }
  }

  // ---- Writing ----

  /** The blocks a file starting at block `i` goes to: that one and the free ones behind it. */
  function Places(blocks: seq<Block>, i: nat): seq<nat> {
    [i] + FreeFrom(blocks, i + 1)
  }

  lemma PlacesNext(blocks: seq<Block>, i: nat, block: Block)
    requires i < |blocks|
    ensures var next := NextFree(blocks, i + 1);
      && (next.None? ==> Places(blocks, i) == [i])
      && (next.Some? ==>
            Places(blocks, i) == [i] + Places(blocks[i := block], next.value)
            && i !in Places(blocks[i := block], next.value))
  {
    var next, blocks' := NextFree(blocks, i + 1), blocks[i := block];
    NextFreeFirst(blocks, i + 1);
    if next.Some? {
      FreeBehind(blocks, blocks', next.value + 1);
      FreeFromMember(blocks', next.value + 1, i);
    }
  }

  /** Writing succeeds exactly when there are blocks enough; then the first of them hold the
      file and no other block changes. */
  lemma {:induction false} WriteMeaning(d: Disk, i: nat, content: seq<Byte>)
    requires content != [] && i < |d.blocks|
    ensures var (d', outcome) := WriteFrom(d, i, content);
      var places := Places(d.blocks, i);
      && outcome == (if |Chunks(content)| <= |places| then Done else OutOfBounds)
      && (outcome == Done ==>
            && Holds(d', places[..|Chunks(content)|], content)
            && forall b | 0 <= b < |d.blocks| && b !in places[..|Chunks(content)|] :: d'.blocks[b] == d.blocks[b])
    decreases |content|
  {
    var rest := Rest(content);
    var next := if rest == [] then Some(0) else NextFree(d.blocks, i + 1);
    var block := Block(Pad(Take(content)), if next.Some? then Offset(d, next.value) else 0);
    var d1 := d.(blocks := d.blocks[i := block]);
    PlacesNext(d.blocks, i, block);
    if rest == [] {
      assert Places(d.blocks, i)[..1] == [i];
    } else if next.Some? {
      WriteMeaning(d1, next.value, rest);
      if WriteFrom(d1, next.value, rest).1 == Done {
        WrittenOn(d, d1, i, next.value, content);
      }
    } else {
      assert |Chunks(rest)| >= 1;
    }
  }

  lemma WrittenOn(d: Disk, d1: Disk, i: nat, next: nat, content: seq<Byte>)
    requires content != [] && Rest(content) != [] && i < |d.blocks| && next < |d.blocks|
    requires d1 == d.(blocks := d.blocks[i := Block(Pad(Take(content)), Offset(d, next))])
    requires Places(d.blocks, i) == [i] + Places(d1.blocks, next) && i !in Places(d1.blocks, next)
    requires var (d', outcome) := WriteFrom(d1, next, Rest(content));
      outcome == Done && |Chunks(Rest(content))| <= |Places(d1.blocks, next)|
      && Holds(d', Places(d1.blocks, next)[..|Chunks(Rest(content))|], Rest(content))
      && forall b | 0 <= b < |d1.blocks| && b !in Places(d1.blocks, next)[..|Chunks(Rest(content))|] ::
          d'.blocks[b] == d1.blocks[b]
    ensures var d' := WriteFrom(d1, next, Rest(content)).0;
      var chain := Places(d.blocks, i)[..|Chunks(content)|];
      Holds(d', chain, content) && forall b | 0 <= b < |d.blocks| && b !in chain :: d'.blocks[b] == d.blocks[b]
  {
    var d' := WriteFrom(d1, next, Rest(content)).0;
    var tail := Places(d1.blocks, next)[..|Chunks(Rest(content))|];
    assert Places(d.blocks, i)[..|Chunks(content)|] == [i] + tail;
    assert tail[0] == next && ([i] + tail)[1..] == tail;
    assert i !in tail;
  }

  // ---- Deleting ----

  /** Following at most `k` links from an offset comes to block `b`. */
  predicate Visits(d: Disk, offset: nat, b: nat, k: nat)
    decreases k
  {
    && offset != 0 && IndexOf(d, offset).Some?
    && (IndexOf(d, offset).value == b || (0 < k && Visits(d, d.blocks[IndexOf(d, offset).value].nextBlock, b, k - 1)))
  }

  ghost predicate Reachable(d: Disk, offset: nat, b: nat) {
    exists k: nat :: Visits(d, offset, b, k)
  }

  lemma {:induction false} VisitsWithout(d: Disk, j: nat, offset: nat, b: nat, k: nat)
    requires j < |d.blocks| && Visits(Clear(d, j), offset, b, k)
    ensures Visits(d, offset, b, k)
    decreases k
  {
    var i := IndexOf(d, offset).value;
    if i != b && i != j {
      VisitsWithout(d, j, d.blocks[i].nextBlock, b, k - 1);
    }
  }

  /** A walk through block `j` goes on from there, so what it reaches is reached with `j` cleared too. */
  lemma {:induction false} VisitsPast(d: Disk, j: nat, offset: nat, b: nat, k: nat)
    requires j < |d.blocks| && b != j && Visits(d, offset, b, k)
    ensures Reachable(Clear(d, j), offset, b) || Reachable(Clear(d, j), d.blocks[j].nextBlock, b)
    decreases k
  {
    var i := IndexOf(d, offset).value;
    if i == b {
      assert Visits(Clear(d, j), offset, b, 0);
    } else {
      VisitsPast(d, j, d.blocks[i].nextBlock, b, k - 1);
      if i != j && !Reachable(Clear(d, j), d.blocks[j].nextBlock, b) {
        var m: nat :| Visits(Clear(d, j), d.blocks[i].nextBlock, b, m);
        assert Visits(Clear(d, j), offset, b, m + 1);
      }
    }
  }

  lemma ReachableStep(d: Disk, offset: nat, b: nat)
    requires offset != 0 && IndexOf(d, offset).Some?
    ensures var j := IndexOf(d, offset).value;
      Reachable(d, offset, b) <==> b == j || Reachable(Clear(d, j), d.blocks[j].nextBlock, b)
  {
    var j := IndexOf(d, offset).value;
    if b == j {
      assert Visits(d, offset, b, 0);
    } else {
      if Reachable(d, offset, b) {
        var k: nat :| Visits(d, offset, b, k);
        VisitsPast(d, j, d.blocks[j].nextBlock, b, k - 1);
      }
      if Reachable(Clear(d, j), d.blocks[j].nextBlock, b) {
        var k: nat :| Visits(Clear(d, j), d.blocks[j].nextBlock, b, k);
        VisitsWithout(d, j, d.blocks[j].nextBlock, b, k);
        assert Visits(d, offset, b, k + 1);
      }
    }
  }

  /** An offset at which a block begins. */
  predicate AtBlock(d: Disk, offset: nat) {
    IndexOf(d, offset).Some? && offset == Offset(d, IndexOf(d, offset).value)
  }

  /** Links are 0 or lead to where a block begins. */
  predicate LinksOk(d: Disk) {
    forall i | 0 <= i < |d.blocks| :: d.blocks[i].nextBlock == 0 || AtBlock(d, d.blocks[i].nextBlock)
  }

  /** Deleting clears exactly the blocks reachable from where it starts. */
  lemma {:induction false} DeleteMeaning(d: Disk, offset: nat, b: nat)
    requires LinksOk(d) && (offset == 0 || AtBlock(d, offset)) && b < |d.blocks|
    ensures DeleteFrom(d, offset).1 == Done
    ensures DeleteFrom(d, offset).0.blocks[b] == if Reachable(d, offset, b) then NO_BLOCK else d.blocks[b]
    decreases LinkAmount(d.blocks), offset
  {
    if offset == 0 {
      assert !Reachable(d, offset, b);
    } else {
      var j := IndexOf(d, offset).value;
      ClearedLink(d.blocks, j);
      var d1 := Clear(d, j);
      assert LinksOk(d1) by {
        forall i | 0 <= i < |d1.blocks|
          ensures d1.blocks[i].nextBlock == 0 || AtBlock(d1, d1.blocks[i].nextBlock)
        {
          assert d.blocks[i].nextBlock == 0 || AtBlock(d, d.blocks[i].nextBlock);
        }
      }
      DeleteMeaning(d1, d.blocks[j].nextBlock, b);
      ReachableStep(d, offset, b);
    }
  }
}
