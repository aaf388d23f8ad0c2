/** The files of a system as a whole: what single commands and whole runs of commands do to them. */
module VfsFiles {
  import opened Options
  import opened VfsChains
  import opened VfsSpec

  // ---- Looking names up ----

  lemma {:induction false} LookupMeaning(iNodes: seq<INode>, name: string, i: nat)
    ensures var found := Lookup(iNodes, name, i);
      && (found.Some? ==> forall j | i <= j < found.value :: iNodes[j].fileName != name)
      && (found.None? ==> forall j | i <= j < |iNodes| :: iNodes[j].fileName != name)
    decreases |iNodes| - i
  {
    if i < |iNodes| && iNodes[i].fileName != name {
      LookupMeaning(iNodes, name, i + 1);
    }
  }

  /** A name that one index node has and no other is found there. */
  lemma LookupOnly(iNodes: seq<INode>, name: string, i: nat)
    requires i < |iNodes| && iNodes[i].fileName == name
    requires forall j | 0 <= j < |iNodes| && j != i :: iNodes[j].fileName != name
    ensures Lookup(iNodes, name, 0) == Some(i)
  {
    LookupMeaning(iNodes, name, 0);
  }

  lemma LookupNone(iNodes: seq<INode>, name: string)
    requires forall j | 0 <= j < |iNodes| :: iNodes[j].fileName != name
    ensures Lookup(iNodes, name, 0).None?
  {
    LookupMeaning(iNodes, name, 0);
  }

  // ---- One copy to the system, on any disk ----

  predicate CanAdd(d: Disk, name: string) {
    Lookup(d.iNodes, name, 0).None? && FirstFreeINode(d.iNodes, 0).Some?
  }

  /** With a new name and a free index node, the copy is refused exactly when the file is
      larger than the free blocks with their links, and runs out of blocks exactly when it
      slips through that check and does not fit into their data. */
  lemma CopyOutcome(d: Disk, name: string, content: seq<Byte>)
    requires WellFormed(d) && CanAdd(d, name)
    ensures var outcome := CopyTo(d, name, content).1;
      && (outcome == NoSpace <==> |content| > FreeAmount(d.blocks) * DATA_BLOCK_SIZE)
      && (outcome == OutOfBounds <==>
            |content| <= FreeAmount(d.blocks) * DATA_BLOCK_SIZE
              && (|content| + BLOCK_SIZE - 1) / BLOCK_SIZE > FreeAmount(d.blocks))
      && (outcome == Done <==> (|content| + BLOCK_SIZE - 1) / BLOCK_SIZE <= FreeAmount(d.blocks))
  {
    ChunkAmount(content);
    CopyEnds(d, name, content);
  }

  lemma CopyEnds(d: Disk, name: string, content: seq<Byte>)
    requires WellFormed(d) && CanAdd(d, name)
    ensures CopyTo(d, name, content).1 ==
      if |content| > FreeAmount(d.blocks) * DATA_BLOCK_SIZE then NoSpace
      else if |Chunks(content)| <= FreeAmount(d.blocks) then Done
      else OutOfBounds
  {
    NextFreeFirst(d.blocks, 0);
    var first := NextFree(d.blocks, 0);
    if content != [] && first.Some? {
      var node := FirstFreeINode(d.iNodes, 0).value;
      WriteMeaning(d.(iNodes := d.iNodes[node := NewNode(d, name, |content|)]), first.value, content);
    }
  }

  /** Where a file that is copied to the system goes. */
  function NewChain(d: Disk, content: seq<Byte>): seq<nat>
    requires |Chunks(content)| <= FreeAmount(d.blocks)
  {
    FreeFrom(d.blocks, 0)[..|Chunks(content)|]
  }

  /** A file that fits is written from the first free block on. */
  lemma CopyIsWrite(d: Disk, name: string, content: seq<Byte>)
    requires WellFormed(d) && CanAdd(d, name) && content != [] && |Chunks(content)| <= FreeAmount(d.blocks)
    ensures var (first, node) := (NextFree(d.blocks, 0), FirstFreeINode(d.iNodes, 0).value);
      && first.Some?
      && CopyTo(d, name, content) == WriteFrom(d.(iNodes := d.iNodes[node := NewNode(d, name, |content|)]),
          first.value, content)
      && Places(d.blocks, first.value) == FreeFrom(d.blocks, 0)
  {
    ChunkAmount(content);
    NextFreeFirst(d.blocks, 0);
  }

  lemma CopyDone(d: Disk, name: string, content: seq<Byte>)
    requires WellFormed(d) && CanAdd(d, name) && content != [] && |Chunks(content)| <= FreeAmount(d.blocks)
    ensures var (d', outcome) := CopyTo(d, name, content);
      var i, chain := FirstFreeINode(d.iNodes, 0).value, NewChain(d, content);
      && outcome == Done && chain != []
      && d'.blockStart == d.blockStart && |d'.blocks| == |d.blocks|
      && d'.iNodes == d.iNodes[i := NewNode(d, name, |content|)]
      && NewNode(d, name, |content|).firstBlock == Offset(d, chain[0])
      && Holds(d', chain, content)
      && forall b | 0 <= b < |d.blocks| && b !in chain :: d'.blocks[b] == d.blocks[b]
  {
    CopyIsWrite(d, name, content);
    var first, node := NextFree(d.blocks, 0).value, FirstFreeINode(d.iNodes, 0).value;
    WriteMeaning(d.(iNodes := d.iNodes[node := NewNode(d, name, |content|)]), first, content);
  }

  lemma {:induction false} HoldsWellFormed(d: Disk, chain: seq<nat>, content: seq<Byte>)
    requires Holds(d, chain, content)
    ensures forall b | b in chain && b < |d.blocks| :: |d.blocks[b].data| == BLOCK_SIZE
    decreases |content|
  {
    if content != [] {
      HoldsWellFormed(d, chain[1..], Rest(content));
      assert forall b :: b in chain <==> b == chain[0] || b in chain[1..];
    }
  }

  lemma CopyWellFormed(d: Disk, name: string, content: seq<Byte>)
    requires WellFormed(d) && CanAdd(d, name) && |Chunks(content)| <= FreeAmount(d.blocks)
    ensures WellFormed(CopyTo(d, name, content).0)
  {
    ChunkAmount(content);
    CopyOutcome(d, name, content);
    if content != [] {
      CopyDone(d, name, content);
      HoldsWellFormed(CopyTo(d, name, content).0, NewChain(d, content), content);
    }
  }

  predicate NamesShort(d: Disk) {
    forall i | 0 <= i < |d.iNodes| :: |d.iNodes[i].fileName| < FILE_NAME_SIZE
  }

  /** The new index node, and what is read by way of it. */
  lemma CopyReads(d: Disk, name: string, content: seq<Byte>)
    requires WellFormed(d) && CanAdd(d, name) && |Chunks(content)| <= FreeAmount(d.blocks)
    ensures var d' := CopyTo(d, name, content).0;
      && d'.iNodes == d.iNodes[FirstFreeINode(d.iNodes, 0).value := NewNode(d, name, |content|)]
      && WellFormed(d') && ReadFrom(d', NewNode(d, name, |content|).firstBlock, |content|) == Some(content)
  {
    CopyWellFormed(d, name, content);
    if content == [] {
      CopyEmpty(d, name);
    } else {
      CopyDone(d, name, content);
      HeldReads(CopyTo(d, name, content).0, NewChain(d, content), content, NewNode(d, name, |content|).firstBlock);
    }
  }

  lemma HeldReads(d: Disk, chain: seq<nat>, content: seq<Byte>, offset: nat)
    requires WellFormed(d) && content != [] && chain != [] && Holds(d, chain, content) && offset == Offset(d, chain[0])
    ensures ReadFrom(d, offset, |content|) == Some(content)
  {
    ReadHeld(d, chain, content);
  }

  lemma CopyEmpty(d: Disk, name: string)
    requires WellFormed(d) && CanAdd(d, name)
    ensures var i := FirstFreeINode(d.iNodes, 0).value;
      CopyTo(d, name, []) == (d.(iNodes := d.iNodes[i := NewNode(d, name, 0)]), Done)
    ensures forall d': Disk, offset: nat | WellFormed(d') :: ReadFrom(d', offset, 0) == Some([])
  {
  }

  /** The new name is found at the new index node, if it was kept whole. */
  lemma FoundAgain(iNodes: seq<INode>, i: nat, node: INode, name: string)
    requires i < |iNodes| && Lookup(iNodes, name, 0).None? && node.fileName == Stored(name)
    requires forall j | 0 <= j < |iNodes| :: |iNodes[j].fileName| < FILE_NAME_SIZE
    ensures Lookup(iNodes[i := node], name, 0) == if |name| < FILE_NAME_SIZE then Some(i) else None
  {
    LookupMeaning(iNodes, name, 0);
    if |name| < FILE_NAME_SIZE {
      LookupOnly(iNodes[i := node], name, i);
    } else {
      LookupNone(iNodes[i := node], name);
    }
  }

  /** A file that has just been copied to the system comes back byte for byte, whatever its
      content, on whatever disk, exactly if its name is short enough to be kept whole. */
  lemma CopyToFrom(d: Disk, name: string, content: seq<Byte>)
    requires WellFormed(d) && NamesShort(d) && CopyTo(d, name, content).1 == Done
    ensures var d' := CopyTo(d, name, content).0;
      WellFormed(d') && (CopyFrom(d', name) == (Done, content) <==> |name| < FILE_NAME_SIZE)
  {
    ChunkAmount(content);
    CopyOutcome(d, name, content);
    CopyReads(d, name, content);
    FoundAgain(d.iNodes, FirstFreeINode(d.iNodes, 0).value, NewNode(d, name, |content|), name);
  }

  // ---- Deleting a file, on any disk ----

  /** Whatever is closed under links cannot be left along them. */
  lemma {:induction false} StaysIn(d: Disk, s: seq<nat>, offset: nat, b: nat, k: nat)
    requires forall x |
      x in s && x < |d.blocks| && d.blocks[x].nextBlock != 0 && IndexOf(d, d.blocks[x].nextBlock).Some? ::
      IndexOf(d, d.blocks[x].nextBlock).value in s
    requires Visits(d, offset, b, k) && IndexOf(d, offset).value in s
    ensures b in s
    decreases k
  {
    var i := IndexOf(d, offset).value;
    if i != b {
      StaysIn(d, s, d.blocks[i].nextBlock, b, k - 1);
    }
  }

  /** From the first block of a file one reaches its own blocks and, by the link of its last
      block, whatever hangs on block 0. */
  lemma {:induction false} HeldReaches(d: Disk, chain: seq<nat>, content: seq<Byte>, b: nat)
    requires WellFormed(d) && Holds(d, chain, content) && content != [] && 0 < |d.blocks|
    ensures Reachable(d, Offset(d, chain[0]), b) <==> b in chain || Reachable(d, Offset(d, 0), b)
    decreases |content|
  {
    OffsetIndex(d, chain[0]);
    var c, offset, link := chain[0], Offset(d, chain[0]), d.blocks[chain[0]].nextBlock;
    assert b in chain <==> b == c || b in chain[1..];
    OneLink(d, offset, b);
    if Rest(content) == [] {
      assert chain[1..] == [];
    } else {
      HeldReaches(d, chain[1..], Rest(content), b);
    }
  }

  lemma OneLink(d: Disk, offset: nat, b: nat)
    requires offset != 0 && IndexOf(d, offset).Some?
    ensures var i := IndexOf(d, offset).value;
      Reachable(d, offset, b) <==> b == i || Reachable(d, d.blocks[i].nextBlock, b)
  {
    var i := IndexOf(d, offset).value;
    if b == i {
      assert Visits(d, offset, b, 0);
    } else {
      if Reachable(d, offset, b) {
        var k: nat :| Visits(d, offset, b, k);
        assert Visits(d, d.blocks[i].nextBlock, b, k - 1);
      }
      if Reachable(d, d.blocks[i].nextBlock, b) {
        var k: nat :| Visits(d, d.blocks[i].nextBlock, b, k);
        assert Visits(d, offset, b, k + 1);
      }
    }
  }

  // ---- Refusals ----

  lemma {:induction false} FirstFreeMeaning(iNodes: seq<INode>, i: nat)
    ensures var found := FirstFreeINode(iNodes, i);
      && (found.Some? ==> forall j | i <= j < found.value :: iNodes[j].fileSize != 0 || iNodes[j].firstBlock != 0)
      && (found.None? ==> forall j | i <= j < |iNodes| :: iNodes[j].fileSize != 0 || iNodes[j].firstBlock != 0)
    decreases |iNodes| - i
  {
    if i < |iNodes| && !IsINodeFree(iNodes[i]) {
      FirstFreeMeaning(iNodes, i + 1);
    }
  }

  predicate HasName(d: Disk, name: string) {
    exists i | 0 <= i < |d.iNodes| :: d.iNodes[i].fileName == name
  }

  predicate NodesTaken(d: Disk, i: nat)
    requires i <= |d.iNodes|
  {
    forall j | 0 <= j < i :: d.iNodes[j].fileSize != 0 || d.iNodes[j].firstBlock != 0
  }

  /** A copy to the system is refused, leaving the disk as it was, exactly if the name is there, or
      else no index node is free, or else the file is larger than the free blocks with their links;
      otherwise the first free index node is written, and no other. */
  lemma CopyReplies(d: Disk, name: string, content: seq<Byte>)
    requires WellFormed(d)
    ensures var (d', outcome) := CopyTo(d, name, content);
      var larger := |content| > FreeAmount(d.blocks) * DATA_BLOCK_SIZE;
      && (outcome == AlreadyExists <==> HasName(d, name))
      && (outcome == NoINode <==> !HasName(d, name) && NodesTaken(d, |d.iNodes|))
      && (outcome == NoSpace <==> !HasName(d, name) && !NodesTaken(d, |d.iNodes|) && larger)
      && (outcome in {AlreadyExists, NoINode, NoSpace} ==> d' == d)
      && (outcome !in {AlreadyExists, NoINode, NoSpace} ==> exists i | 0 <= i < |d.iNodes| ::
            && NodesTaken(d, i) && d.iNodes[i].fileSize == 0 && d.iNodes[i].firstBlock == 0
            && d'.iNodes == d.iNodes[i := d'.iNodes[i]]
            && d'.iNodes[i].fileName == (if |name| < FILE_NAME_SIZE then name else name[..FILE_NAME_SIZE - 1])
            && d'.iNodes[i].fileSize == |content|)
  {
    LookupMeaning(d.iNodes, name, 0);
    FirstFreeMeaning(d.iNodes, 0);
    var i := FirstFreeINode(d.iNodes, 0);
    if i.Some? && content != [] && NextFree(d.blocks, 0).Some? {
      var d1 := d.(iNodes := d.iNodes[i.value := NewNode(d, name, |content|)]);
      WriteMeaning(d1, NextFree(d.blocks, 0).value, content);
    }
    if CopyTo(d, name, content).1 !in {AlreadyExists, NoINode, NoSpace} {
      assert CopyTo(d, name, content).0.iNodes == d.iNodes[i.value := NewNode(d, name, |content|)];
      assert NodesTaken(d, i.value);
    }
  }

  /** A removal is refused, leaving the disk as it was, exactly if the name is not there; otherwise
      it touches the index node that has the name first, and no other. */
  lemma DeleteReplies(d: Disk, name: string)
    ensures var (d', outcome) := DeleteFile(d, name);
      && (outcome == NotFound <==> !HasName(d, name))
      && (outcome == NotFound ==> d' == d)
      && (outcome == Done ==> exists i | 0 <= i < |d.iNodes| ::
            && d.iNodes[i].fileName == name && (forall j | 0 <= j < i :: d.iNodes[j].fileName != name)
            && d'.iNodes == d.iNodes[i := INode("", 0, 0)])
  {
    LookupMeaning(d.iNodes, name, 0);
    var found := Lookup(d.iNodes, name, 0);
    if found.Some? {
      DeleteEnds(d, d.iNodes[found.value].firstBlock);
    }
  }

  lemma {:induction false} DeleteEnds(d: Disk, offset: nat)
    ensures DeleteFrom(d, offset).1 in {Done, OutOfBounds}
    decreases LinkAmount(d.blocks), offset
  {
    if offset != 0 && IndexOf(d, offset).Some? {
      var i := IndexOf(d, offset).value;
      ClearedLink(d.blocks, i);
      DeleteEnds(Clear(d, i), d.blocks[i].nextBlock);
    }
  }

  /** Reading says so exactly if the name is not there. */
  lemma ReadReplies(d: Disk, name: string)
    requires WellFormed(d)
    ensures CopyFrom(d, name).0 == NotFound <==> !HasName(d, name)
  {
    LookupMeaning(d.iNodes, name, 0);
  }

  /** What is made of a disk: refused below the smallest size, and otherwise one index node for
      every 8192 bytes and as many blocks as then fit, all clear. */
  lemma CreatedSystem(size: nat)
    ensures CreateSystem(size).None? <==> size < 1048576
    ensures CreateSystem(size).Some? ==>
      var d := CreateSystem(size).value;
      && 8192 * |d.iNodes| <= size < 8192 * (|d.iNodes| + 1)
      && d.blockStart == 48 + 528 * |d.iNodes|
      && d.blockStart + 1032 * |d.blocks| <= size < d.blockStart + 1032 * (|d.blocks| + 1)
      && (forall i | 0 <= i < |d.iNodes| :: d.iNodes[i] == INode("", 0, 0))
      && (forall b | 0 <= b < |d.blocks| :: d.blocks[b].nextBlock == 0 && IsZero(d.blocks[b].data)
                                            && |d.blocks[b].data| == 1024)
  {
    if MIN_FILE_SYSTEM_SIZE <= size {
      LayoutFits(size);
    }
  }
}
