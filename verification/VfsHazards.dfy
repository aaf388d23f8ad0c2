/** What goes wrong outside the conditions under which files are kept apart. */
module VfsHazards {
  import opened Options
  import opened VfsChains
  import opened VfsFiles
  import opened VfsRuns
  import opened VfsSpec

  /** The blocks of a file count as taken exactly if none of its chunks is all zero. */
  lemma {:induction false} TakenExact(d: Disk, chain: seq<nat>, content: seq<Byte>)
    requires Holds(d, chain, content)
    ensures (forall b | b in chain && b < |d.blocks| :: !IsFree(d.blocks[b]))
      <==> (forall c | c in Chunks(content) :: !IsZero(c))
    decreases |content|
  {
    if content != [] {
      TakenExact(d, chain[1..], Rest(content));
      PadZero(Take(content));
      assert forall b :: b in chain <==> b == chain[0] || b in chain[1..];
      assert forall c :: c in Chunks(content) <==> c == Take(content) || c in Chunks(Rest(content));
    }
  }

  lemma PadZero(chunk: seq<Byte>)
    requires |chunk| <= BLOCK_SIZE
    ensures IsZero(Pad(chunk)) <==> IsZero(chunk)
  {
    assert forall k | 0 <= k < |chunk| :: Pad(chunk)[k] == chunk[k];
  }

  lemma {:induction false} ZeroChunks(content: seq<Byte>)
    requires IsZero(content)
    ensures forall c | c in Chunks(content) :: IsZero(c)
    decreases |content|
  {
    if content != [] {
      ZeroChunks(Rest(content));
    }
  }

  /** Every block of a file of zeros still counts as free. */
  lemma {:induction false} ZerosFree(d: Disk, chain: seq<nat>, content: seq<Byte>, b: nat)
    requires Holds(d, chain, content) && IsZero(content) && b in chain && b < |d.blocks|
    ensures IsFree(d.blocks[b])
    decreases |content|
  {
    if b == chain[0] {
      PadZero(Take(content));
    } else {
      ZerosFree(d, chain[1..], Rest(content), b);
    }
  }

  /** Where a file of zeros is, and that its first block is the first free one again. */
  lemma ZeroFile(d: Disk, x: string, zeros: seq<Byte>)
    requires WellFormed(d) && NamesShort(d) && CanCopy(d, x, zeros) && IsZero(zeros) && zeros != []
    ensures var (d1, i, first) :=
        (CopyTo(d, x, zeros).0, FirstFreeINode(d.iNodes, 0).value, NextFree(d.blocks, 0));
      && first.Some? && NextFree(d1.blocks, 0) == first && WellFormed(d1) && d1.blockStart == d.blockStart
      && Lookup(d1.iNodes, x, 0) == Some(i) && d1.iNodes[i] == INode(x, |zeros|, Offset(d, first.value))
  {
    var d1, first, i := CopyTo(d, x, zeros).0, NextFree(d.blocks, 0), FirstFreeINode(d.iNodes, 0).value;
    NextFreeFirst(d.blocks, 0);
    CopyDone(d, x, zeros);
    CopyWellFormed(d, x, zeros);
    var chain := NewChain(d, zeros);
    assert chain[0] == first.value;
    NewChainFree(d, zeros);
    ZerosFree(d1, chain, zeros, first.value);
    SkipTaken(d.blocks, d1.blocks, 0, first.value);
    FoundAgain(d.iNodes, i, NewNode(d, x, |zeros|), x);
  }

  /** A file that is copied to the system begins in the first free block. */
  lemma BeginsAtFirst(d: Disk, y: string, content: seq<Byte>)
    requires WellFormed(d) && CopyTo(d, y, content).1 == Done && content != []
    ensures var (d', first) := (CopyTo(d, y, content).0, NextFree(d.blocks, 0));
      && WellFormed(d') && d'.blockStart == d.blockStart && |d'.blocks| == |d.blocks|
      && FirstFreeINode(d.iNodes, 0).Some?
      && d'.iNodes == d.iNodes[FirstFreeINode(d.iNodes, 0).value := NewNode(d, y, |content|)]
      && first.Some? && d'.blocks[first.value].data[0] == content[0]
  {
    ChunkAmount(content);
    CopyOutcome(d, y, content);
    CopyDone(d, y, content);
    CopyWellFormed(d, y, content);
    NextFreeFirst(d.blocks, 0);
    assert Pad(Take(content))[0] == content[0];
  }

  /** A file of zeros does not count as taking any block, so the next file is written over it. */
  lemma ZeroFileOverwritten(d: Disk, x: string, zeros: seq<Byte>, y: string, content: seq<Byte>)
    requires WellFormed(d) && NamesShort(d) && CanCopy(d, x, zeros) && GoodName(y) && y != x
    requires zeros != [] && IsZero(zeros) && content != [] && content[0] != 0
    requires WellFormed(CopyTo(d, x, zeros).0) && CopyTo(CopyTo(d, x, zeros).0, y, content).1 == Done
    ensures !Intact(CopyTo(CopyTo(d, x, zeros).0, y, content).0, x, zeros)
  {
    var d1, first, i := CopyTo(d, x, zeros).0, NextFree(d.blocks, 0), FirstFreeINode(d.iNodes, 0).value;
    var d2, j := CopyTo(d1, y, content).0, FirstFreeINode(d1.iNodes, 0);
    ZeroFile(d, x, zeros);
    BeginsAtFirst(d1, y, content);
    StillThere(d1.iNodes, i, j.value, NewNode(d1, y, |content|), x);
    OffsetIndex(d2, first.value);
    ReadsFirstByte(d2, d2.iNodes[i].firstBlock, |zeros|, first.value);
  }

  lemma ReadsFirstByte(d: Disk, offset: nat, size: nat, i: nat)
    requires WellFormed(d) && IndexOf(d, offset) == Some(i) && 0 < size
    ensures var read := ReadFrom(d, offset, size); read.Some? ==> read.value[0] == d.blocks[i].data[0]
  {
  }

  /** Blocks in front of the first free one count as taken as long as they stay as they are. */
  lemma {:induction false} SkipTaken(blocks: seq<Block>, blocks': seq<Block>, i: nat, first: nat)
    requires NextFree(blocks, i) == Some(first) && |blocks'| == |blocks|
    requires forall b | 0 <= b < |blocks| && !IsFree(blocks[b]) :: blocks'[b] == blocks[b]
    requires IsFree(blocks'[first])
    ensures NextFree(blocks', i) == Some(first)
    decreases |blocks| - i
  {
    if i != first {
      SkipTaken(blocks, blocks', i + 1, first);
    }
  }

  /** A name is still found where it was when an index node before or behind gets another name. */
  lemma StillThere(iNodes: seq<INode>, i: nat, j: nat, node: INode, name: string)
    requires Lookup(iNodes, name, 0) == Some(i) && j < |iNodes| && j != i && node.fileName != name
    ensures Lookup(iNodes[j := node], name, 0) == Some(i)
  {
    var iNodes' := iNodes[j := node];
    LookupMeaning(iNodes, name, 0);
    LookupMeaning(iNodes', name, 0);
    assert iNodes'[i].fileName == name;
  }

  /** An empty file is given the first free block without taking it, so it goes to the next
      file; when the empty file is removed, that file is lost. */
  lemma EmptyFileHarms(d: Disk, files: seq<File>, e: string, a: string, content: seq<Byte>)
    requires Inv(d, files) && CanAdd(d, e) && GoodName(e) && GoodName(a) && a != e && Solid(content)
    requires CopyTo(CopyTo(d, e, []).0, a, content).1 == Done
    ensures !Intact(DeleteFile(CopyTo(CopyTo(d, e, []).0, a, content).0, e).0, a, content)
  {
    var d1, i := CopyTo(d, e, []).0, FirstFreeINode(d.iNodes, 0).value;
    NamesKeptShort(d, files);
    EmptyCopied(d, e);
    BeginsAtFirst(d1, a, content);
    LinksAfterCopy(d, files, d1, a, content);
    SharedBlockLost(d1, e, i, a, content);
  }

  // ---- Removing a file while another one owns block 0 ----

  /** A small file copied to a system in order is there, in the first free block. */
  lemma SmallFileAdded(d: Disk, files: seq<File>, name: string, x: Byte)
    requires Inv(d, files) && CanAdd(d, name) && GoodName(name) && x != 0 && NextFree(d.blocks, 0).Some?
    ensures var (d', i, first) :=
        (CopyTo(d, name, [x]).0, FirstFreeINode(d.iNodes, 0).value, NextFree(d.blocks, 0).value);
      && CopyTo(d, name, [x]).1 == Done && files[i].NoFile?
      && Inv(d', files[i := File([first], [x])]) && d'.iNodes == d.iNodes[i := NewNode(d, name, 1)]
      && |d'.blocks| == |d.blocks|
      && forall b | 0 <= b < |d.blocks| && b != first :: d'.blocks[b] == d.blocks[b]
  {
    var i := FirstFreeINode(d.iNodes, 0).value;
    NextFreeFirst(d.blocks, 0);
    assert Chunks([x]) == [[x]] && [x][0] != 0;
    assert NewChain(d, [x]) == [NextFree(d.blocks, 0).value];
    CopyKeeps(d, files, name, [x]);
    CopyDone(d, name, [x]);
    NodeFree(d, files, i);
  }

  lemma FreeFound(blocks: seq<Block>, b: nat)
    requires b < |blocks| && IsFree(blocks[b])
    ensures NextFree(blocks, 0).Some?
  {
    NextFreeFirst(blocks, 0);
    FreeFromMember(blocks, 0, b);
  }

  lemma FirstIsNone(iNodes: seq<INode>, name: string)
    requires forall i | 0 <= i < |iNodes| :: iNodes[i] == NO_I_NODE
    requires 1 < |iNodes| && name != ""
    ensures Lookup(iNodes, name, 0).None? && FirstFreeINode(iNodes, 0) == Some(0)
  {
    LookupNone(iNodes, name);
  }

  /** On every new system: copy two small files, remove the second, and the first is lost. */
  lemma FirstFileLost(size: nat, a: string, b: string)
    requires CreateSystem(size).Some? && GoodName(a) && GoodName(b) && a != b
    ensures var d := CreateSystem(size).value;
      WellFormed(d) && CopyTo(d, a, [1]).1 == Done && Intact(CopyTo(d, a, [1]).0, a, [1])
    ensures var d1 := CopyTo(CreateSystem(size).value, a, [1]).0;
      CopyTo(d1, b, [2]).1 == Done && !Intact(DeleteFile(CopyTo(d1, b, [2]).0, b).0, a, [1])
  {
    LayoutFits(size);
    var d := CreateSystem(size).value;
    var files := seq(|d.iNodes|, i => NoFile);
    assert Inv(d, files);
    FirstIsNone(d.iNodes, a);
    SmallFileAdded(d, files, a, 1);
    var d1, files1 := CopyTo(d, a, [1]).0, files[0 := File([0], [1])];
    FileReads(d1, files1, 0);
    FreeFound(d1.blocks, 1);
    SecondAdded(d.iNodes, NewNode(d, a, 1), b);
    SmallFileAdded(d1, files1, b, 2);
    var d2, files2 := CopyTo(d1, b, [2]).0, files1[1 := File([NextFree(d1.blocks, 0).value], [2])];
    assert files2[0] == File([0], [1]);
    RemoveHarms(d2, files2, 1, 0);
  }

  lemma SecondAdded(iNodes: seq<INode>, node: INode, b: string)
    requires forall i | 0 <= i < |iNodes| :: iNodes[i] == NO_I_NODE
    requires 1 < |iNodes| && !IsINodeFree(node) && node.fileName != b && b != ""
    ensures Lookup(iNodes[0 := node], b, 0).None? && FirstFreeINode(iNodes[0 := node], 0) == Some(1)
  {
    LookupNone(iNodes[0 := node], b);
    assert FirstFreeINode(iNodes[0 := node], 0) == FirstFreeINode(iNodes[0 := node], 1);
  }

  // ---- Removing an empty file ----

  /** The disk with an empty file at index node `i`, which names block `b` as its first one. */
  function WithEmpty(d: Disk, i: nat, e: string, b: nat): Disk
    requires i < |d.iNodes|
  {
    d.(iNodes := d.iNodes[i := INode(e, 0, Offset(d, b))])
  }

  lemma WithEmptyLinks(d: Disk, i: nat, e: string, b: nat)
    requires LinksOk(d) && i < |d.iNodes| && b < |d.blocks|
    ensures LinksOk(WithEmpty(d, i, e, b)) && AtBlock(WithEmpty(d, i, e, b), Offset(d, b))
  {
    var d1 := WithEmpty(d, i, e, b);
    OffsetIndex(d1, b);
    forall x | 0 <= x < |d1.blocks|
      ensures d1.blocks[x].nextBlock == 0 || AtBlock(d1, d1.blocks[x].nextBlock)
    {
      assert d.blocks[x].nextBlock == 0 || AtBlock(d, d.blocks[x].nextBlock);
    }
  }

  lemma EmptyFound(d: Disk, files: seq<File>, i: nat, e: string, b: nat)
    requires Inv(d, files) && i < |files| && files[i].NoFile? && Lookup(d.iNodes, e, 0).None?
    ensures Lookup(WithEmpty(d, i, e, b).iNodes, e, 0) == Some(i)
    ensures WithEmpty(d, i, e, b).iNodes[i := NO_I_NODE] == d.iNodes
  {
    LookupMeaning(d.iNodes, e, 0);
    LookupOnly(WithEmpty(d, i, e, b).iNodes, e, i);
    assert FileAt(d, d.iNodes[i], files[i]);
  }

  /** Removing an empty file clears its index node and whatever is reached from the block named there. */
  lemma EmptyRemoved(d: Disk, files: seq<File>, i: nat, e: string, b: nat, x: nat)
    requires Inv(d, files) && i < |files| && files[i].NoFile? && Lookup(d.iNodes, e, 0).None?
    requires b < |d.blocks| && x < |d.blocks|
    ensures var (d', outcome) := DeleteFile(WithEmpty(d, i, e, b), e);
      && outcome == Done && d'.iNodes == d.iNodes && d'.blockStart == d.blockStart && |d'.blocks| == |d.blocks|
      && WellFormed(d')
      && d'.blocks[x] == if Reachable(WithEmpty(d, i, e, b), Offset(d, b), x) then NO_BLOCK else d.blocks[x]
  {
    EmptyFound(d, files, i, e, b);
    LinksInOrder(d, files);
    WithEmptyLinks(d, i, e, b);
    DeleteMeaning(WithEmpty(d, i, e, b), Offset(d, b), x);
  }

  lemma EmptyRemovedSafely(d: Disk, files: seq<File>, i: nat, e: string, b: nat)
    requires Inv(d, files) && i < |files| && files[i].NoFile? && Lookup(d.iNodes, e, 0).None?
    requires b < |d.blocks| && IsFree(d.blocks[b])
    ensures DeleteFile(WithEmpty(d, i, e, b), e) == (d, Done)
  {
    var d1 := WithEmpty(d, i, e, b);
    var d' := DeleteFile(d1, e).0;
    FreeIsUnowned(d, files, b);
    OffsetIndex(d1, b);
    forall x: nat | x < |d.blocks|
      ensures d'.blocks[x] == d.blocks[x]
    {
      EmptyRemoved(d, files, i, e, b, x);
      OneLink(d1, Offset(d, b), x);
    }
    EmptyRemoved(d, files, i, e, b, b);
    assert d'.blocks == d.blocks;
  }

  lemma EmptyRemovedHarms(d: Disk, files: seq<File>, i: nat, e: string, b: nat, j: nat)
    requires Inv(d, files) && i < |files| && files[i].NoFile? && Lookup(d.iNodes, e, 0).None?
    requires b < |d.blocks| && j < |files| && b in files[j].Blocks()
    ensures !Intact(DeleteFile(WithEmpty(d, i, e, b), e).0, d.iNodes[j].fileName, files[j].content)
  {
    var d1 := WithEmpty(d, i, e, b);
    var d', f := DeleteFile(d1, e).0, files[j];
    assert FileAt(d, d.iNodes[j], f);
    FileFound(d, files, j);
    forall x: nat | x < |d.blocks|
      ensures d'.blocks[x] == d.blocks[x] || d'.blocks[x] == NO_BLOCK
    {
      EmptyRemoved(d, files, i, e, b, x);
    }
    OffsetIndex(d1, b);
    assert Visits(d1, Offset(d, b), b, 0);
    EmptyRemoved(d, files, i, e, b, b);
    ClearedLost(d, d', f.chain, f.content, b);
  }

  /** Removing an empty file leaves all files intact exactly if the block it names counts as
      free at that moment; when it does, the disk is the one without the empty file. */
  lemma EmptyRemoveExact(d: Disk, files: seq<File>, i: nat, e: string, b: nat)
    requires Inv(d, files) && i < |files| && files[i].NoFile? && Lookup(d.iNodes, e, 0).None? && b < |d.blocks|
    ensures IsFree(d.blocks[b]) <==>
      forall j | 0 <= j < |files| && files[j].File? ::
        Intact(DeleteFile(WithEmpty(d, i, e, b), e).0, d.iNodes[j].fileName, files[j].content)
    ensures IsFree(d.blocks[b]) ==> DeleteFile(WithEmpty(d, i, e, b), e) == (d, Done)
  {
    FreeIsUnowned(d, files, b);
    if IsFree(d.blocks[b]) {
      EmptyRemovedSafely(d, files, i, e, b);
      forall j | 0 <= j < |files| && files[j].File?
        ensures Intact(d, d.iNodes[j].fileName, files[j].content)
      {
        FileReads(d, files, j);
      }
    } else {
      var j :| 0 <= j < |files| && b in files[j].Blocks();
      EmptyRemovedHarms(d, files, i, e, b, j);
    }
  }

  /** An empty file made while no block is free names the place in front of the blocks: removing
      it leaves the table before anything has been changed. */
  lemma EmptyWithoutBlock(d: Disk, e: string)
    requires WellFormed(d) && NamesShort(d) && CanAdd(d, e) && GoodName(e)
    requires DATA_BLOCK_SIZE < d.blockStart && NextFree(d.blocks, 0).None?
    ensures var d1 := CopyTo(d, e, []).0;
      DeleteFile(d1, e) == (d1, OutOfBounds)
  {
    EmptyCopied(d, e);
  }

  lemma EmptyCopied(d: Disk, e: string)
    requires WellFormed(d) && NamesShort(d) && CanAdd(d, e) && GoodName(e)
    ensures var (d1, i) := (CopyTo(d, e, []).0, FirstFreeINode(d.iNodes, 0).value);
      && d1 == d.(iNodes := d.iNodes[i := NewNode(d, e, 0)]) && WellFormed(d1)
      && Lookup(d1.iNodes, e, 0) == Some(i)
  {
    FoundAgain(d.iNodes, FirstFreeINode(d.iNodes, 0).value, NewNode(d, e, 0), e);
  }

  /** A file begins in a block that another index node names as its first one. */
  lemma SharedBlockLost(d: Disk, e: string, i: nat, a: string, content: seq<Byte>)
    requires WellFormed(d) && Lookup(d.iNodes, e, 0) == Some(i) && NextFree(d.blocks, 0).Some?
    requires d.iNodes[i].firstBlock == Offset(d, NextFree(d.blocks, 0).value)
    requires CopyTo(d, a, content).1 == Done && Solid(content) && GoodName(a) && a != e
      && LinksOk(CopyTo(d, a, content).0)
    ensures !Intact(DeleteFile(CopyTo(d, a, content).0, e).0, a, content)
  {
    var d2, first := CopyTo(d, a, content).0, NextFree(d.blocks, 0).value;
    var j, node := FirstFreeINode(d.iNodes, 0), NewNode(d, a, |content|);
    BeginsAtFirst(d, a, content);
    assert IsINodeFree(d.iNodes[j.value]) && !IsINodeFree(d.iNodes[i]);
    StillThere(d.iNodes, i, j.value, node, e);
    DeleteHits(d2, e, i, first);
    AlsoFound(d.iNodes, i, j.value, node, a);
    NodeLost(DeleteFile(d2, e).0, j.value, a, first, content);
  }

  lemma NodeLost(d: Disk, j: nat, a: string, first: nat, content: seq<Byte>)
    requires Solid(content) && Lookup(d.iNodes, a, 0) == Some(j) && first < |d.blocks| && d.blocks[first] == NO_BLOCK
    requires d.iNodes[j].fileSize == |content| && d.iNodes[j].firstBlock == Offset(d, first)
    ensures !Intact(d, a, content)
  {
    OffsetIndex(d, first);
    if WellFormed(d) {
      FirstBlockLost(d, d.iNodes[j], content);
    }
  }

  lemma NamesKeptShort(d: Disk, files: seq<File>)
    requires Inv(d, files)
    ensures NamesShort(d)
  {
    forall i | 0 <= i < |d.iNodes|
      ensures |d.iNodes[i].fileName| < FILE_NAME_SIZE
    {
      assert FileAt(d, d.iNodes[i], files[i]);
    }
  }

  /** Copying a file leaves all links leading to blocks. */
  lemma LinksAfterCopy(d: Disk, files: seq<File>, d1: Disk, a: string, content: seq<Byte>)
    requires Inv(d, files) && d1 == d.(iNodes := d1.iNodes) && content != [] && CopyTo(d1, a, content).1 == Done
    ensures LinksOk(CopyTo(d1, a, content).0)
  {
    var d2 := CopyTo(d1, a, content).0;
    ChunkAmount(content);
    CopyOutcome(d1, a, content);
    CopyDone(d1, a, content);
    LinksInOrder(d, files);
    LinksKept(d, d2, NewChain(d1, content), content);
  }

  lemma LinksKept(d: Disk, d': Disk, chain: seq<nat>, content: seq<Byte>)
    requires LinksOk(d) && Holds(d', chain, content) && d'.blockStart == d.blockStart && |d'.blocks| == |d.blocks|
    requires forall b | 0 <= b < |d.blocks| && b !in chain :: d'.blocks[b] == d.blocks[b]
    ensures LinksOk(d')
  {
    forall b | 0 <= b < |d'.blocks|
      ensures d'.blocks[b].nextBlock == 0 || AtBlock(d', d'.blocks[b].nextBlock)
    {
      if b in chain {
        HeldLinks(d', chain, content, b);
      } else {
        assert d.blocks[b].nextBlock == 0 || AtBlock(d, d.blocks[b].nextBlock);
      }
    }
  }

  /** Removing a file clears the block its index node names, whoever it belongs to. */
  lemma DeleteHits(d: Disk, e: string, i: nat, first: nat)
    requires LinksOk(d) && Lookup(d.iNodes, e, 0) == Some(i) && first < |d.blocks|
    requires 0 < d.blockStart && d.iNodes[i].firstBlock == Offset(d, first)
    ensures var (d', outcome) := DeleteFile(d, e);
      outcome == Done && d'.iNodes == d.iNodes[i := NO_I_NODE] && d'.blocks[first] == NO_BLOCK
  {
    OffsetIndex(d, first);
    assert Visits(d, Offset(d, first), first, 0);
    DeleteMeaning(d, Offset(d, first), first);
  }

  /** The name of the new node is found at it, also when another node is cleared. */
  lemma AlsoFound(iNodes: seq<INode>, i: nat, j: nat, node: INode, name: string)
    requires Lookup(iNodes, name, 0).None? && i < |iNodes| && j < |iNodes| && i != j && node.fileName == name
      && name != ""
    ensures Lookup(iNodes[j := node][i := NO_I_NODE], name, 0) == Some(j)
  {
    LookupMeaning(iNodes, name, 0);
    var iNodes' := iNodes[j := node][i := NO_I_NODE];
    forall x | 0 <= x < |iNodes|
      ensures x != j ==> iNodes'[x].fileName != name
    {
    }
    LookupOnly(iNodes', name, j);
  }
}
