/** The file system with its tables, updated in place: each command loads the disk, works on the
    records and writes back those it has changed, so the tables stand for the disk. */
module VirtualFileSystems {
  import opened Options
  import opened VfsSpec

  class VirtualFileSystem {
    const blockStart: nat
    const iNodes: array<INode>
    const dataBlocks: array<Block>

    ghost function State(): Disk
      reads iNodes, dataBlocks
    {
      Disk(blockStart, iNodes[..], dataBlocks[..])
    }

    ghost predicate Valid()
      reads iNodes, dataBlocks
    {
      WellFormed(State())
    }

    constructor (systemSize: nat)
      requires MIN_FILE_SYSTEM_SIZE <= systemSize
      ensures Valid() && fresh(iNodes) && fresh(dataBlocks)
      ensures Some(State()) == VfsSpec.CreateSystem(systemSize)
    {
      LayoutFits(systemSize);
      blockStart := BlockStart(systemSize);
      iNodes := new INode[INodeAmount(systemSize)](_ => NO_I_NODE);
      dataBlocks := new Block[BlockAmount(systemSize)](_ => NO_BLOCK);
      new;
      assert iNodes[..] == VfsSpec.CreateSystem(systemSize).value.iNodes;
      assert dataBlocks[..] == VfsSpec.CreateSystem(systemSize).value.blocks;
    }

    // ---- Searching ----

    method IsDataBlockFree(index: nat) returns (free: bool)
      requires Valid() && index < dataBlocks.Length
      ensures free == IsFree(dataBlocks[index])
    {
      var data := dataBlocks[index].data;
      for k := 0 to |data|
        invariant forall j | 0 <= j < k :: data[j] == 0
      {
        if data[k] != 0 {
          return false;
        }
      }
      return true;
    }

    /** The first free block from `start` on, or -1. */
    method GetNextFreeDataBlockIndex(start: nat) returns (index: int)
      requires Valid()
      ensures -1 <= index < dataBlocks.Length
      ensures NextFree(dataBlocks[..], start) == if index == -1 then None else Some(index)
    {
      index := start;
      while index < dataBlocks.Length
        invariant start <= index
        invariant NextFree(dataBlocks[..], start) == NextFree(dataBlocks[..], index)
      {
        var free := IsDataBlockFree(index);
        if free {
          return;
        }
        index := index + 1;
      }
      index := -1;
    }

    method GetAmountOfFreeDataBlocks() returns (freeDataBlocks: nat)
      requires Valid()
      ensures freeDataBlocks == FreeAmount(dataBlocks[..])
    {
      freeDataBlocks := 0;
      var i := 0;
      while i < dataBlocks.Length
        invariant i <= dataBlocks.Length
        invariant FreeAmount(dataBlocks[..]) == freeDataBlocks + |FreeFrom(dataBlocks[..], i)|
      {
        var free := IsDataBlockFree(i);
        if free {
          freeDataBlocks := freeDataBlocks + 1;
        }
        i := i + 1;
      }
    }

    method GetFirstFreeINodeIndex() returns (index: int)
      ensures -1 <= index < iNodes.Length
      ensures FirstFreeINode(iNodes[..], 0) == if index == -1 then None else Some(index)
    {
      index := 0;
      while index < iNodes.Length
        invariant 0 <= index <= iNodes.Length
        invariant FirstFreeINode(iNodes[..], 0) == FirstFreeINode(iNodes[..], index)
      {
        if IsINodeFree(iNodes[index]) {
          return;
        }
        index := index + 1;
      }
      index := -1;
    }

    method GetINodeIndex(fileName: string) returns (index: int)
      ensures -1 <= index < iNodes.Length
      ensures Lookup(iNodes[..], fileName, 0) == if index == -1 then None else Some(index)
    {
      index := 0;
      while index < iNodes.Length
        invariant 0 <= index <= iNodes.Length
        invariant Lookup(iNodes[..], fileName, 0) == Lookup(iNodes[..], fileName, index)
      {
        if iNodes[index].fileName == fileName {
          return;
        }
        index := index + 1;
      }
      index := -1;
    }

    /** The block an offset falls into, or -1 if there is none. */
    method CalculateDataBlockIndexFromOffset(offset: nat) returns (index: int)
      ensures -1 <= index < dataBlocks.Length
      ensures IndexOf(State(), offset) == if index == -1 then None else Some(index)
    {
      index := if blockStart <= offset then (offset - blockStart) / DATA_BLOCK_SIZE else -1;
      if dataBlocks.Length <= index {
        index := -1;
      }
    }

    // ---- Commands ----

    method DeleteFile(fileName: string) returns (outcome: Outcome)
      requires Valid()
      modifies iNodes, dataBlocks
      ensures Valid() && (State(), outcome) == VfsSpec.DeleteFile(old(State()), fileName)
    {
      var fileIndex := GetINodeIndex(fileName);
      if fileIndex == -1 {
        return NotFound;
      }
      outcome := DeleteBlocks(iNodes[fileIndex].firstBlock);
      if outcome == Done {
        iNodes[fileIndex] := NO_I_NODE;
      }
    }

    method DeleteBlocks(firstBlock: nat) returns (outcome: Outcome)
      requires Valid()
      modifies dataBlocks
      ensures Valid() && (State(), outcome) == DeleteFrom(old(State()), firstBlock)
    {
      var currentBlockOffset: nat := firstBlock;
      while currentBlockOffset != 0
        invariant Valid() && DeleteFrom(State(), currentBlockOffset) == DeleteFrom(old(State()), firstBlock)
        invariant iNodes[..] == old(iNodes[..])
        decreases LinkAmount(dataBlocks[..]), currentBlockOffset
      {
        var currentBlockIndex := CalculateDataBlockIndexFromOffset(currentBlockOffset);
        if currentBlockIndex == -1 {
          return OutOfBounds;
        }
        var nextBlockOffset := dataBlocks[currentBlockIndex].nextBlock;
        ClearedLink(dataBlocks[..], currentBlockIndex);
        dataBlocks[currentBlockIndex] := NO_BLOCK;
        currentBlockOffset := nextBlockOffset;
      }
      return Done;
    }

    method CopyFileToSystem(name: string, content: seq<Byte>) returns (outcome: Outcome)
      requires Valid()
      modifies iNodes, dataBlocks
      ensures Valid() && (State(), outcome) == CopyTo(old(State()), name, content)
    {
      var existing := GetINodeIndex(name);
      if existing != -1 {
        return AlreadyExists;
      }
      var freeINodeIndex := GetFirstFreeINodeIndex();
      if freeINodeIndex == -1 {
        return NoINode;
      }
      var free := GetAmountOfFreeDataBlocks();
      if |content| > free * DATA_BLOCK_SIZE {
        return NoSpace;
      }
      var freeDataBlockIndex := GetNextFreeDataBlockIndex(0);
      var firstBlock := blockStart + freeDataBlockIndex * DATA_BLOCK_SIZE;
      iNodes[freeINodeIndex] := INode(Stored(name), |content|, firstBlock);
      if content == [] {
        return Done;
      }
      if freeDataBlockIndex == -1 {
        return OutOfBounds;
      }
      outcome := WriteBlocks(freeDataBlockIndex, content);
    }

    method WriteBlocks(first: nat, content: seq<Byte>) returns (outcome: Outcome)
      requires Valid() && content != [] && first < dataBlocks.Length
      modifies dataBlocks
      ensures Valid() && (State(), outcome) == WriteFrom(old(State()), first, content)
    {
      var remaining := content;
      var currentBlockIndex: nat := first;
      while true
        invariant Valid() && remaining != [] && currentBlockIndex < dataBlocks.Length
        invariant iNodes[..] == old(iNodes[..])
        invariant WriteFrom(State(), currentBlockIndex, remaining) == WriteFrom(old(State()), first, content)
        decreases |remaining|
      {
        var chunk := Take(remaining);
        remaining := Rest(remaining);
        var nextBlockIndex := 0;
        if remaining != [] {
          nextBlockIndex := GetNextFreeDataBlockIndex(currentBlockIndex + 1);
        }
        var nextBlock := if nextBlockIndex != -1 then blockStart + nextBlockIndex * DATA_BLOCK_SIZE else 0;
        dataBlocks[currentBlockIndex] := Block(Pad(chunk), nextBlock);
        if remaining == [] {
          return Done;
        }
        if nextBlockIndex == -1 {
          return OutOfBounds;
        }
        currentBlockIndex := nextBlockIndex;
      }
    }

    method CopyFileFromSystem(fileName: string) returns (outcome: Outcome, content: seq<Byte>)
      requires Valid()
      ensures (outcome, content) == CopyFrom(State(), fileName)
    {
      var fileIndex := GetINodeIndex(fileName);
      if fileIndex == -1 {
        return NotFound, [];
      }
      ghost var read := ReadFrom(State(), iNodes[fileIndex].firstBlock, iNodes[fileIndex].fileSize);
      var fileSize: nat := iNodes[fileIndex].fileSize;
      var currentBlockOffset: nat := iNodes[fileIndex].firstBlock;
      content := [];
      assert forall rest: seq<Byte> :: content + rest == rest;
      while 0 < fileSize
        invariant var rest := ReadFrom(State(), currentBlockOffset, fileSize);
          read == if rest.None? then None else Some(content + rest.value)
        decreases fileSize
      {
        var currentBlockIndex := CalculateDataBlockIndexFromOffset(currentBlockOffset);
        if currentBlockIndex == -1 {
          return OutOfBounds, [];
        }
        var dataBlock := dataBlocks[currentBlockIndex];
        var sizeToWrite := if fileSize < BLOCK_SIZE then fileSize else BLOCK_SIZE;
        ghost var before := content;
        content := content + dataBlock.data[..sizeToWrite];
        fileSize := fileSize - sizeToWrite;
        currentBlockOffset := dataBlock.nextBlock;
        assert forall rest: seq<Byte> :: before + (dataBlock.data[..sizeToWrite] + rest) == content + rest;
      }
      assert content + [] == content;
      return Done, content;
    }
  }
}
