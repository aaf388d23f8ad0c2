/** The virtual file system on one disk: index nodes, and data blocks linked by their offsets. */
module VfsSpec {
  import opened Options

  type Byte = b: int | 0 <= b < 256

  const SUPER_BLOCK_SIZE := 48
  const I_NODE_SIZE := 528
  const DATA_BLOCK_SIZE := 1032
  const BLOCK_SIZE := 1024
  const FILE_NAME_SIZE := 512
  const MIN_FILE_SYSTEM_SIZE := 1048576

  datatype INode = INode(fileName: string, fileSize: nat, firstBlock: nat)

  datatype Block = Block(data: seq<Byte>, nextBlock: nat)

  datatype Disk = Disk(blockStart: nat, iNodes: seq<INode>, blocks: seq<Block>)

  const NO_I_NODE := INode("", 0, 0)

  function Zeros(n: nat): (z: seq<Byte>)
    ensures |z| == n && forall i | 0 <= i < n :: z[i] == 0
  {
    seq(n, i => 0)
  }

  const NO_BLOCK := Block(Zeros(BLOCK_SIZE), 0)

  predicate WellFormed(d: Disk) {
    DATA_BLOCK_SIZE <= d.blockStart && forall i | 0 <= i < |d.blocks| :: |d.blocks[i].data| == BLOCK_SIZE
  }

  // ---- Layout ----

  /** The divisor of the source is two divisors in a row. */
  function INodeAmount(size: nat): nat {
    size / 4096 / 2
  }

  function BlockStart(size: nat): nat {
    SUPER_BLOCK_SIZE + INodeAmount(size) * I_NODE_SIZE
  }

  function BlockAmount(size: nat): int {
    (size - BlockStart(size)) / DATA_BLOCK_SIZE
  }

  function CreateSystem(size: nat): Option<Disk> {
    if size < MIN_FILE_SYSTEM_SIZE then None
    else
      LayoutFits(size);
      Some(Disk(BlockStart(size), seq(INodeAmount(size), i => NO_I_NODE), seq(BlockAmount(size), i => NO_BLOCK)))
  }

  /** The tables fit the disk, and less than a block is left over. */
  lemma LayoutFits(size: nat)
    requires MIN_FILE_SYSTEM_SIZE <= size
    ensures 128 <= INodeAmount(size) && 900 <= BlockAmount(size) && DATA_BLOCK_SIZE <= BlockStart(size)
    ensures BlockStart(size) + BlockAmount(size) * DATA_BLOCK_SIZE <= size
    ensures size < BlockStart(size) + (BlockAmount(size) + 1) * DATA_BLOCK_SIZE
  {
    assert INodeAmount(size) * 8192 <= size;
  }

  function Offset(d: Disk, i: nat): nat {
    d.blockStart + i * DATA_BLOCK_SIZE
  }

  /** The block an offset falls into, if there is one. */
  function IndexOf(d: Disk, offset: nat): (i: Option<nat>)
    ensures i.Some? ==> i.value < |d.blocks|
  {
    if d.blockStart <= offset && (offset - d.blockStart) / DATA_BLOCK_SIZE < |d.blocks|
    then Some((offset - d.blockStart) / DATA_BLOCK_SIZE) else None
  }

  lemma OffsetIndex(d: Disk, i: nat)
    requires i < |d.blocks|
    ensures IndexOf(d, Offset(d, i)) == Some(i)
  {
  }

  // ---- Searching ----

  predicate IsZero(data: seq<Byte>) {
    forall k | 0 <= k < |data| :: data[k] == 0
  }

  /** A block is taken for free when all its data is zero. */
  predicate IsFree(b: Block) {
    IsZero(b.data)
  }

  function NextFree(blocks: seq<Block>, i: nat): (found: Option<nat>)
    ensures found.Some? ==> i <= found.value < |blocks| && IsFree(blocks[found.value])
    decreases |blocks| - i
  {
    if |blocks| <= i then None else if IsFree(blocks[i]) then Some(i) else NextFree(blocks, i + 1)
  }

  /** The free blocks from `i` on, in order. */
  function FreeFrom(blocks: seq<Block>, i: nat): seq<nat>
    decreases |blocks| - i
  {
    if |blocks| <= i then [] else if IsFree(blocks[i]) then [i] + FreeFrom(blocks, i + 1) else FreeFrom(blocks, i + 1)
  }

  function FreeAmount(blocks: seq<Block>): nat {
    |FreeFrom(blocks, 0)|
  }

  predicate IsINodeFree(n: INode) {
    n.fileSize == 0 && n.firstBlock == 0
  }

  function FirstFreeINode(iNodes: seq<INode>, i: nat): (found: Option<nat>)
    ensures found.Some? ==> i <= found.value < |iNodes| && IsINodeFree(iNodes[found.value])
    decreases |iNodes| - i
  {
    if |iNodes| <= i then None else if IsINodeFree(iNodes[i]) then Some(i) else FirstFreeINode(iNodes, i + 1)
  }

  /** The first index node with this name, whether in use or not. */
  function Lookup(iNodes: seq<INode>, name: string, i: nat): (found: Option<nat>)
    ensures found.Some? ==> i <= found.value < |iNodes| && iNodes[found.value].fileName == name
    decreases |iNodes| - i
  {
    if |iNodes| <= i then None else if iNodes[i].fileName == name then Some(i) else Lookup(iNodes, name, i + 1)
  }

  // ---- Copying to the system ----

  datatype Outcome = Done | NotFound | AlreadyExists | NoINode | NoSpace | OutOfBounds

  function Take(content: seq<Byte>): seq<Byte> {
    if |content| <= BLOCK_SIZE then content else content[..BLOCK_SIZE]
  }

  function Rest(content: seq<Byte>): (rest: seq<Byte>)
    ensures content != [] ==> |rest| < |content|
  {
    if |content| <= BLOCK_SIZE then [] else content[BLOCK_SIZE..]
  }

  function Pad(chunk: seq<Byte>): (data: seq<Byte>)
    requires |chunk| <= BLOCK_SIZE
    ensures |data| == BLOCK_SIZE
  {
    chunk + Zeros(BLOCK_SIZE - |chunk|)
  }

  /** A name as the index node keeps it. */
  function Stored(name: string): string {
    if |name| < FILE_NAME_SIZE then name else name[..FILE_NAME_SIZE - 1]
  }

  /** Writes what is left of a file, at block `i`. The last block is linked to block 0; when
      there is no free block for the rest, the link is 0 and the next access is out of bounds. */
  function WriteFrom(d: Disk, i: nat, content: seq<Byte>): (r: (Disk, Outcome))
    requires content != [] && i < |d.blocks|
    ensures r.0.blockStart == d.blockStart && r.0.iNodes == d.iNodes && |r.0.blocks| == |d.blocks|
    decreases |content|
  {
    var rest := Rest(content);
    var next := if rest == [] then Some(0) else NextFree(d.blocks, i + 1);
    var link := if next.Some? then Offset(d, next.value) else 0;
    var d' := d.(blocks := d.blocks[i := Block(Pad(Take(content)), link)]);
    if rest == [] then (d', Done)
    else if next.None? then (d', OutOfBounds)
    else WriteFrom(d', next.value, rest)
  }

  /** The index node of a new file. Its first block is the first free one even if the file is
      empty; with no free block at all, index -1 makes it an offset in front of the blocks. */
  function NewNode(d: Disk, name: string, size: nat): INode
    requires WellFormed(d)
  {
    var first := NextFree(d.blocks, 0);
    INode(Stored(name), size, if first.Some? then Offset(d, first.value) else d.blockStart - DATA_BLOCK_SIZE)
  }

  /** The space check counts blocks with their links, the file needs them without. */
  function CopyTo(d: Disk, name: string, content: seq<Byte>): (Disk, Outcome)
    requires WellFormed(d)
  {
    var node := FirstFreeINode(d.iNodes, 0);
    if Lookup(d.iNodes, name, 0).Some? then (d, AlreadyExists)
    else if node.None? then (d, NoINode)
    else if |content| > FreeAmount(d.blocks) * DATA_BLOCK_SIZE then (d, NoSpace)
    else
      var first := NextFree(d.blocks, 0);
      var d' := d.(iNodes := d.iNodes[node.value := NewNode(d, name, |content|)]);
      if content == [] then (d', Done)
      else if first.None? then (d', OutOfBounds)
      else WriteFrom(d', first.value, content)
  }

  // ---- Copying from the system ----

  /** What following the links from an offset reads, unless it leaves the table. */
  function ReadFrom(d: Disk, offset: nat, size: nat): (r: Option<seq<Byte>>)
    requires WellFormed(d)
    ensures r.Some? ==> |r.value| == size
    decreases size
  {
    if size == 0 then Some([])
    else
      var i := IndexOf(d, offset);
      if i.None? then None
      else
        var n := if size < BLOCK_SIZE then size else BLOCK_SIZE;
        var rest := ReadFrom(d, d.blocks[i.value].nextBlock, size - n);
        if rest.None? then None else Some(d.blocks[i.value].data[..n] + rest.value)
  }

  function CopyFrom(d: Disk, name: string): (Outcome, seq<Byte>)
    requires WellFormed(d)
  {
    var node := Lookup(d.iNodes, name, 0);
    if node.None? then (NotFound, [])
    else
      var read := ReadFrom(d, d.iNodes[node.value].firstBlock, d.iNodes[node.value].fileSize);
      if read.None? then (OutOfBounds, []) else (Done, read.value)
  }

  // ---- Deleting ----

  /** How many blocks have a link. */
  function LinkAmount(blocks: seq<Block>): nat {
    if blocks == [] then 0 else (if blocks[0].nextBlock != 0 then 1 else 0) + LinkAmount(blocks[1..])
  }

  lemma {:induction false} ClearedLink(blocks: seq<Block>, i: nat)
    requires i < |blocks|
    ensures LinkAmount(blocks[i := NO_BLOCK]) == LinkAmount(blocks) - if blocks[i].nextBlock != 0 then 1 else 0
  {
    if i == 0 {
      assert blocks[i := NO_BLOCK][1..] == blocks[1..];
    } else {
      assert blocks[i := NO_BLOCK][1..] == blocks[1..][i - 1 := NO_BLOCK];
      ClearedLink(blocks[1..], i - 1);
    }
  }

  function Clear(d: Disk, i: nat): Disk
    requires i < |d.blocks|
  {
    d.(blocks := d.blocks[i := NO_BLOCK])
  }

  /** Clears block after block along the links. A cleared block has no link, so this ends on
      every disk, even when the links go round in circles. */
  function DeleteFrom(d: Disk, offset: nat): (r: (Disk, Outcome))
    ensures r.0.blockStart == d.blockStart && r.0.iNodes == d.iNodes && |r.0.blocks| == |d.blocks|
    ensures WellFormed(d) ==> WellFormed(r.0)
    decreases LinkAmount(d.blocks), offset
  {
    if offset == 0 then (d, Done)
    else
      var i := IndexOf(d, offset);
      if i.None? then (d, OutOfBounds)
      else
        ClearedLink(d.blocks, i.value);
        DeleteFrom(Clear(d, i.value), d.blocks[i.value].nextBlock)
  }

  function DeleteFile(d: Disk, name: string): (Disk, Outcome) {
    var node := Lookup(d.iNodes, name, 0);
    if node.None? then (d, NotFound)
    else
      var (d', outcome) := DeleteFrom(d, d.iNodes[node.value].firstBlock);
      (if outcome == Done then d'.(iNodes := d'.iNodes[node.value := NO_I_NODE]) else d', outcome)
  }
}
