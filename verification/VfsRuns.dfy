/** Many files on one system: what every run of commands keeps. */
module VfsRuns {
  import opened Options
  import opened VfsChains
  import opened VfsFiles
  import opened VfsSpec

  /** What an index node stands for: nothing, or a file with its blocks and its content. */
  datatype File = NoFile | File(chain: seq<nat>, content: seq<Byte>) {
    function Blocks(): seq<nat> {
      if NoFile? then [] else chain
    }
  }

  /** A content every block of which has a byte other than zero. */
  ghost predicate Solid(content: seq<Byte>) {
    content != [] && forall c | c in Chunks(content) :: !IsZero(c)
  }

  predicate GoodName(name: string) {
    0 < |name| < FILE_NAME_SIZE
  }

  ghost predicate FileAt(d: Disk, node: INode, f: File) {
    match f
    case NoFile => node == NO_I_NODE
    case File(chain, content) =>
      && GoodName(node.fileName) && node.fileSize == |content| && Solid(content)
      && Holds(d, chain, content) && Ascending(chain) && chain != [] && node.firstBlock == Offset(d, chain[0])
  }

  ghost predicate Owned(files: seq<File>, b: nat) {
    exists i :: 0 <= i < |files| && b in files[i].Blocks()
  }

  ghost predicate BlocksApart(files: seq<File>) {
    forall i, j, b: nat | 0 <= i < |files| && 0 <= j < |files| && i != j && b in files[i].Blocks() ::
      b !in files[j].Blocks()
  }

  ghost predicate NamesApart(iNodes: seq<INode>, files: seq<File>) {
    forall i, j | 0 <= i < |files| < |iNodes| + 1 && 0 <= j < |files| && i != j && files[i].File? && files[j].File? ::
      iNodes[i].fileName != iNodes[j].fileName
  }

  ghost predicate UnownedClear(d: Disk, files: seq<File>) {
    forall b: nat | b < |d.blocks| :: Owned(files, b) || d.blocks[b] == NO_BLOCK
  }

  /** The files of a system in order: their blocks are disjoint, all other blocks are clear. */
  ghost predicate Inv(d: Disk, files: seq<File>) {
    && WellFormed(d) && 0 < |d.blocks| && |files| == |d.iNodes|
    && (forall i | 0 <= i < |files| :: FileAt(d, d.iNodes[i], files[i]))
    && BlocksApart(files) && NamesApart(d.iNodes, files) && UnownedClear(d, files)
  }

  // ---- Free blocks are the blocks of no file ----

  lemma {:induction false} HeldNotFree(d: Disk, chain: seq<nat>, content: seq<Byte>, b: nat)
    requires Holds(d, chain, content) && b in chain && b < |d.blocks|
    requires forall c | c in Chunks(content) :: !IsZero(c)
    ensures !IsFree(d.blocks[b])
    decreases |content|
  {
    if b == chain[0] {
      var chunk := Take(content);
      assert chunk in Chunks(content);
      var k :| 0 <= k < |chunk| && chunk[k] != 0;
      assert Pad(chunk)[k] == chunk[k];
    } else {
      assert forall c | c in Chunks(Rest(content)) :: c in Chunks(content);
      HeldNotFree(d, chain[1..], Rest(content), b);
    }
  }

  lemma FreeIsUnowned(d: Disk, files: seq<File>, b: nat)
    requires Inv(d, files) && b < |d.blocks|
    ensures IsFree(d.blocks[b]) <==> !Owned(files, b)
  {
    if Owned(files, b) {
      var i :| 0 <= i < |files| && b in files[i].Blocks();
      assert FileAt(d, d.iNodes[i], files[i]);
      HeldNotFree(d, files[i].chain, files[i].content, b);
    }
  }

  lemma NodeFree(d: Disk, files: seq<File>, i: nat)
    requires Inv(d, files) && i < |files|
    ensures IsINodeFree(d.iNodes[i]) <==> files[i].NoFile?
    ensures d.iNodes[i].fileName == "" <==> files[i].NoFile?
  {
    assert FileAt(d, d.iNodes[i], files[i]);
  }

  // ---- Reading ----

  lemma FileFound(d: Disk, files: seq<File>, i: nat)
    requires Inv(d, files) && i < |files| && files[i].File?
    ensures Lookup(d.iNodes, d.iNodes[i].fileName, 0) == Some(i)
  {
    forall j | 0 <= j < |files|
      ensures j != i ==> d.iNodes[j].fileName != d.iNodes[i].fileName
    {
      NodeFree(d, files, j);
      NodeFree(d, files, i);
    }
    LookupOnly(d.iNodes, d.iNodes[i].fileName, i);
  }

  /** Every file comes back byte for byte. */
  lemma FileReads(d: Disk, files: seq<File>, i: nat)
    requires Inv(d, files) && i < |files| && files[i].File?
    ensures CopyFrom(d, d.iNodes[i].fileName) == (Done, files[i].content)
  {
    assert FileAt(d, d.iNodes[i], files[i]);
    FileFound(d, files, i);
    ReadHeld(d, files[i].chain, files[i].content);
  }

  // ---- Adding a file ----

  lemma NewChainFree(d: Disk, content: seq<Byte>)
    requires |Chunks(content)| <= FreeAmount(d.blocks)
    ensures Ascending(NewChain(d, content))
    ensures forall b | b in NewChain(d, content) :: b < |d.blocks| && IsFree(d.blocks[b])
  {
    FreeFromAscending(d.blocks, 0);
    forall b | b in NewChain(d, content)
      ensures b < |d.blocks| && IsFree(d.blocks[b])
    {
      assert b in FreeFrom(d.blocks, 0);
      FreeFromMember(d.blocks, 0, b);
    }
  }

  /** The others keep their blocks, their names and so their content. */
  lemma OthersKept(d: Disk, d': Disk, files: seq<File>, i: nat, j: nat, touched: seq<nat>)
    requires Inv(d, files) && i < |files| && j < |files| && i != j
    requires d'.blockStart == d.blockStart && |d'.blocks| == |d.blocks|
    requires forall b: nat | b < |d.blocks| && b !in touched :: d'.blocks[b] == d.blocks[b]
    requires forall b | b in files[j].Blocks() :: b !in touched
    ensures FileAt(d', d.iNodes[j], files[j])
  {
    assert FileAt(d, d.iNodes[j], files[j]);
    if files[j].File? {
      HoldsFrame(d, d', files[j].chain, files[j].content);
    }
  }

  lemma AddedApart(d: Disk, files: seq<File>, i: nat, f: File)
    requires Inv(d, files) && i < |files| && files[i].NoFile? && f.File?
    requires forall b | b in f.chain :: b < |d.blocks| && IsFree(d.blocks[b])
    ensures BlocksApart(files[i := f])
    ensures forall b: nat :: Owned(files[i := f], b) <==> Owned(files, b) || b in f.chain
  {
    forall b | b in f.chain
      ensures !Owned(files, b)
    {
      FreeIsUnowned(d, files, b);
    }
    var files' := files[i := f];
    forall b: nat | Owned(files, b)
      ensures Owned(files', b)
    {
      var j :| 0 <= j < |files| && b in files[j].Blocks();
      assert b in files'[j].Blocks();
    }
    forall b | b in f.chain
      ensures Owned(files', b)
    {
      assert b in files'[i].Blocks();
    }
  }

  predicate CanCopy(d: Disk, name: string, content: seq<Byte>) {
    CanAdd(d, name) && GoodName(name) && |Chunks(content)| <= FreeAmount(d.blocks)
  }

  function Added(d: Disk, files: seq<File>, content: seq<Byte>): seq<File>
    requires |files| == |d.iNodes| && FirstFreeINode(d.iNodes, 0).Some? && |Chunks(content)| <= FreeAmount(d.blocks)
  {
    files[FirstFreeINode(d.iNodes, 0).value := File(NewChain(d, content), content)]
  }

  /** A new file takes blocks of no other file, and nothing else changes. */
  lemma CopyKeeps(d: Disk, files: seq<File>, name: string, content: seq<Byte>)
    requires Inv(d, files) && CanCopy(d, name, content) && Solid(content)
    ensures CopyTo(d, name, content).1 == Done
    ensures Inv(CopyTo(d, name, content).0, Added(d, files, content))
  {
    var (d', i, chain) := (CopyTo(d, name, content).0, FirstFreeINode(d.iNodes, 0).value, NewChain(d, content));
    var f := File(chain, content);
    CopyDone(d, name, content);
    CopyWellFormed(d, name, content);
    NewChainFree(d, content);
    NodeFree(d, files, i);
    AddedApart(d, files, i, f);
    forall j | 0 <= j < |files|
      ensures FileAt(d', d'.iNodes[j], files[i := f][j])
    {
      if j != i {
        AddedElsewhere(d, files, i, f, j);
        OthersKept(d, d', files, i, j, chain);
      }
    }
    NewNameApart(d, files, i, NewNode(d, name, |content|), f);
  }

  lemma AddedElsewhere(d: Disk, files: seq<File>, i: nat, f: File, j: nat)
    requires Inv(d, files) && i < |files| && j < |files| && f.File?
    requires forall b | b in f.chain :: b < |d.blocks| && IsFree(d.blocks[b])
    ensures forall b | b in files[j].Blocks() :: b !in f.chain
  {
    forall b | b in f.chain
      ensures b !in files[j].Blocks()
    {
      FreeIsUnowned(d, files, b);
    }
  }

  lemma NewNameApart(d: Disk, files: seq<File>, i: nat, node: INode, f: File)
    requires Inv(d, files) && i < |files| && Lookup(d.iNodes, node.fileName, 0).None?
    ensures NamesApart(d.iNodes[i := node], files[i := f])
  {
    LookupMeaning(d.iNodes, node.fileName, 0);
  }

  // ---- Removing a file ----

  /** The links of a file lead to blocks, and within a chain only to it or to block 0. */
  lemma {:induction false} HeldLinks(d: Disk, chain: seq<nat>, content: seq<Byte>, b: nat)
    requires Holds(d, chain, content) && b in chain && b < |d.blocks|
    ensures AtBlock(d, d.blocks[b].nextBlock)
    ensures var link := IndexOf(d, d.blocks[b].nextBlock).value; link in chain || link == 0
    decreases |content|
  {
    OffsetIndex(d, 0);
    if b == chain[0] {
      if Rest(content) != [] {
        HoldsLength(d, chain[1..], Rest(content));
        OffsetIndex(d, chain[1]);
      }
    } else {
      HeldLinks(d, chain[1..], Rest(content), b);
    }
  }

  lemma LinksInOrder(d: Disk, files: seq<File>)
    requires Inv(d, files)
    ensures LinksOk(d)
  {
    forall b: nat | b < |d.blocks|
      ensures d.blocks[b].nextBlock == 0 || AtBlock(d, d.blocks[b].nextBlock)
    {
      if Owned(files, b) {
        var i :| 0 <= i < |files| && b in files[i].Blocks();
        assert FileAt(d, d.iNodes[i], files[i]);
        HeldLinks(d, files[i].chain, files[i].content, b);
      }
    }
  }

  /** What can be checked before a file is removed: block 0 is free, or the file begins there. */
  predicate SafeToRemove(d: Disk, i: nat)
    requires 0 < |d.blocks| && i < |d.iNodes|
  {
    IsFree(d.blocks[0]) || d.iNodes[i].firstBlock == d.blockStart
  }

  /** No other file begins at block 0, which is where a file that owns it begins. */
  lemma SafeMeaning(d: Disk, files: seq<File>, i: nat)
    requires Inv(d, files) && i < |files| && files[i].File?
    ensures SafeToRemove(d, i) <==> d.blocks[0] == NO_BLOCK || 0 in files[i].chain
    ensures SafeToRemove(d, i) <==> forall j | 0 <= j < |files| && j != i :: 0 !in files[j].Blocks()
    ensures forall j | 0 <= j < |files| && 0 in files[j].Blocks() :: files[j].chain[0] == 0
  {
    FreeIsUnowned(d, files, 0);
    forall j | 0 <= j < |files| && 0 in files[j].Blocks()
      ensures files[j].chain[0] == 0
    {
      assert FileAt(d, d.iNodes[j], files[j]);
    }
    assert FileAt(d, d.iNodes[i], files[i]);
    if d.iNodes[i].firstBlock == d.blockStart {
      assert files[i].chain[0] == 0;
    }
    if !IsFree(d.blocks[0]) {
      var j :| 0 <= j < |files| && 0 in files[j].Blocks();
    }
    assert IsFree(NO_BLOCK);
  }

  /** Removing a file clears its blocks and the ones behind block 0. */
  lemma RemoveClears(d: Disk, files: seq<File>, i: nat, b: nat)
    requires Inv(d, files) && i < |files| && files[i].File? && b < |d.blocks|
    ensures var (d', outcome) := DeleteFile(d, d.iNodes[i].fileName);
      && outcome == Done && d'.iNodes == d.iNodes[i := NO_I_NODE]
      && d'.blocks[b] == if b in files[i].chain || Reachable(d, Offset(d, 0), b) then NO_BLOCK else d.blocks[b]
  {
    assert FileAt(d, d.iNodes[i], files[i]);
    FileFound(d, files, i);
    LinksInOrder(d, files);
    var chain := files[i].chain;
    HoldsLength(d, chain, files[i].content);
    OffsetIndex(d, chain[0]);
    DeleteMeaning(d, Offset(d, chain[0]), b);
    HeldReaches(d, chain, files[i].content, b);
  }

  /** If it is safe, nothing hangs on block 0 that does not belong to the file. */
  lemma OwnBlocksOnly(d: Disk, files: seq<File>, i: nat, b: nat)
    requires Inv(d, files) && i < |files| && files[i].File? && b < |d.blocks| && SafeToRemove(d, i)
    requires Reachable(d, Offset(d, 0), b)
    ensures b in files[i].chain || d.blocks[b] == NO_BLOCK
  {
    SafeMeaning(d, files, i);
    assert FileAt(d, d.iNodes[i], files[i]);
    OffsetIndex(d, 0);
    var k: nat :| Visits(d, Offset(d, 0), b, k);
    if 0 in files[i].chain {
      forall x | x in files[i].chain && x < |d.blocks|
        ensures IndexOf(d, d.blocks[x].nextBlock).Some? && IndexOf(d, d.blocks[x].nextBlock).value in files[i].chain
      {
        HeldLinks(d, files[i].chain, files[i].content, x);
      }
      StaysIn(d, files[i].chain, Offset(d, 0), b, k);
    } else {
      StaysIn(d, [0], Offset(d, 0), b, k);
    }
  }

  /** Safely removed, a file takes nothing but its own blocks with it. */
  lemma RemovedBlocks(d: Disk, files: seq<File>, i: nat)
    requires Inv(d, files) && i < |files| && files[i].File? && SafeToRemove(d, i)
    ensures var (d', outcome) := DeleteFile(d, d.iNodes[i].fileName);
      && outcome == Done && d'.iNodes == d.iNodes[i := NO_I_NODE] && d'.blockStart == d.blockStart
      && |d'.blocks| == |d.blocks|
      && forall b: nat | b < |d.blocks| :: d'.blocks[b] == if b in files[i].chain then NO_BLOCK else d.blocks[b]
  {
    var d' := DeleteFile(d, d.iNodes[i].fileName).0;
    RemoveClears(d, files, i, 0);
    forall b: nat | b < |d.blocks|
      ensures d'.blocks[b] == if b in files[i].chain then NO_BLOCK else d.blocks[b]
    {
      RemoveClears(d, files, i, b);
      if Reachable(d, Offset(d, 0), b) {
        OwnBlocksOnly(d, files, i, b);
      }
    }
  }

  lemma RemovedApart(d: Disk, d': Disk, files: seq<File>, i: nat)
    requires Inv(d, files) && i < |files| && files[i].File? && |d'.blocks| == |d.blocks|
    requires forall b: nat | b < |d.blocks| :: d'.blocks[b] == if b in files[i].chain then NO_BLOCK else d.blocks[b]
    ensures BlocksApart(files[i := NoFile]) && NamesApart(d.iNodes[i := NO_I_NODE], files[i := NoFile])
    ensures UnownedClear(d', files[i := NoFile])
  {
    var files' := files[i := NoFile];
    forall b: nat | b < |d'.blocks|
      ensures Owned(files', b) || d'.blocks[b] == NO_BLOCK
    {
      if Owned(files, b) && b !in files[i].chain {
        var j :| 0 <= j < |files| && b in files[j].Blocks();
        assert b in files'[j].Blocks();
      }
    }
  }

  lemma RemoveKeeps(d: Disk, files: seq<File>, i: nat)
    requires Inv(d, files) && i < |files| && files[i].File? && SafeToRemove(d, i)
    ensures DeleteFile(d, d.iNodes[i].fileName).1 == Done
    ensures Inv(DeleteFile(d, d.iNodes[i].fileName).0, files[i := NoFile])
  {
    var d', files' := DeleteFile(d, d.iNodes[i].fileName).0, files[i := NoFile];
    RemovedBlocks(d, files, i);
    RemovedApart(d, d', files, i);
    forall j | 0 <= j < |files|
      ensures FileAt(d', d'.iNodes[j], files'[j])
    {
      if j != i {
        OthersKept(d, d', files, i, j, files[i].chain);
      }
    }
  }

  // ---- When removing a file harms another ----

  /** A file is intact if it comes back as it was copied to the system. */
  ghost predicate Intact(d: Disk, name: string, content: seq<Byte>) {
    WellFormed(d) && CopyFrom(d, name) == (Done, content)
  }

  /** A file the first block of which has been cleared is lost. */
  lemma FirstBlockLost(d: Disk, node: INode, content: seq<Byte>)
    requires WellFormed(d) && Solid(content) && node.fileSize == |content|
    requires IndexOf(d, node.firstBlock).Some? && d.blocks[IndexOf(d, node.firstBlock).value] == NO_BLOCK
    ensures ReadFrom(d, node.firstBlock, node.fileSize) != Some(content)
  {
    var read, chunk := ReadFrom(d, node.firstBlock, node.fileSize), Take(content);
    assert chunk in Chunks(content);
    var k :| 0 <= k < |chunk| && chunk[k] != 0;
    if read.Some? {
      assert read.value[k] == 0 && content[k] == chunk[k];
    }
  }

  /** A chain some blocks of which have been cleared cannot be read any more. */
  lemma {:induction false} ClearedLost(d: Disk, d': Disk, chain: seq<nat>, content: seq<Byte>, b: nat)
    requires WellFormed(d') && d'.blockStart == d.blockStart && |d'.blocks| == |d.blocks|
    requires Holds(d, chain, content) && Solid(content) && b in chain && b < |d.blocks| && d'.blocks[b] == NO_BLOCK
    requires forall x | x in chain && x < |d.blocks| :: d'.blocks[x] == d.blocks[x] || d'.blocks[x] == NO_BLOCK
    ensures ReadFrom(d', Offset(d, chain[0]), |content|) != Some(content)
    decreases |content|
  {
    OffsetIndex(d', chain[0]);
    if d'.blocks[chain[0]] == NO_BLOCK {
      FirstBlockLost(d', INode("", |content|, Offset(d, chain[0])), content);
    } else {
      assert content == Take(content) + Rest(content) && chain == [chain[0]] + chain[1..];
      assert forall c | c in Chunks(Rest(content)) :: c in Chunks(content);
      ClearedLost(d, d', chain[1..], Rest(content), b);
    }
  }

  lemma RemoveHarms(d: Disk, files: seq<File>, i: nat, j: nat)
    requires Inv(d, files) && i < |files| && j < |files| && i != j && files[i].File? && 0 in files[j].Blocks()
    ensures !Intact(DeleteFile(d, d.iNodes[i].fileName).0, d.iNodes[j].fileName, files[j].content)
  {
    var d' := DeleteFile(d, d.iNodes[i].fileName).0;
    SafeMeaning(d, files, i);
    assert FileAt(d, d.iNodes[j], files[j]);
    OffsetIndex(d, 0);
    assert Visits(d, Offset(d, 0), 0, 0);
    RemoveClears(d, files, i, 0);
    OffsetIndex(d', 0);
    FirstBlockLost(d', d.iNodes[j], files[j].content);
    StillFound(d, files, i, j);
  }

  lemma StillFound(d: Disk, files: seq<File>, i: nat, j: nat)
    requires Inv(d, files) && i < |files| && j < |files| && i != j && files[j].File?
    ensures Lookup(d.iNodes[i := NO_I_NODE], d.iNodes[j].fileName, 0) == Some(j)
  {
    var iNodes := d.iNodes[i := NO_I_NODE];
    forall x | 0 <= x < |files|
      ensures x != j ==> iNodes[x].fileName != iNodes[j].fileName
    {
      NodeFree(d, files, x);
      NodeFree(d, files, j);
    }
    LookupOnly(iNodes, iNodes[j].fileName, j);
  }

  /** Removing a file leaves all other files intact exactly if block 0 is free or its own. */
  lemma RemoveExact(d: Disk, files: seq<File>, i: nat)
    requires Inv(d, files) && i < |files| && files[i].File?
    ensures SafeToRemove(d, i) <==>
      forall j | 0 <= j < |files| && j != i && files[j].File? ::
        Intact(DeleteFile(d, d.iNodes[i].fileName).0, d.iNodes[j].fileName, files[j].content)
  {
    var d', files' := DeleteFile(d, d.iNodes[i].fileName).0, files[i := NoFile];
    if SafeToRemove(d, i) {
      RemoveKeeps(d, files, i);
      RemovedBlocks(d, files, i);
      forall j | 0 <= j < |files| && j != i && files[j].File?
        ensures Intact(d', d.iNodes[j].fileName, files[j].content)
      {
        FileReads(d', files', j);
      }
    } else {
      SafeMeaning(d, files, i);
      var j :| 0 <= j < |files| && j != i && 0 in files[j].Blocks();
      RemoveHarms(d, files, i, j);
    }
  }

  // ---- Runs of commands ----

  datatype Command = CopyToSystem(name: string, content: seq<Byte>) | Remove(name: string)

  function Apply(d: Disk, c: Command): (Disk, Outcome)
    requires WellFormed(d)
  {
    match c
    case CopyToSystem(name, content) => CopyTo(d, name, content)
    case Remove(name) => DeleteFile(d, name)
  }

  /** The commands that keep the files in order: files with a good name, no all-zero block and
      no more than the data of the free blocks, and safe removals. */
  ghost predicate Legal(d: Disk, c: Command)
    requires WellFormed(d) && 0 < |d.blocks|
  {
    match c
    case CopyToSystem(name, content) => GoodName(name) && Solid(content) && |Chunks(content)| <= FreeAmount(d.blocks)
    case Remove(name) =>
      name != "" && (Lookup(d.iNodes, name, 0).Some? ==> SafeToRemove(d, Lookup(d.iNodes, name, 0).value))
  }

  /** A file system as its user sees it. */
  type Catalog = map<string, seq<Byte>>

  function Listed(cat: Catalog, c: Command, outcome: Outcome): Catalog {
    if outcome != Done then cat
    else match c
      case CopyToSystem(name, content) => cat[name := content]
      case Remove(name) => cat - {name}
  }

  ghost predicate IsFile(iNodes: seq<INode>, files: seq<File>, name: string, content: seq<Byte>, i: nat)
    requires |files| == |iNodes|
  {
    i < |files| && files[i].File? && files[i].content == content && iNodes[i].fileName == name
  }

  ghost predicate HasFile(iNodes: seq<INode>, files: seq<File>, name: string, content: seq<Byte>)
    requires |files| == |iNodes|
  {
    exists i: nat :: IsFile(iNodes, files, name, content, i)
  }

  ghost predicate InCatalog(node: INode, f: File, cat: Catalog) {
    f.File? ==> node.fileName in cat && cat[node.fileName] == f.content
  }

  /** The catalogue and the index nodes list the same files. */
  ghost predicate Lists(iNodes: seq<INode>, files: seq<File>, cat: Catalog) {
    && |files| == |iNodes|
    && (forall i | 0 <= i < |files| :: InCatalog(iNodes[i], files[i], cat))
    && (forall name | name in cat :: HasFile(iNodes, files, name, cat[name]))
  }

  ghost predicate Agrees(d: Disk, cat: Catalog) {
    exists files :: Inv(d, files) && Lists(d.iNodes, files, cat)
  }

  lemma FoundInCatalog(d: Disk, files: seq<File>, cat: Catalog, name: string)
    requires Inv(d, files) && Lists(d.iNodes, files, cat) && name != ""
    ensures var found := Lookup(d.iNodes, name, 0);
      && (found.Some? <==> name in cat)
      && (found.Some? ==> IsFile(d.iNodes, files, name, cat[name], found.value))
  {
    if name in cat {
      assert HasFile(d.iNodes, files, name, cat[name]);
      var i: nat :| IsFile(d.iNodes, files, name, cat[name], i);
      FileFound(d, files, i);
    } else {
      forall i | 0 <= i < |d.iNodes|
        ensures d.iNodes[i].fileName != name
      {
        NodeFree(d, files, i);
        assert InCatalog(d.iNodes[i], files[i], cat);
      }
      LookupNone(d.iNodes, name);
    }
  }

  /** Reading any name gives what the catalogue has under it. */
  lemma ReadsCatalog(d: Disk, cat: Catalog, name: string)
    requires Agrees(d, cat) && name != ""
    ensures WellFormed(d) && CopyFrom(d, name) == if name in cat then (Done, cat[name]) else (NotFound, [])
  {
    var files :| Inv(d, files) && Lists(d.iNodes, files, cat);
    FoundInCatalog(d, files, cat, name);
    if name in cat {
      FileReads(d, files, Lookup(d.iNodes, name, 0).value);
    }
  }

  lemma ListsAdded(iNodes: seq<INode>, files: seq<File>, cat: Catalog, i: nat, node: INode, f: File)
    requires Lists(iNodes, files, cat) && i < |files| && files[i].NoFile? && f.File? && node.fileName !in cat
    ensures Lists(iNodes[i := node], files[i := f], cat[node.fileName := f.content])
  {
    var iNodes', files', cat' := iNodes[i := node], files[i := f], cat[node.fileName := f.content];
    forall j | 0 <= j < |files'|
      ensures InCatalog(iNodes'[j], files'[j], cat')
    {
      assert InCatalog(iNodes[j], files[j], cat);
    }
    forall name | name in cat'
      ensures HasFile(iNodes', files', name, cat'[name])
    {
      if name == node.fileName {
        assert IsFile(iNodes', files', name, cat'[name], i);
      } else {
        assert HasFile(iNodes, files, name, cat[name]);
        var j: nat :| IsFile(iNodes, files, name, cat[name], j);
        assert IsFile(iNodes', files', name, cat'[name], j);
      }
    }
  }

  lemma ListsRemoved(iNodes: seq<INode>, files: seq<File>, cat: Catalog, i: nat)
    requires Lists(iNodes, files, cat) && NamesApart(iNodes, files) && i < |files| && files[i].File?
    ensures Lists(iNodes[i := NO_I_NODE], files[i := NoFile], cat - {iNodes[i].fileName})
  {
    var iNodes', files', cat' := iNodes[i := NO_I_NODE], files[i := NoFile], cat - {iNodes[i].fileName};
    forall j | 0 <= j < |files'|
      ensures InCatalog(iNodes'[j], files'[j], cat')
    {
      assert InCatalog(iNodes[j], files[j], cat);
    }
    forall name | name in cat'
      ensures HasFile(iNodes', files', name, cat'[name])
    {
      assert HasFile(iNodes, files, name, cat[name]);
      var j: nat :| IsFile(iNodes, files, name, cat[name], j);
      assert IsFile(iNodes', files', name, cat'[name], j);
    }
  }

  lemma CopyAgrees(d: Disk, files: seq<File>, cat: Catalog, name: string, content: seq<Byte>)
    requires Inv(d, files) && Lists(d.iNodes, files, cat) && CanCopy(d, name, content) && Solid(content) && name !in cat
    ensures CopyTo(d, name, content).1 == Done && Agrees(CopyTo(d, name, content).0, cat[name := content])
  {
    var d', files', i := CopyTo(d, name, content).0, Added(d, files, content), FirstFreeINode(d.iNodes, 0).value;
    CopyKeeps(d, files, name, content);
    CopyDone(d, name, content);
    NodeFree(d, files, i);
    ListsAdded(d.iNodes, files, cat, i, NewNode(d, name, |content|), files'[i]);
    assert Inv(d', files') && Lists(d'.iNodes, files', cat[name := content]);
  }

  lemma RemoveAgrees(d: Disk, files: seq<File>, cat: Catalog, i: nat)
    requires Inv(d, files) && Lists(d.iNodes, files, cat) && i < |files| && files[i].File? && SafeToRemove(d, i)
    ensures var (d', outcome) := DeleteFile(d, d.iNodes[i].fileName);
      outcome == Done && Agrees(d', cat - {d.iNodes[i].fileName})
  {
    var d', files' := DeleteFile(d, d.iNodes[i].fileName).0, files[i := NoFile];
    RemoveKeeps(d, files, i);
    RemovedBlocks(d, files, i);
    ListsRemoved(d.iNodes, files, cat, i);
    assert Inv(d', files') && Lists(d'.iNodes, files', cat - {d.iNodes[i].fileName});
  }

  /** A command does to the disk what it does to the catalogue. */
  lemma StepAgrees(d: Disk, cat: Catalog, c: Command)
    requires Agrees(d, cat) && Legal(d, c)
    ensures var (d', outcome) := Apply(d, c); Agrees(d', Listed(cat, c, outcome))
    ensures Apply(d, c).1 in {Done, NotFound, AlreadyExists, NoINode}
    ensures Apply(d, c).1 == AlreadyExists <==> c.CopyToSystem? && c.name in cat
    ensures Apply(d, c).1 == NotFound <==> c.Remove? && c.name !in cat
  {
    var files :| Inv(d, files) && Lists(d.iNodes, files, cat);
    FoundInCatalog(d, files, cat, c.name);
    match c
    case CopyToSystem(name, content) =>
      if CanAdd(d, name) {
        CopyAgrees(d, files, cat, name, content);
      }
    case Remove(name) =>
      if name in cat {
        RemoveAgrees(d, files, cat, Lookup(d.iNodes, name, 0).value);
      }
  }

  ghost predicate LegalRun(d: Disk, cat: Catalog, commands: seq<Command>)
    requires Agrees(d, cat)
    decreases |commands|
  {
    commands == [] || (Legal(d, commands[0])
      && (StepAgrees(d, cat, commands[0]);
          LegalRun(Apply(d, commands[0]).0, Listed(cat, commands[0], Apply(d, commands[0]).1), commands[1..])))
  }

  /** Over every legal run the disk goes on agreeing with the catalogue. */
  ghost function Run(d: Disk, cat: Catalog, commands: seq<Command>): (r: (Disk, Catalog))
    requires Agrees(d, cat) && LegalRun(d, cat, commands)
    ensures Agrees(r.0, r.1)
    decreases |commands|
  {
    if commands == [] then (d, cat)
    else
      StepAgrees(d, cat, commands[0]);
      Run(Apply(d, commands[0]).0, Listed(cat, commands[0], Apply(d, commands[0]).1), commands[1..])
  }

  lemma FreshAgrees(size: nat)
    requires CreateSystem(size).Some?
    ensures Agrees(CreateSystem(size).value, map[])
  {
    LayoutFits(size);
    var d := CreateSystem(size).value;
    var files := seq(|d.iNodes|, i => NoFile);
    assert Inv(d, files) && Lists(d.iNodes, files, map[]);
  }

  /** From a fresh system on, after every legal run, every name reads as what was last copied
      under it and not removed since, byte for byte, or is not found. */
  lemma RunReads(size: nat, commands: seq<Command>, name: string)
    requires CreateSystem(size).Some? && name != ""
    requires Agrees(CreateSystem(size).value, map[]) && LegalRun(CreateSystem(size).value, map[], commands)
    ensures var (d, cat) := Run(CreateSystem(size).value, map[], commands);
      WellFormed(d) && CopyFrom(d, name) == if name in cat then (Done, cat[name]) else (NotFound, [])
  {
    var r := Run(CreateSystem(size).value, map[], commands);
    ReadsCatalog(r.0, r.1, name);
  }
}
