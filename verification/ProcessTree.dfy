/** Who has the most children or descendants among the processes of the memory manager. */
module ProcessTree {
  import opened Options
  import opened Sets

  /** A slot of the process table: in use or not, the slot of its parent, its process id. */
  datatype Slot = Slot(inUse: bool, parent: int, pid: int)

  type Table = seq<Slot>

  predicate IsChild(t: Table, i: nat, p: nat) {
    i < |t| && i != p && t[i].inUse && t[i].parent == p
  }

  /** At most `k` links past the first lead from slot `i` up to slot `p`, through slots in use. */
  predicate Reaches(t: Table, i: nat, p: nat, k: nat)
    requires i < |t|
    decreases k
  {
    && t[i].inUse
    && (t[i].parent == p || (0 < k && 0 <= t[i].parent < |t| && Reaches(t, t[i].parent, p, k - 1)))
  }

  ghost predicate IsDescendant(t: Table, i: nat, p: nat) {
    i < |t| && i != p && exists k: nat :: Reaches(t, i, p, k)
  }

  ghost function Children(t: Table, p: nat): set<nat> {
    set i: nat | i < |t| && IsChild(t, i, p)
  }

  ghost function Descendants(t: Table, p: nat): set<nat> {
    set i: nat | i < |t| && IsDescendant(t, i, p)
  }

  // ---- The tree ----

  lemma ChildOfDescendant(t: Table, i: nat, j: nat, p: nat)
    requires IsChild(t, i, j) && i != p && (j == p || IsDescendant(t, j, p))
    ensures IsDescendant(t, i, p)
  {
    if j == p {
      assert Reaches(t, i, p, 0);
    } else {
      var k: nat :| Reaches(t, j, p, k);
      assert Reaches(t, i, p, k + 1);
    }
  }

  /** A set that contains `p` and, with each slot, its children, contains all descendants. */
  lemma {:induction false} ClosedUnderChildren(t: Table, v: set<nat>, i: nat, p: nat, k: nat)
    requires p in v && forall j, c: nat :: j in v && IsChild(t, c, j) ==> c in v
    requires i < |t| && Reaches(t, i, p, k)
    ensures i in v
    decreases k
  {
    var j := t[i].parent;
    if j != p {
      ClosedUnderChildren(t, v, j, p, k - 1);
    }
    assert i == j || IsChild(t, i, j);
  }

  lemma {:induction false} LongerChain(t: Table, i: nat, j: nat, p: nat, k: nat, m: nat)
    requires i < |t| && j < |t| && Reaches(t, i, j, k) && Reaches(t, j, p, m)
    ensures Reaches(t, i, p, k + m + 1)
    decreases k
  {
    if t[i].parent != j {
      LongerChain(t, t[i].parent, j, p, k - 1, m);
    } else {
      Further(t, j, p, m, k + m);
    }
  }

  lemma {:induction false} Further(t: Table, i: nat, p: nat, k: nat, m: nat)
    requires i < |t| && Reaches(t, i, p, k) && k <= m
    ensures Reaches(t, i, p, m)
    decreases k
  {
    if t[i].parent != p {
      Further(t, t[i].parent, p, k - 1, m - 1);
    }
  }

  /** The descendants of a descendant are descendants. */
  lemma DescendantsNest(t: Table, j: nat, p: nat)
    requires IsDescendant(t, j, p)
    ensures Descendants(t, j) - {p} <= Descendants(t, p)
    ensures Children(t, p) <= Descendants(t, p)
  {
    var m: nat :| Reaches(t, j, p, m);
    forall i | i in Descendants(t, j) - {p}
      ensures i in Descendants(t, p)
    {
      var k: nat :| Reaches(t, i, j, k);
      LongerChain(t, i, j, p, k, m);
    }
    forall i | i in Children(t, p)
      ensures i in Descendants(t, p)
    {
      ChildOfDescendant(t, i, p, p);
    }
  }

  /** Who sits on a cycle of parents is counted with everyone else on it, but not with himself. */
  lemma CycleCountsOthers(t: Table, i: nat, j: nat)
    requires IsDescendant(t, i, j) && IsDescendant(t, j, i)
    ensures Descendants(t, i) - {j} == Descendants(t, j) - {i}
    ensures |Descendants(t, i)| == |Descendants(t, j)|
  {
    DescendantsNest(t, i, j);
    DescendantsNest(t, j, i);
    assert i !in Descendants(t, i) && j !in Descendants(t, j);
    assert Descendants(t, i) == (Descendants(t, i) - {j}) + {j};
    assert Descendants(t, j) == (Descendants(t, j) - {i}) + {i};
  }

  // ---- Counting ----

  method CountChildren(mproc: array<Slot>, p: nat) returns (children: nat)
    ensures children == |Children(mproc[..], p)|
  {
    ghost var t, seen: set<nat> := mproc[..], {};
    children := 0;
    for i := 0 to mproc.Length
      invariant children == |seen|
      invariant forall j: nat :: j in seen <==> j < i && IsChild(t, j, p)
    {
      if mproc[i].inUse && p != i && mproc[i].parent == p {
        children := children + 1;
        seen := seen + {i};
      }
    }
    assert seen == Children(t, p);
  }

  /** Where the search stands: `v` has been visited, `open` is still on the stack. */
  ghost predicate Searching(t: Table, p: nat, v: set<nat>, open: seq<nat>) {
    && p in v && v <= Range(0, |t|)
    && (forall i | i in v :: i == p || IsDescendant(t, i, p))
    && (forall x | x in open :: x in v)
    && (forall j, c: nat :: j in v && IsChild(t, c, j) ==> c in v || j in open)
  }

  /** The children of the slot in hand, up to `i`, have been visited. */
  ghost predicate Expanding(t: Table, p: nat, v: set<nat>, open: seq<nat>, j: nat, i: nat) {
    && Searching(t, p, v, open + [j]) && j in v
    && (forall c: nat :: IsChild(t, c, j) && c < i ==> c in v)
  }

  lemma Expanded(t: Table, p: nat, v: set<nat>, open: seq<nat>, j: nat)
    requires Expanding(t, p, v, open, j, |t|)
    ensures Searching(t, p, v, open)
  {
  }

  lemma ChildPushed(t: Table, p: nat, v: set<nat>, open: seq<nat>, j: nat, i: nat)
    requires Expanding(t, p, v, open, j, i) && IsChild(t, i, j) && i !in v
    ensures Expanding(t, p, v + {i}, open + [i], j, i + 1)
  {
    ChildOfDescendant(t, i, j, p);
    forall k, c: nat | k in v + {i} && IsChild(t, c, k)
      ensures c in v + {i} || k in open + [i] + [j]
    {
      assert k in open + [j] ==> k in open + [i] + [j];
    }
  }

  lemma NoneToPush(t: Table, p: nat, v: set<nat>, open: seq<nat>, j: nat, i: nat)
    requires Expanding(t, p, v, open, j, i) && (!IsChild(t, i, j) || i in v)
    ensures Expanding(t, p, v, open, j, i + 1)
  {
  }

  lemma Searched(t: Table, p: nat, v: set<nat>)
    requires Searching(t, p, v, [])
    ensures v - {p} == Descendants(t, p)
  {
    forall i | i in Descendants(t, p)
      ensures i in v
    {
      var k: nat :| Reaches(t, i, p, k);
      ClosedUnderChildren(t, v, i, p, k);
    }
  }

  predicate Marks(visited: seq<bool>, v: set<nat>) {
    forall i | 0 <= i < |visited| :: visited[i] <==> i in v
  }

  lemma MarkedToo(visited: seq<bool>, v: set<nat>, i: nat)
    requires Marks(visited, v) && i < |visited|
    ensures Marks(visited[i := true], v + {i})
  {
  }

  /** The counters of the search: every slot visited but the first has been counted, and the
      stack holds those not yet taken off it. */
  predicate Counted(n: nat, v: set<nat>, pointer: int, descendants: nat) {
    |v| == descendants + 1 && -1 <= pointer <= descendants < n
  }

  lemma OneMore(n: nat, v: set<nat>, pointer: int, descendants: nat, i: nat)
    requires Counted(n, v, pointer, descendants) && v <= Range(0, n) && i < n && i !in v
    ensures Counted(n, v + {i}, pointer + 1, descendants + 1)
  {
    SubsetSize(v + {i}, Range(0, n));
  }

  /** The search over parent links with an explicit stack: exact on every table, cyclic or not,
      and the stack never outgrows the table. */
  method CountDescendants(mproc: array<Slot>, p: nat) returns (descendants: nat)
    requires p < mproc.Length
    ensures descendants == |Descendants(mproc[..], p)|
  {
    ghost var v: set<nat> := {p};
    var stack := new nat[mproc.Length];
    var visited := new bool[mproc.Length](_ => false);
    var pointer := 0;
    stack[0] := p;
    visited[p] := true;
    descendants := 0;
    assert stack[..1] == [p];
    while 0 <= pointer
      invariant Counted(mproc.Length, v, pointer, descendants) && Marks(visited[..], v)
      invariant Searching(mproc[..], p, v, stack[..pointer + 1])
      decreases mproc.Length - (descendants - pointer)
    {
      var current := stack[pointer];
      assert stack[..pointer + 1] == stack[..pointer] + [current];
      pointer, descendants, v := PushChildren(mproc, p, current, stack, visited, pointer - 1, descendants, v);
    }
    Searched(mproc[..], p, v);
  }

  /** The slot goes onto the stack and is marked, so that it goes there only once. */
  method Push(stack: array<nat>, visited: array<bool>, pointer: int, i: nat) returns (pointer': int)
    requires -1 <= pointer < stack.Length - 1 && i < visited.Length
    modifies stack, visited
    ensures pointer' == pointer + 1 && stack[..pointer' + 1] == old(stack[..pointer + 1]) + [i]
    ensures visited[..] == old(visited[..])[i := true]
  {
    pointer' := pointer + 1;
    stack[pointer'] := i;
    visited[i] := true;
  }

  /** The part of the search that looks for the children of one slot. */
  method PushChildren(mproc: array<Slot>, p: nat, current: nat, stack: array<nat>, visited: array<bool>,
                      pointer0: int, descendants0: nat, ghost v0: set<nat>)
    returns (pointer: int, descendants: nat, ghost v: set<nat>)
    requires stack.Length == visited.Length == mproc.Length
    requires Counted(mproc.Length, v0, pointer0, descendants0) && pointer0 < descendants0 && Marks(visited[..], v0)
    requires Expanding(mproc[..], p, v0, stack[..pointer0 + 1], current, 0)
    modifies stack, visited
    ensures Counted(mproc.Length, v, pointer, descendants) && Marks(visited[..], v)
    ensures descendants - pointer == descendants0 - pointer0
    ensures Searching(mproc[..], p, v, stack[..pointer + 1])
  {
    ghost var t := mproc[..];
    pointer, descendants, v := pointer0, descendants0, v0;
    for i := 0 to mproc.Length
      invariant Counted(mproc.Length, v, pointer, descendants) && Marks(visited[..], v)
      invariant pointer < descendants && descendants - pointer == descendants0 - pointer0
      invariant Expanding(t, p, v, stack[..pointer + 1], current, i)
    {
      if mproc[i].inUse && mproc[i].parent == current && !visited[i] {
        OneMore(mproc.Length, v, pointer, descendants, i);
        ghost var open := stack[..pointer + 1];
        ChildPushed(t, p, v, open, current, i);
        MarkedToo(visited[..], v, i);
        descendants := descendants + 1;
        pointer := Push(stack, visited, pointer, i);
        v := v + {i};
      } else {
        NoneToPush(t, p, v, stack[..pointer + 1], current, i);
      }
    }
    Expanded(t, p, v, stack[..pointer + 1], current);
  }

  // ---- The system calls ----

  datatype Kin = OfChildren | OfDescendants

  ghost function Count(t: Table, kin: Kin, i: nat): nat {
    if kin.OfChildren? then |Children(t, i)| else |Descendants(t, i)|
  }

  /** The processes compared: those in use with an identifier other than 0 and the excluded one. */
  predicate Asked(t: Table, i: nat, exclude: Option<int>) {
    i < |t| && t[i].inUse && t[i].pid != 0 && exclude != Some(t[i].pid)
  }

  ghost predicate Behind(t: Table, kin: Kin, exclude: Option<int>, j: nat, i: nat) {
    Asked(t, j, exclude) ==> if j < i then Count(t, kin, j) < Count(t, kin, i) else Count(t, kin, j) <= Count(t, kin, i)
  }

  /** `best` is the first of those with the most relatives among the slots below `n`, if any is asked for. */
  ghost predicate Leads(t: Table, kin: Kin, exclude: Option<int>, n: nat, best: Option<nat>) {
    match best
    case None => forall j: nat | j < n :: !Asked(t, j, exclude)
    case Some(i) => i < n && Asked(t, i, exclude) && forall j: nat | j < n :: Behind(t, kin, exclude, j, i)
  }

  ghost predicate Reported(t: Table, kin: Kin, best: Option<nat>, amount: int, who: int) {
    match best
    case None => amount == -1 && who == -1
    case Some(i) => i < |t| && amount == Count(t, kin, i) && who == t[i].pid
  }

  lemma NotAsked(t: Table, kin: Kin, exclude: Option<int>, n: nat, best: Option<nat>)
    requires Leads(t, kin, exclude, n, best) && !Asked(t, n, exclude)
    ensures Leads(t, kin, exclude, n + 1, best)
  {
  }

  lemma Overtaken(t: Table, kin: Kin, exclude: Option<int>, n: nat, best: Option<nat>, amount: int, who: int)
    requires Leads(t, kin, exclude, n, best) && Reported(t, kin, best, amount, who) && Asked(t, n, exclude)
    ensures amount < Count(t, kin, n) ==> Leads(t, kin, exclude, n + 1, Some(n))
    ensures amount >= Count(t, kin, n) ==> Leads(t, kin, exclude, n + 1, best)
  {
    forall j: nat | j < n && best.Some?
      ensures Behind(t, kin, exclude, j, best.value)
    {
    }
    if amount < Count(t, kin, n) {
      forall j: nat | j < n + 1
        ensures Behind(t, kin, exclude, j, n)
      {
        if j < n && best.Some? {
          assert Behind(t, kin, exclude, j, best.value);
        }
      }
    }
  }

  /** What the search is to answer: amount and process of the leader, or -1 and -1. */
  ghost predicate Answers(t: Table, kin: Kin, exclude: Option<int>, amount: int, who: int) {
    exists best: Option<nat> :: Leads(t, kin, exclude, |t|, best) && Reported(t, kin, best, amount, who)
  }

  method MostChildren(mproc: array<Slot>) returns (children: int, who: int)
    ensures Answers(mproc[..], OfChildren, None, children, who)
  {
    ghost var t, best: Option<nat> := mproc[..], None;
    children, who := -1, -1;
    for i := 0 to mproc.Length
      invariant Leads(t, OfChildren, None, i, best) && Reported(t, OfChildren, best, children, who)
    {
      if mproc[i].inUse && mproc[i].pid != 0 {
        Overtaken(t, OfChildren, None, i, best, children, who);
        var count := CountChildren(mproc, i);
        if children < count {
          children, who, best := count, mproc[i].pid, Some(i);
        }
      } else {
        NotAsked(t, OfChildren, None, i, best);
      }
    }
  }

  method MostDescendants(mproc: array<Slot>, exclude: int) returns (descendants: int, who: int)
    ensures Answers(mproc[..], OfDescendants, Some(exclude), descendants, who)
  {
    ghost var t, best: Option<nat> := mproc[..], None;
    descendants, who := -1, -1;
    for i := 0 to mproc.Length
      invariant Leads(t, OfDescendants, Some(exclude), i, best) && Reported(t, OfDescendants, best, descendants, who)
    {
      if mproc[i].inUse && mproc[i].pid != exclude && mproc[i].pid != 0 {
        Overtaken(t, OfDescendants, Some(exclude), i, best, descendants, who);
        var count := CountDescendants(mproc, i);
        if descendants < count {
          descendants, who, best := count, mproc[i].pid, Some(i);
        }
      } else {
        NotAsked(t, OfDescendants, Some(exclude), i, best);
      }
    }
  }

  /** If all slots in use hang below `root`, it has everyone else as a descendant, and nobody
      has more. */
  lemma RootHasMost(t: Table, root: nat, j: nat)
    requires root < |t| && forall i: nat | i < |t| && t[i].inUse && i != root :: IsDescendant(t, i, root)
    ensures Descendants(t, root) == set i: nat | i < |t| && t[i].inUse && i != root
    ensures IsDescendant(t, j, root) && !IsDescendant(t, root, j) ==> |Descendants(t, j)| < |Descendants(t, root)|
  {
    if IsDescendant(t, j, root) && !IsDescendant(t, root, j) {
      DescendantsNest(t, j, root);
      assert Descendants(t, j) <= Descendants(t, root) - {j};
      SubsetSize(Descendants(t, j), Descendants(t, root) - {j});
    }
  }
}
