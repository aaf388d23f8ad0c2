/** The hole table of the memory manager: an array of slots threaded into two
    linked lists, the holes in address order and the unused slots. */
module HoleTables {
  import opened HoleSpec
  import Queues

  datatype Slot = Slot(next: int, base: nat, len: nat)

  /** The link that leads to element `i` of a list. */
  function At(list: seq<nat>, i: nat): int {
    if i < |list| then list[i] else Queues.NIL
  }

  /** Element `i` of the list links to element `i + 1`, the last one to nil. */
  predicate LinksOn(slots: seq<Slot>, list: seq<nat>, i: nat) {
    i < |list| && list[i] < |slots| && slots[list[i]].next == At(list, i + 1)
  }

  /** Following `next` from `head` visits exactly `list`. */
  predicate IsList(slots: seq<Slot>, head: int, list: seq<nat>) {
    && head == At(list, 0)
    && (forall i | 0 <= i < |list| :: list[i] < |slots|)
    && (forall i | 0 <= i < |list| :: LinksOn(slots, list, i))
  }

  /** The two lists share no slot. */
  predicate Apart(a: seq<nat>, b: seq<nat>) {
    forall i, j | 0 <= i < |a| && 0 <= j < |b| :: a[i] != b[j]
  }

  function HolesOf(slots: seq<Slot>, list: seq<nat>): (hs: seq<Hole>)
    requires forall i | 0 <= i < |list| :: list[i] < |slots|
    ensures |hs| == |list|
  {
    seq(|list|, i requires 0 <= i < |list| => Hole(slots[list[i]].base, slots[list[i]].len))
  }

  /** Distinct numbers below `n`, `n` of them, are all the numbers below `n`. */
  lemma {:induction false} AllCovered(list: seq<nat>, n: nat, x: nat)
    requires Queues.Distinct(list) && |list| == n && x < n
    requires forall i | 0 <= i < |list| :: list[i] < n
    ensures x in list
    decreases n
  {
    var last := list[n - 1];
    if last != x {
      if x == n - 1 {
        if x !in list {
          AllCovered(list[..n - 1], n - 1, last);
          assert false;
        }
      } else {
        // Rename n-1 to the last element, which is then dropped.
        var shorter := seq(n - 1, i requires 0 <= i < n - 1 => if list[i] == n - 1 then last else list[i]);
        AllCovered(shorter, n - 1, x);
      }
    }
  }

  // ---- Relinking, as updates of the slot array ----

  /** The links after element `i` of `list` has been moved to the front of another list. */
  function Unlinked(slots: seq<Slot>, list: seq<nat>, i: nat, freeHead: int): seq<Slot>
    requires i < |list| && forall j | 0 <= j < |list| :: list[j] < |slots|
  {
    var s := if i == 0 then slots else slots[list[i - 1] := slots[list[i - 1]].(next := slots[list[i]].next)];
    s[list[i] := s[list[i]].(next := freeHead)]
  }

  function Without(list: seq<nat>, i: nat): (r: seq<nat>)
    requires i < |list|
    ensures |r| == |list| - 1
    ensures forall j | 0 <= j < |r| :: r[j] == list[if j < i then j else j + 1]
  {
    list[..i] + list[i + 1..]
  }

  function With(list: seq<nat>, k: nat, x: nat): (r: seq<nat>)
    requires k <= |list|
    ensures |r| == |list| + 1
    ensures forall j | 0 <= j < |r| :: r[j] == if j < k then list[j] else if j == k then x else list[j - 1]
  {
    list[..k] + [x] + list[k..]
  }

  lemma UnlinkedFrom(slots: seq<Slot>, head: int, list: seq<nat>, i: nat, freeHead: int)
    requires IsList(slots, head, list) && Queues.Distinct(list) && i < |list|
    ensures var s := Unlinked(slots, list, i, freeHead);
      && IsList(s, if i == 0 then slots[list[i]].next else head, Without(list, i))
      && HolesOf(s, Without(list, i)) == Remove(HolesOf(slots, list), i)
  {
    var s, rest := Unlinked(slots, list, i, freeHead), Without(list, i);
    assert LinksOn(slots, list, i);
    forall j | 0 <= j < |rest|
      ensures LinksOn(s, rest, j)
    {
      assert LinksOn(slots, list, if j < i then j else j + 1);
    }
  }

  lemma UnlinkedOnto(slots: seq<Slot>, list: seq<nat>, i: nat, freeHead: int, free: seq<nat>)
    requires forall j | 0 <= j < |list| :: list[j] < |slots|
    requires IsList(slots, freeHead, free) && Apart(list, free) && i < |list|
    ensures IsList(Unlinked(slots, list, i, freeHead), list[i], [list[i]] + free)
  {
    var s, free' := Unlinked(slots, list, i, freeHead), [list[i]] + free;
    forall j | 0 <= j < |free'|
      ensures LinksOn(s, free', j)
    {
      if 0 < j { assert LinksOn(slots, free, j - 1); }
    }
  }

  /** The links after a slot from the front of another list, given its contents,
      has been put between elements `k-1` and `k` of `list`. */
  function Linked(slots: seq<Slot>, list: seq<nat>, k: nat, slot: nat, base: nat, len: nat): seq<Slot>
    requires k <= |list| && slot < |slots| && forall j | 0 <= j < |list| :: list[j] < |slots|
  {
    var s := slots[slot := Slot(At(list, k), base, len)];
    if k == 0 then s else s[list[k - 1] := s[list[k - 1]].(next := slot)]
  }

  lemma WithDistinct(list: seq<nat>, k: nat, free: seq<nat>)
    requires Queues.Distinct(list) && Queues.Distinct(free) && Apart(list, free) && k <= |list| && free != []
    ensures Queues.Distinct(With(list, k, free[0])) && Queues.Distinct(free[1..])
      && Apart(With(list, k, free[0]), free[1..])
  {
    var more := With(list, k, free[0]);
    forall i, j | 0 <= i < j < |more|
      ensures more[i] != more[j]
    {
      assert i != k ==> more[i] == list[if i < k then i else i - 1];
      assert j != k ==> more[j] == list[if j < k then j else j - 1];
    }
    forall i, j | 0 <= i < |more| && 0 <= j < |free[1..]|
      ensures more[i] != free[1..][j]
    {
      assert free[1..][j] == free[j + 1] != free[0];
      assert i != k ==> more[i] == list[if i < k then i else i - 1];
    }
  }

  /** What `Linked` leaves in the slots of the list. */
  lemma LinkedSlots(slots: seq<Slot>, list: seq<nat>, k: nat, slot: nat, base: nat, len: nat, j: nat)
    requires forall i | 0 <= i < |list| :: list[i] < |slots|
    requires Queues.Distinct(list) && k <= |list| && slot < |slots| && slot !in list && j < |list|
    ensures var s := Linked(slots, list, k, slot, base, len);
      && s[list[j]] == slots[list[j]].(next := if j + 1 == k then slot else slots[list[j]].next)
      && s[slot] == Slot(At(list, k), base, len)
  {
    assert list[j] in list;
    assert 0 < k ==> list[k - 1] in list;
  }

  lemma LinkedInto(slots: seq<Slot>, head: int, list: seq<nat>, k: nat, slot: nat, base: nat, len: nat)
    requires IsList(slots, head, list) && Queues.Distinct(list) && k <= |list| && slot < |slots| && slot !in list
    ensures IsList(Linked(slots, list, k, slot, base, len), if k == 0 then slot else head, With(list, k, slot))
  {
    var s, more := Linked(slots, list, k, slot, base, len), With(list, k, slot);
    forall j | 0 <= j < |more|
      ensures LinksOn(s, more, j)
    {
      if j == k {
        assert 0 < k ==> list[k - 1] in list;
      } else {
        var j' := if j < k then j else j - 1;
        LinkedSlots(slots, list, k, slot, base, len, j');
        assert LinksOn(slots, list, j');
      }
    }
  }

  lemma LinkedContents(slots: seq<Slot>, list: seq<nat>, k: nat, slot: nat, base: nat, len: nat)
    requires forall j | 0 <= j < |list| :: list[j] < |slots|
    requires Queues.Distinct(list) && k <= |list| && slot < |slots| && slot !in list
    ensures HolesOf(Linked(slots, list, k, slot, base, len), With(list, k, slot))
         == HolesOf(slots, list)[..k] + [Hole(base, len)] + HolesOf(slots, list)[k..]
  {
    var s, more := Linked(slots, list, k, slot, base, len), With(list, k, slot);
    var hs := HolesOf(slots, list);
    var hs' := hs[..k] + [Hole(base, len)] + hs[k..];
    forall j | 0 <= j < |more|
      ensures HolesOf(s, more)[j] == hs'[j]
    {
      if j == k {
        assert 0 < k ==> list[k - 1] in list;
      } else {
        var j' := if j < k then j else j - 1;
        LinkedSlots(slots, list, k, slot, base, len, j');
        assert hs'[j] == hs[j'];
      }
    }
  }

  lemma LinkedOff(slots: seq<Slot>, list: seq<nat>, k: nat, free: seq<nat>, base: nat, len: nat)
    requires forall j | 0 <= j < |list| :: list[j] < |slots|
    requires free != [] && IsList(slots, free[0], free) && Queues.Distinct(free) && Apart(list, free) && k <= |list|
    ensures IsList(Linked(slots, list, k, free[0], base, len), slots[free[0]].next, free[1..])
  {
    var s := Linked(slots, list, k, free[0], base, len);
    assert LinksOn(slots, free, 0);
    forall j | 0 <= j < |free[1..]|
      ensures LinksOn(s, free[1..], j)
    {
      assert LinksOn(slots, free, j + 1);
    }
  }

  /** Putting the first free slot into the hole list where `base` belongs. */
  lemma Inserted(slots: seq<Slot>, head: int, list: seq<nat>, free: seq<nat>, base: nat, len: nat)
    requires IsList(slots, head, list) && free != [] && IsList(slots, free[0], free)
    requires Queues.Distinct(list) && Queues.Distinct(free) && Apart(list, free)
    ensures var hs := HolesOf(slots, list); var k := Position(hs, base);
      var s, more := Linked(slots, list, k, free[0], base, len), With(list, k, free[0]);
      && IsList(s, if k == 0 then free[0] else head, more)
      && IsList(s, slots[free[0]].next, free[1..])
      && Queues.Distinct(more) && Queues.Distinct(free[1..]) && Apart(more, free[1..])
      && HolesOf(s, more) == Insert(hs, base, len)
  {
    var k := Position(HolesOf(slots, list), base);
    LinkedInto(slots, head, list, k, free[0], base, len);
    LinkedContents(slots, list, k, free[0], base, len);
    LinkedOff(slots, list, k, free, base, len);
    WithDistinct(list, k, free);
  }

  /** Changing what a slot holds, but not where it leads, keeps the lists. */
  lemma RefilledLists(slots: seq<Slot>, head: int, list: seq<nat>, x: nat, base: nat, len: nat)
    requires IsList(slots, head, list) && x < |slots|
    ensures IsList(slots[x := Slot(slots[x].next, base, len)], head, list)
  {
    var s := slots[x := Slot(slots[x].next, base, len)];
    forall j | 0 <= j < |list|
      ensures LinksOn(s, list, j)
    {
      assert LinksOn(slots, list, j);
    }
  }

  class HoleTable {
    const hole: array<Slot>
    var holeHead: int
    var freeSlots: int
    ghost var used: seq<nat>
    ghost var unused: seq<nat>

    ghost predicate Valid()
      reads this, hole
    {
      && IsList(hole[..], holeHead, used)
      && IsList(hole[..], freeSlots, unused)
      && Queues.Distinct(used) && Queues.Distinct(unused) && Apart(used, unused)
      && |used| + |unused| == hole.Length
    }

    /** The list of holes as a value. */
    ghost function Contents(): (hs: seq<Hole>)
      requires Valid()
      reads this, hole
      ensures |hs| == |used|
    {
      HolesOf(hole[..], used)
    }

    /** Every slot is on exactly one of the two lists. */
    lemma SlotsPartitioned(x: nat)
      requires Valid() && x < hole.Length
      ensures x in used <==> x !in unused
    {
      AllCovered(used + unused, hole.Length, x);
    }

    /** All slots on the free list, no hole. */
    constructor (nrHoles: nat)
      requires 0 < nrHoles
      ensures Valid() && fresh(hole)
      ensures hole.Length == nrHoles && Contents() == []
    {
      hole := new Slot[nrHoles](_ => Slot(Queues.NIL, 0, 0));
      holeHead := Queues.NIL;
      freeSlots := 0;
      used := [];
      unused := seq(nrHoles, i => i);
      new;
      var hp := 0;
      while hp < nrHoles
        invariant 0 <= hp <= nrHoles
        invariant forall i | 0 <= i < hp :: hole[i].next == i + 1
        modifies hole
      {
        hole[hp] := hole[hp].(next := hp + 1);
        hp := hp + 1;
      }
      hole[nrHoles - 1] := hole[nrHoles - 1].(next := Queues.NIL);
    }

    method DelSlot(prev: int, hp: nat, ghost i: nat)
      requires Valid() && i < |used| && used[i] == hp
      requires 0 < i ==> prev == used[i - 1]
      modifies this, hole
      ensures Valid()
      ensures used == Without(old(used), i)
      ensures Contents() == Remove(old(Contents()), i)
    {
      UnlinkedFrom(hole[..], holeHead, used, i, freeSlots);
      UnlinkedOnto(hole[..], used, i, freeSlots, unused);
      if hp == holeHead {
        holeHead := hole[hp].next;
      } else {
        hole[prev] := hole[prev].(next := hole[hp].next);
      }
      hole[hp] := hole[hp].(next := freeSlots);
      assert hole[..] == Unlinked(old(hole[..]), used, i, freeSlots);
      freeSlots := hp;
      used := Without(used, i);
      unused := [hp] + unused;
    }

    /** Let `hp` absorb its successor if the two touch. */
    method TryAbsorb(hp: nat, ghost i: nat) returns (next: int, absorbed: bool)
      requires Valid() && i < |used| && used[i] == hp
      modifies this, hole
      ensures Valid()
      ensures next == At(old(used), i + 1) && absorbed == Touches(old(Contents()), i)
      ensures used == if absorbed then Without(old(used), i + 1) else old(used)
      ensures Contents() == MergeOnce(old(Contents()), i)
    {
      assert LinksOn(hole[..], used, i);
      next := hole[hp].next;
      absorbed := next != Queues.NIL && hole[hp].base + hole[hp].len == hole[next].base;
      if absorbed {
        AbsorbNext(hp, next, i);
      }
    }

    /** Try to melt `hp` and its two successors together. */
    method Merge(hp: nat, ghost i: nat)
      requires Valid() && i < |used| && used[i] == hp
      modifies this, hole
      ensures Valid()
      ensures Contents() == HoleSpec.Merge(old(Contents()), i)
    {
      var next, absorbed := TryAbsorb(hp, i);
      if next == Queues.NIL {
        return;
      }
      if absorbed {
        next, absorbed := TryAbsorb(hp, i);
      } else {
        next, absorbed := TryAbsorb(next, i + 1);
      }
    }

    /** Overwrite base and length of a hole, leaving its link alone. */
    method Refill(hp: nat, base: nat, len: nat, ghost i: nat)
      requires Valid() && i < |used| && used[i] == hp
      modifies hole
      ensures Valid()
      ensures hole[hp].base == base && hole[hp].len == len
      ensures Contents() == old(Contents())[i := Hole(base, len)]
    {
      RefilledLists(hole[..], holeHead, used, hp, base, len);
      RefilledLists(hole[..], freeSlots, unused, hp, base, len);
      hole[hp] := hole[hp].(base := base, len := len);
      assert hole[..] == old(hole[..])[hp := Slot(old(hole[hp].next), base, len)];
    }

    /** First one gets second one's memory. */
    method AbsorbNext(hp: nat, next: nat, ghost i: nat)
      requires Valid() && i + 1 < |used| && used[i] == hp && used[i + 1] == next
      modifies this, hole
      ensures Valid()
      ensures used == Without(old(used), i + 1)
      ensures Contents() == Absorb(old(Contents()), i)
    {
      Refill(hp, hole[hp].base, hole[hp].len + hole[next].len, i);
      DelSlot(hp, next, i + 1);
    }

    /** The last hole that starts below `base`, if the first one does. */
    method Predecessor(base: nat) returns (prev: nat)
      requires IsList(hole[..], holeHead, used) && used != [] && hole[holeHead].base < base
      ensures 0 < Position(HolesOf(hole[..], used), base)
      ensures prev == used[Position(HolesOf(hole[..], used), base) - 1]
    {
      ghost var hs := HolesOf(hole[..], used);
      prev := holeHead;
      var hp := hole[holeHead].next;
      ghost var k := 1;
      assert LinksOn(hole[..], used, 0);
      while hp != Queues.NIL && hole[hp].base < base
        invariant 0 < k <= |used| && hp == At(used, k) && prev == used[k - 1]
        invariant forall i | 0 <= i < k :: hs[i].base < base
        decreases |used| - k
      {
        prev := hp;
        assert LinksOn(hole[..], used, k);
        hp := hole[hp].next;
        k := k + 1;
      }
      assert k < |used| ==> hs[k].base == hole[hp].base;
    }

    /** Put a filled free slot into the hole list; merging starts at `first`. */
    method LinkSlot(base: nat, clicks: nat) returns (first: nat, ghost i: nat)
      requires Valid() && freeSlots != Queues.NIL
      modifies this, hole
      ensures Valid()
      ensures Contents() == Insert(old(Contents()), base, clicks)
      ensures i < |used| && used[i] == first
      ensures var k := Position(old(Contents()), base); i == if k == 0 then 0 else k - 1
    {
      ghost var k := Position(Contents(), base);
      Inserted(hole[..], holeHead, used, unused, base, clicks);
      first := ThreadSlot(base, clicks, k);
      used, unused := With(used, k, unused[0]), unused[1..];
      i := if k == 0 then 0 else k - 1;
    }

    /** Take the first free slot off its list and thread it into the other one at position `k`. */
    method ThreadSlot(base: nat, clicks: nat, ghost k: nat) returns (first: nat)
      requires Valid() && freeSlots != Queues.NIL && k == Position(Contents(), base)
      modifies this`holeHead, this`freeSlots, hole
      ensures hole[..] == Linked(old(hole[..]), used, k, unused[0], base, clicks)
      ensures holeHead == if k == 0 then unused[0] else old(holeHead)
      ensures freeSlots == old(hole[unused[0]].next)
      ensures first == if k == 0 then unused[0] else used[k - 1]
    {
      RefilledLists(hole[..], holeHead, used, freeSlots, base, clicks);
      var slot, hp := freeSlots, holeHead;
      hole[slot] := hole[slot].(base := base, len := clicks);
      freeSlots := hole[slot].next;
      if hp == Queues.NIL || base <= hole[hp].base {
        hole[slot] := hole[slot].(next := hp);
        holeHead := slot;
        first := slot;
        assert hole[..] == Linked(old(hole[..]), used, k, slot, base, clicks);
      } else {
        assert HolesOf(hole[..], used) == old(Contents());
        var prev := Predecessor(base);
        assert LinksOn(old(hole[..]), used, k - 1);
        hole[slot] := hole[slot].(next := hole[prev].next);
        hole[prev] := hole[prev].(next := slot);
        first := prev;
        assert hole[..] == Linked(old(hole[..]), used, k, slot, base, clicks);
      }
    }

    /** Give a block back; panics, changing nothing, when every slot holds a hole. */
    method FreeMem(base: nat, clicks: nat) returns (panicked: bool)
      requires Valid()
      modifies this, hole
      ensures Valid()
      ensures panicked <==> 0 < clicks && |old(Contents())| == hole.Length
      ensures Contents() == if panicked then old(Contents()) else Release(old(Contents()), base, clicks)
    {
      if clicks == 0 {
        return false;
      }
      if freeSlots == Queues.NIL {
        return true;
      }
      var first, i := LinkSlot(base, clicks);
      Merge(first, i);
      return false;
    }

    /** One pass of first fit over the regular holes. */
    method TakeFirstFit(limit: nat, clicks: nat) returns (found: bool, base: nat)
      requires Valid()
      modifies this, hole
      ensures Valid()
      ensures var hs := old(Contents()); var k := FirstFit(hs, limit, clicks);
        && (found <==> k < |hs|)
        && (found ==> FitsAt(hs, k, clicks) && base == hs[k].base && Contents() == Bite(hs, k, clicks))
        && (!found ==> Contents() == hs)
    {
      ghost var hs := Contents();
      var hp, prev := holeHead, Queues.NIL;
      ghost var k := 0;
      while hp != Queues.NIL && hole[hp].base < limit
        invariant 0 <= k <= |used| && hp == At(used, k)
        invariant 0 < k ==> prev == used[k - 1]
        invariant FirstFit(hs, limit, clicks) == FirstFitFrom(hs, limit, clicks, k)
        decreases |used| - k
      {
        if clicks <= hole[hp].len {
          base := BiteAt(prev, hp, clicks, k);
          return true, base;
        }
        prev := hp;
        assert LinksOn(hole[..], used, k);
        hp := hole[hp].next;
        k := k + 1;
      }
      return false, 0;
    }

    /** Bite a piece off the hole in slot `hp`, deleting it when used up. */
    method BiteAt(prev: int, hp: nat, clicks: nat, ghost i: nat) returns (base: nat)
      requires Valid() && i < |used| && used[i] == hp && clicks <= hole[hp].len
      requires 0 < i ==> prev == used[i - 1]
      modifies this, hole
      ensures Valid()
      ensures base == old(Contents())[i].base
      ensures FitsAt(old(Contents()), i, clicks)
      ensures Contents() == Bite(old(Contents()), i, clicks)
    {
      ghost var hs := Contents();
      assert hs[i] == Hole(hole[hp].base, hole[hp].len);
      BiteInPlace(hs, i, clicks);
      base := hole[hp].base;
      Refill(hp, hole[hp].base + clicks, hole[hp].len - clicks, i);
      ghost var bitten := Contents();
      assert bitten == hs[i := Hole(hs[i].base + clicks, hs[i].len - clicks)];
      if hole[hp].len == 0 {
        DelSlot(prev, hp, i);
        assert Contents() == Remove(bitten, i);
      }
    }

    /** One pass of worst fit; dereferences the head of the list without looking. */
    method TakeWorstFit(limit: nat, clicks: nat) returns (found: bool, base: nat)
      requires Valid() && holeHead != Queues.NIL
      modifies this, hole
      ensures Valid()
      ensures old(Contents()) != []
      ensures var hs := old(Contents()); var k := WorstFit(hs, limit);
        && (found <==> clicks <= hs[k].len)
        && (found ==> base == hs[k].base && Contents() == Bite(hs, k, clicks))
        && (!found ==> Contents() == hs)
    {
      ghost var hs := Contents();
      var biggestPrev, prev := Queues.NIL, Queues.NIL;
      var biggest, hp := holeHead, holeHead;
      ghost var b, k := 0, 0;
      while hp != Queues.NIL && hole[hp].base < limit
        invariant 0 <= k <= |used| && hp == At(used, k)
        invariant 0 < k ==> prev == used[k - 1]
        invariant 0 <= b < |used| && biggest == used[b]
        invariant 0 < b ==> biggestPrev == used[b - 1]
        invariant k == 0 ==> b == 0
        invariant WorstFit(hs, limit) == WorstFitFrom(hs, limit, k, b)
        decreases |used| - k
      {
        if hole[biggest].len < hole[hp].len {
          biggest := hp;
          biggestPrev := prev;
          b := k;
        }
        prev := hp;
        assert LinksOn(hole[..], used, k);
        hp := hole[hp].next;
        k := k + 1;
      }
      if clicks <= hole[biggest].len {
        base := BiteAt(biggestPrev, biggest, clicks, b);
        return true, base;
      }
      return false, 0;
    }

    /** Find room in the swap area. */
    method TakeSwapHole(limit: nat, clicks: nat) returns (found: bool, base: nat)
      requires Valid()
      modifies this, hole
      ensures Valid()
      ensures var hs := old(Contents()); var k := SwapFit(hs, limit, clicks);
        && (found <==> k < |hs|)
        && (found ==> base == hs[k].base && Contents() == Bite(hs, k, clicks))
        && (!found ==> Contents() == hs)
    {
      ghost var hs := Contents();
      var hp, prev := holeHead, Queues.NIL;
      ghost var k := 0;
      while hp != Queues.NIL && !(limit <= hole[hp].base && clicks <= hole[hp].len)
        invariant 0 <= k <= |used| && hp == At(used, k)
        invariant 0 < k ==> prev == used[k - 1]
        invariant forall i | 0 <= i < k :: !(limit <= hs[i].base && clicks <= hs[i].len)
        decreases |used| - k
      {
        prev := hp;
        assert LinksOn(hole[..], used, k);
        hp := hole[hp].next;
        k := k + 1;
      }
      assert k < |hs| ==> hs[k] == Hole(hole[hp].base, hole[hp].len);
      if hp == Queues.NIL {
        return false, 0;
      }
      base := BiteAt(prev, hp, clicks, k);
      return true, base;
    }

    /** The loop of swap_off that takes the swap holes off the list: it restarts
        behind the head after every removal, and follows a nil head link when
        the removed hole was the last one of the list. */
    method RemoveSwapHoles(limit: nat) returns (fault: bool)
      requires Valid()
      modifies this, hole
      ensures Valid() && (Contents(), fault) == DropSwap(old(Contents()), limit, 0)
    {
      var hp, prev := holeHead, Queues.NIL;
      ghost var k := 0;
      while hp != Queues.NIL
        invariant Valid() && 0 <= k <= |used| && hp == At(used, k)
        invariant 0 < k ==> prev == used[k - 1]
        invariant DropSwap(Contents(), limit, k) == DropSwap(old(Contents()), limit, 0)
        decreases |used|, |used| - k
      {
        assert Contents()[k].base == hole[hp].base;
        if limit <= hole[hp].base {
          DelSlot(prev, hp, k);
          hp := holeHead;
          k := 0;
          if hp == Queues.NIL {
            return true;
          }
        }
        assert LinksOn(hole[..], used, k);
        prev, hp, k := hp, hole[hp].next, k + 1;
      }
      return false;
    }
  }

  lemma BiteInPlace(hs: seq<Hole>, i: nat, clicks: nat)
    requires FitsAt(hs, i, clicks)
    ensures var bitten := hs[i := Hole(hs[i].base + clicks, hs[i].len - clicks)];
      Bite(hs, i, clicks) == if hs[i].len == clicks then Remove(bitten, i) else bitten
  {
  }

  predicate FitsAt(hs: seq<Hole>, k: nat, clicks: nat) {
    k < |hs| && clicks <= hs[k].len
  }
}
