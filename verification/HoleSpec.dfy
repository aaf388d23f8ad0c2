/** The hole list of the memory manager, as a value: what the list of
    `alloc.c` means, independent of the slots it is threaded through. */
module HoleSpec {

  /** A run of `len` free clicks starting at click `base`. */
  datatype Hole = Hole(base: nat, len: nat) {
    function End(): nat { base + len }

    predicate Has(c: nat) { base <= c < base + len }
  }

  /** Sorted by address, no empty hole, and a gap between any two neighbours. */
  predicate Canonical(hs: seq<Hole>) {
    && (forall i | 0 <= i < |hs| :: 0 < hs[i].len)
    && (forall i, j | 0 <= i < j < |hs| :: hs[i].base + hs[i].len < hs[j].base)
  }

  /** Click `c` lies in some hole. */
  ghost predicate Free(hs: seq<Hole>, c: nat) {
    exists i | 0 <= i < |hs| :: hs[i].Has(c)
  }

  /** No click of the block is free already. */
  ghost predicate Disjoint(hs: seq<Hole>, base: nat, len: nat) {
    forall i | 0 <= i < |hs| :: base + len <= hs[i].base || hs[i].base + hs[i].len <= base
  }

  // ---- Freeing: insert in address order, then merge with up to two neighbours ----

  /** The number of leading holes that start below `base`. */
  function Position(hs: seq<Hole>, base: nat): (k: nat)
    ensures k <= |hs|
    ensures forall i | 0 <= i < k :: hs[i].base < base
    ensures k < |hs| ==> base <= hs[k].base
  {
    if hs == [] || base <= hs[0].base then 0 else 1 + Position(hs[1..], base)
  }

  /** Hole `i` and its successor touch. */
  predicate Touches(hs: seq<Hole>, i: nat) {
    i + 1 < |hs| && hs[i].base + hs[i].len == hs[i + 1].base
  }

  /** Hole `i` after absorbing its successor. */
  function Absorb(hs: seq<Hole>, i: nat): seq<Hole>
    requires i + 1 < |hs|
  {
    hs[..i] + [Hole(hs[i].base, hs[i].len + hs[i + 1].len)] + hs[i + 2..]
  }

  function MergeOnce(hs: seq<Hole>, i: nat): seq<Hole> {
    if Touches(hs, i) then Absorb(hs, i) else hs
  }

  /** Try to melt holes `i`, `i+1` and `i+2` together. */
  function Merge(hs: seq<Hole>, i: nat): seq<Hole> {
    if Touches(hs, i) then MergeOnce(Absorb(hs, i), i) else MergeOnce(hs, i + 1)
  }

  function Insert(hs: seq<Hole>, base: nat, len: nat): seq<Hole> {
    var k := Position(hs, base);
    hs[..k] + [Hole(base, len)] + hs[k..]
  }

  /** The list after the block of `len` clicks at `base` has been given back. */
  function Release(hs: seq<Hole>, base: nat, len: nat): seq<Hole> {
    if len == 0 then hs
    else
      var k := Position(hs, base);
      Merge(Insert(hs, base, len), if k == 0 then 0 else k - 1)
  }

  lemma ReleaseSize(hs: seq<Hole>, base: nat, len: nat)
    ensures |Release(hs, base, len)| <= |hs| + 1
  {
  }

  // ---- Allocating: bite a piece off the front of one hole ----

  function Remove(hs: seq<Hole>, i: nat): seq<Hole>
    requires i < |hs|
  {
    hs[..i] + hs[i + 1..]
  }

  function Bite(hs: seq<Hole>, i: nat, clicks: nat): seq<Hole>
    requires i < |hs| && clicks <= hs[i].len
  {
    if hs[i].len == clicks then Remove(hs, i)
    else hs[i := Hole(hs[i].base + clicks, hs[i].len - clicks)]
  }

  /** How many leading holes lie in regular memory, that is, below `limit`. */
  function Regular(hs: seq<Hole>, limit: nat): (k: nat)
    ensures k <= |hs|
    ensures forall i | 0 <= i < k :: hs[i].base < limit
    ensures k < |hs| ==> limit <= hs[k].base
  {
    Position(hs, limit)
  }

  /** The first regular hole that is big enough, or |hs|. */
  function FirstFit(hs: seq<Hole>, limit: nat, clicks: nat): (k: nat)
    ensures k <= |hs|
  {
    FirstFitFrom(hs, limit, clicks, 0)
  }

  function FirstFitFrom(hs: seq<Hole>, limit: nat, clicks: nat, i: nat): (k: nat)
    requires i <= |hs|
    ensures k <= |hs|
    decreases |hs| - i
  {
    if i == |hs| || limit <= hs[i].base then |hs|
    else if clicks <= hs[i].len then i
    else FirstFitFrom(hs, limit, clicks, i + 1)
  }

  /** The scan for the biggest hole; it starts from the head, whatever the head is. */
  function WorstFit(hs: seq<Hole>, limit: nat): (k: nat)
    requires hs != []
    ensures k < |hs|
  {
    WorstFitFrom(hs, limit, 0, 0)
  }

  function WorstFitFrom(hs: seq<Hole>, limit: nat, i: nat, biggest: nat): (k: nat)
    requires i <= |hs| && biggest < |hs|
    ensures k < |hs|
    decreases |hs| - i
  {
    if i == |hs| || limit <= hs[i].base then biggest
    else WorstFitFrom(hs, limit, i + 1, if hs[biggest].len < hs[i].len then i else biggest)
  }

  /** The first swap hole, at or above `limit`, that is big enough, or |hs|. */
  function SwapFit(hs: seq<Hole>, limit: nat, clicks: nat): (k: nat)
    ensures k <= |hs|
    ensures k < |hs| ==> limit <= hs[k].base && clicks <= hs[k].len
    ensures forall i | 0 <= i < k :: !(limit <= hs[i].base && clicks <= hs[i].len)
  {
    if hs == [] || (limit <= hs[0].base && clicks <= hs[0].len) then 0
    else 1 + SwapFit(hs[1..], limit, clicks)
  }

  // ---- What freeing and allocating mean ----

  /** Sorted and disjoint, with touching allowed only at the listed positions. */
  predicate Ordered(hs: seq<Hole>, touching: set<int>) {
    && (forall i | 0 <= i < |hs| :: 0 < hs[i].len)
    && (forall i, j | 0 <= i < j < |hs| :: hs[i].base + hs[i].len <= hs[j].base)
    && (forall i | 0 <= i && i + 1 < |hs| && i !in touching :: !Touches(hs, i))
  }

  lemma OrderedCanonical(hs: seq<Hole>)
    requires Ordered(hs, {})
    ensures Canonical(hs)
  {
    forall i, j | 0 <= i < j < |hs|
      ensures hs[i].base + hs[i].len < hs[j].base
    {
      assert !Touches(hs, i);
      assert hs[i].base + hs[i].len < hs[i + 1].base;
    }
  }

  lemma InsertOrdered(hs: seq<Hole>, base: nat, len: nat)
    requires Canonical(hs) && Disjoint(hs, base, len) && 0 < len
    ensures Ordered(Insert(hs, base, len), {Position(hs, base) - 1, Position(hs, base)})
  {
    InsertAtOrdered(hs, Position(hs, base), Hole(base, len));
  }

  /** Two elements of a list into which `b` has been put at `k`. */
  lemma InsertedPair(hs: seq<Hole>, k: nat, b: Hole, i: nat, j: nat)
    requires Canonical(hs) && Disjoint(hs, b.base, b.len) && 0 < b.len && k <= |hs|
    requires 0 < k ==> hs[k - 1].base < b.base
    requires k < |hs| ==> b.base <= hs[k].base
    requires i < j <= |hs|
    ensures var ins := hs[..k] + [b] + hs[k..];
      && 0 < ins[i].len && 0 < ins[j].len
      && ins[i].base + ins[i].len <= ins[j].base
      && (i != k && j != k ==> ins[i].base + ins[i].len < ins[j].base)
  {
    var ins := hs[..k] + [b] + hs[k..];
    if i == k {
      assert ins[j] == hs[j - 1];
      assert k < j - 1 ==> hs[k].base + hs[k].len < hs[j - 1].base;
    } else if j == k {
      assert ins[i] == hs[i];
      assert i < k - 1 ==> hs[i].base + hs[i].len < hs[k - 1].base;
    } else {
      var i', j' := if i < k then i else i - 1, if j < k then j else j - 1;
      assert ins[i] == hs[i'] && ins[j] == hs[j'];
    }
  }

  lemma InsertAtOrdered(hs: seq<Hole>, k: nat, b: Hole)
    requires Canonical(hs) && Disjoint(hs, b.base, b.len) && 0 < b.len && k <= |hs|
    requires 0 < k ==> hs[k - 1].base < b.base
    requires k < |hs| ==> b.base <= hs[k].base
    ensures Ordered(hs[..k] + [b] + hs[k..], {k - 1, k})
  {
    var ins := hs[..k] + [b] + hs[k..];
    forall i | 0 <= i < |ins|
      ensures 0 < ins[i].len
    {
    }
    forall i, j | 0 <= i < j < |ins|
      ensures ins[i].base + ins[i].len <= ins[j].base
      ensures i != k && j != k ==> ins[i].base + ins[i].len < ins[j].base
    {
      InsertedPair(hs, k, b, i, j);
    }
  }

  lemma MergeOnceOrdered(hs: seq<Hole>, i: nat)
    requires Ordered(hs, {i})
    ensures Canonical(MergeOnce(hs, i))
  {
    var m := MergeOnce(hs, i);
    if Touches(hs, i) {
      forall j | 0 <= j && j + 1 < |m|
        ensures !Touches(m, j)
      {
        assert !Touches(hs, if j < i then j else j + 1);
      }
    }
    OrderedCanonical(m);
  }

  lemma MergeOrdered(hs: seq<Hole>, i: nat)
    requires Ordered(hs, {i, i + 1})
    ensures Canonical(Merge(hs, i))
  {
    if Touches(hs, i) {
      var m := Absorb(hs, i);
      forall j | 0 <= j && j + 1 < |m| && j != i
        ensures !Touches(m, j)
      {
        assert !Touches(hs, if j < i then j else j + 1);
      }
      MergeOnceOrdered(m, i);
    } else {
      MergeOnceOrdered(hs, i + 1);
    }
  }

  lemma AbsorbFree(hs: seq<Hole>, i: nat, c: nat)
    requires Touches(hs, i)
    ensures Free(Absorb(hs, i), c) <==> Free(hs, c)
  {
    var ab := Absorb(hs, i);
    if j :| 0 <= j < |hs| && hs[j].Has(c) {
      var j' := if j <= i then j else j - 1;
      assert ab[j'].Has(c);
    }
    if j :| 0 <= j < |ab| && ab[j].Has(c) {
      if j == i {
        assert hs[i].Has(c) || hs[i + 1].Has(c);
      } else {
        var j' := if j < i then j else j + 1;
        assert hs[j'].Has(c);
      }
    }
  }

  lemma InsertFree(hs: seq<Hole>, base: nat, len: nat, c: nat)
    ensures Free(Insert(hs, base, len), c) <==> Free(hs, c) || base <= c < base + len
  {
    var k, ins := Position(hs, base), Insert(hs, base, len);
    if j :| 0 <= j < |hs| && hs[j].Has(c) {
      var j' := if j < k then j else j + 1;
      assert ins[j'].Has(c);
    }
    if base <= c < base + len {
      assert ins[k].Has(c);
    }
    if j :| 0 <= j < |ins| && ins[j].Has(c) {
      if j != k {
        var j' := if j < k then j else j - 1;
        assert hs[j'].Has(c);
      }
    }
  }

  lemma MergeFree(hs: seq<Hole>, i: nat, c: nat)
    ensures Free(Merge(hs, i), c) <==> Free(hs, c)
  {
    if Touches(hs, i) {
      AbsorbFree(hs, i, c);
      if Touches(Absorb(hs, i), i) {
        AbsorbFree(Absorb(hs, i), i, c);
      }
    } else if Touches(hs, i + 1) {
      AbsorbFree(hs, i + 1, c);
    }
  }

  /** Giving back a block that is not free keeps the list canonical and
      makes exactly the clicks of the block free. */
  lemma ReleaseMeaning(hs: seq<Hole>, base: nat, len: nat)
    requires Canonical(hs) && (0 < len ==> Disjoint(hs, base, len))
    ensures Canonical(Release(hs, base, len))
    ensures forall c: nat :: Free(Release(hs, base, len), c) <==> Free(hs, c) || base <= c < base + len
  {
    if len != 0 {
      InsertOrdered(hs, base, len);
      var k, ins := Position(hs, base), Insert(hs, base, len);
      var m := if k == 0 then 0 else k - 1;
      MergeOrdered(ins, m);
      forall c: nat
        ensures Free(Merge(ins, m), c) <==> Free(hs, c) || base <= c < base + len
      {
        MergeFree(ins, m, c);
        InsertFree(hs, base, len, c);
      }
    }
  }

  lemma BiteFree(hs: seq<Hole>, i: nat, clicks: nat, c: nat)
    requires Canonical(hs) && i < |hs| && clicks <= hs[i].len
    ensures Free(Bite(hs, i, clicks), c) <==> Free(hs, c) && !(hs[i].base <= c < hs[i].base + clicks)
  {
    var b := Bite(hs, i, clicks);
    var gone := hs[i].len == clicks;
    if j :| 0 <= j < |hs| && hs[j].Has(c) && !(hs[i].base <= c < hs[i].base + clicks) {
      assert b[if gone && i < j then j - 1 else j].Has(c);
    }
    if j :| 0 <= j < |b| && b[j].Has(c) {
      var j' := if gone && i <= j then j + 1 else j;
      assert hs[j'].Has(c);
      if j' < i {
        assert hs[j'].base + hs[j'].len < hs[i].base;
      } else if i < j' {
        assert hs[i].base + hs[i].len < hs[j'].base;
      }
    }
  }

  lemma BiteCanonical(hs: seq<Hole>, i: nat, clicks: nat)
    requires Canonical(hs) && i < |hs| && clicks <= hs[i].len
    ensures Canonical(Bite(hs, i, clicks))
  {
  }

  lemma BiteDisjoint(hs: seq<Hole>, i: nat, clicks: nat)
    requires Canonical(hs) && i < |hs| && clicks <= hs[i].len
    ensures Disjoint(Bite(hs, i, clicks), hs[i].base, clicks)
  {
  }

  /** Biting keeps the list canonical and takes exactly the bitten clicks. */
  lemma BiteMeaning(hs: seq<Hole>, i: nat, clicks: nat)
    requires Canonical(hs) && i < |hs| && clicks <= hs[i].len
    ensures Canonical(Bite(hs, i, clicks))
    ensures Disjoint(Bite(hs, i, clicks), hs[i].base, clicks)
    ensures forall c: nat :: Free(Bite(hs, i, clicks), c) <==> Free(hs, c) && !(hs[i].base <= c < hs[i].base + clicks)
  {
    BiteCanonical(hs, i, clicks);
    BiteDisjoint(hs, i, clicks);
    forall c: nat
      ensures Free(Bite(hs, i, clicks), c) <==> Free(hs, c) && !(hs[i].base <= c < hs[i].base + clicks)
    {
      BiteFree(hs, i, clicks, c);
    }
  }

  /** A canonical list is determined by the clicks that are free. */
  lemma {:induction false} CanonicalUnique(a: seq<Hole>, b: seq<Hole>)
    requires Canonical(a) && Canonical(b)
    requires forall c: nat :: Free(a, c) <==> Free(b, c)
    ensures a == b
  {
    if a == [] || b == [] {
      if a != [] { assert a[0].Has(a[0].base); assert Free(a, a[0].base); }
      if b != [] { assert b[0].Has(b[0].base); assert Free(b, b[0].base); }
    } else {
      SameHead(a, b);
      SameHead(b, a);
      forall c: nat
        ensures Free(a[1..], c) <==> Free(b[1..], c)
      {
        TailFree(a, c);
        TailFree(b, c);
      }
      CanonicalUnique(a[1..], b[1..]);
    }
  }

  lemma TailFree(hs: seq<Hole>, c: nat)
    requires Canonical(hs) && hs != []
    ensures Free(hs[1..], c) <==> Free(hs, c) && !hs[0].Has(c)
  {
    if j :| 0 <= j < |hs| && hs[j].Has(c) && !hs[0].Has(c) {
      assert hs[1..][j - 1].Has(c);
    }
    if j :| 0 <= j < |hs[1..]| && hs[1..][j].Has(c) {
      assert hs[j + 1].Has(c);
    }
  }

  lemma SameHead(a: seq<Hole>, b: seq<Hole>)
    requires Canonical(a) && Canonical(b) && a != [] && b != []
    requires forall c: nat :: Free(a, c) <==> Free(b, c)
    ensures b[0].base <= a[0].base && b[0].base + b[0].len <= a[0].base + a[0].len
  {
    assert a[0].Has(a[0].base);
    assert Free(b, a[0].base);
    assert b[0].Has(b[0].base);
    assert Free(a, b[0].base);
    if a[0].base + a[0].len < b[0].base + b[0].len {
      var c := a[0].base + a[0].len;
      assert b[0].Has(c);
      assert Free(b, c);
    }
  }

  // ---- Consequences ----

  /** Freeing what was just allocated restores the very same list. */
  lemma AllocThenFree(hs: seq<Hole>, i: nat, clicks: nat)
    requires Canonical(hs) && i < |hs| && clicks <= hs[i].len
    ensures Release(Bite(hs, i, clicks), hs[i].base, clicks) == hs
  {
    BiteMeaning(hs, i, clicks);
    var b := Bite(hs, i, clicks);
    ReleaseMeaning(b, hs[i].base, clicks);
    forall c: nat
      ensures Free(Release(b, hs[i].base, clicks), c) <==> Free(hs, c)
    {
      if hs[i].base <= c < hs[i].base + clicks {
        assert hs[i].Has(c);
      }
    }
    CanonicalUnique(Release(b, hs[i].base, clicks), hs);
  }

  /** Freeing a sequence of blocks, one after the other. */
  function ReleaseAll(hs: seq<Hole>, blocks: seq<Hole>): seq<Hole>
    decreases |blocks|
  {
    if blocks == [] then hs
    else ReleaseAll(Release(hs, blocks[0].base, blocks[0].len), blocks[1..])
  }

  /** The blocks share no click with one another or with a hole. */
  ghost predicate AllDisjoint(hs: seq<Hole>, blocks: seq<Hole>) {
    && (forall k | 0 <= k < |blocks| :: Disjoint(hs, blocks[k].base, blocks[k].len))
    && (forall k, l | 0 <= k < l < |blocks| ::
          blocks[k].base + blocks[k].len <= blocks[l].base || blocks[l].base + blocks[l].len <= blocks[k].base)
  }

  /** `Disjoint` is about clicks. */
  lemma DisjointClicks(hs: seq<Hole>, base: nat, len: nat)
    requires Canonical(hs)
    ensures 0 < len ==> (Disjoint(hs, base, len) <==> forall c: nat | base <= c < base + len :: !Free(hs, c))
  {
    if 0 < len && forall c: nat | base <= c < base + len :: !Free(hs, c) {
      forall i | 0 <= i < |hs|
        ensures base + len <= hs[i].base || hs[i].base + hs[i].len <= base
      {
        var c := if base <= hs[i].base then hs[i].base else base;
        if base <= c < base + len && hs[i].Has(c) {
          assert Free(hs, c);
        }
      }
    }
  }

  lemma ReleaseKeepsDisjoint(hs: seq<Hole>, b: Hole, other: Hole)
    requires Canonical(hs) && Disjoint(hs, b.base, b.len) && Disjoint(hs, other.base, other.len) && 0 < other.len
    requires b.base + b.len <= other.base || other.base + other.len <= b.base
    ensures Disjoint(Release(hs, b.base, b.len), other.base, other.len)
  {
    ReleaseMeaning(hs, b.base, b.len);
    DisjointClicks(hs, other.base, other.len);
    DisjointClicks(Release(hs, b.base, b.len), other.base, other.len);
  }

  lemma FreeCons(b: Hole, rest: seq<Hole>, c: nat)
    ensures Free([b] + rest, c) <==> b.Has(c) || Free(rest, c)
  {
    var all := [b] + rest;
    if b.Has(c) {
      assert all[0].Has(c);
    }
    if j :| 0 <= j < |rest| && rest[j].Has(c) {
      assert all[j + 1].Has(c);
    }
    if j :| 0 <= j < |all| && all[j].Has(c) {
      assert 0 < j ==> rest[j - 1].Has(c);
    }
  }

  /** The clicks free afterwards are those of the holes and of the blocks. */
  lemma {:induction false} ReleaseAllMeaning(hs: seq<Hole>, blocks: seq<Hole>)
    requires Canonical(hs) && AllDisjoint(hs, blocks)
    requires forall k | 0 <= k < |blocks| :: 0 < blocks[k].len
    ensures Canonical(ReleaseAll(hs, blocks))
    ensures forall c: nat :: Free(ReleaseAll(hs, blocks), c) <==> Free(hs, c) || Free(blocks, c)
    decreases |blocks|
  {
    if blocks != [] {
      var b, rest := blocks[0], blocks[1..];
      var hs' := Release(hs, b.base, b.len);
      ReleaseMeaning(hs, b.base, b.len);
      forall k | 0 <= k < |rest|
        ensures Disjoint(hs', rest[k].base, rest[k].len)
      {
        ReleaseKeepsDisjoint(hs, b, blocks[k + 1]);
      }
      ReleaseAllMeaning(hs', rest);
      forall c: nat
        ensures Free(ReleaseAll(hs, blocks), c) <==> Free(hs, c) || Free(blocks, c)
      {
        assert blocks == [b] + rest;
        FreeCons(b, rest, c);
      }
    }
  }

  /** Two indices with the same element mean a multiplicity of at least two, and back. */
  lemma Repeated(s: seq<Hole>, i: nat, j: nat)
    requires i < j < |s| && s[i] == s[j]
    ensures 2 <= multiset(s)[s[i]]
  {
    assert s == s[..j] + s[j..];
    assert s[i] in s[..j] && s[i] in s[j..];
    assert multiset(s) == multiset(s[..j]) + multiset(s[j..]);
  }

  lemma {:induction false} RepeatedAt(s: seq<Hole>, b: Hole) returns (i: nat, j: nat)
    requires 2 <= multiset(s)[b]
    ensures i < j < |s| && s[i] == s[j] == b
    decreases |s|
  {
    assert s == [s[0]] + s[1..];
    if s[0] == b {
      assert b in s[1..] by { assert 1 <= multiset(s[1..])[b]; }
      i := 0;
      j :| 1 <= j < |s| && s[j] == b;
    } else {
      i, j := RepeatedAt(s[1..], b);
      i, j := i + 1, j + 1;
    }
  }

  lemma PermutedDisjoint(hs: seq<Hole>, blocks: seq<Hole>, permuted: seq<Hole>)
    requires AllDisjoint(hs, blocks)
    requires forall k | 0 <= k < |blocks| :: 0 < blocks[k].len
    requires multiset(blocks) == multiset(permuted)
    ensures AllDisjoint(hs, permuted)
    ensures forall k | 0 <= k < |permuted| :: 0 < permuted[k].len
    ensures forall b :: b in blocks <==> b in permuted
  {
    forall b
      ensures b in blocks <==> b in permuted
    {
      assert b in blocks <==> b in multiset(blocks);
      assert b in permuted <==> b in multiset(permuted);
    }
    forall k | 0 <= k < |permuted|
      ensures permuted[k] in blocks
    {
      assert permuted[k] in permuted;
    }
    forall k, l | 0 <= k < l < |permuted|
      ensures permuted[k] != permuted[l]
    {
      if permuted[k] == permuted[l] {
        Repeated(permuted, k, l);
        var i, j := RepeatedAt(blocks, permuted[k]);
        assert false;
      }
    }
  }

  lemma SameMembersFree(a: seq<Hole>, b: seq<Hole>, c: nat)
    requires forall x :: x in a ==> x in b
    ensures Free(a, c) ==> Free(b, c)
  {
    if i :| 0 <= i < |a| && a[i].Has(c) {
      assert a[i] in a && a[i] in b;
      var j :| 0 <= j < |b| && b[j] == a[i];
      assert b[j].Has(c);
    }
  }

  /** The order in which disjoint blocks are freed does not matter. */
  lemma FreeingOrderIrrelevant(hs: seq<Hole>, blocks: seq<Hole>, permuted: seq<Hole>)
    requires Canonical(hs) && AllDisjoint(hs, blocks)
    requires forall k | 0 <= k < |blocks| :: 0 < blocks[k].len
    requires multiset(blocks) == multiset(permuted)
    ensures ReleaseAll(hs, blocks) == ReleaseAll(hs, permuted)
  {
    PermutedDisjoint(hs, blocks, permuted);
    ReleaseAllMeaning(hs, blocks);
    ReleaseAllMeaning(hs, permuted);
    forall c: nat
      ensures Free(blocks, c) <==> Free(permuted, c)
    {
      SameMembersFree(blocks, permuted, c);
      SameMembersFree(permuted, blocks, c);
    }
    CanonicalUnique(ReleaseAll(hs, blocks), ReleaseAll(hs, permuted));
  }

  /** First fit takes the lowest sufficient regular hole, and none only if there is none. */
  lemma FirstFitMeaning(hs: seq<Hole>, limit: nat, clicks: nat)
    requires Canonical(hs)
    ensures var k := FirstFit(hs, limit, clicks);
      && (k < |hs| ==> hs[k].base < limit && clicks <= hs[k].len)
      && (forall i | 0 <= i < k && hs[i].base < limit :: hs[i].len < clicks)
  {
    FirstFitScan(hs, limit, clicks, 0);
  }

  lemma {:induction false} FirstFitScan(hs: seq<Hole>, limit: nat, clicks: nat, i: nat)
    requires Canonical(hs) && i <= |hs|
    requires forall j | 0 <= j < i :: hs[j].base < limit && hs[j].len < clicks
    ensures var k := FirstFitFrom(hs, limit, clicks, i);
      && (k < |hs| ==> hs[k].base < limit && clicks <= hs[k].len)
      && (forall j | 0 <= j < k && hs[j].base < limit :: hs[j].len < clicks)
    decreases |hs| - i
  {
    if i < |hs| && hs[i].base < limit && hs[i].len < clicks {
      FirstFitScan(hs, limit, clicks, i + 1);
    }
  }

  /** Worst fit takes the lowest of the largest regular holes, provided the head hole is regular. */
  lemma WorstFitMeaning(hs: seq<Hole>, limit: nat)
    requires Canonical(hs) && hs != [] && hs[0].base < limit
    ensures var k := WorstFit(hs, limit);
      && hs[k].base < limit
      && (forall i | 0 <= i < |hs| && hs[i].base < limit :: hs[i].len <= hs[k].len)
      && (forall i | 0 <= i < k :: hs[i].len < hs[k].len)
  {
    WorstFitScan(hs, limit, 0, 0);
  }

  lemma {:induction false} WorstFitScan(hs: seq<Hole>, limit: nat, i: nat, biggest: nat)
    requires Canonical(hs) && i <= |hs| && biggest < |hs|
    requires hs[biggest].base < limit && (biggest < i || i == biggest == 0)
    requires forall j | 0 <= j < i :: hs[j].len <= hs[biggest].len
    requires forall j | 0 <= j < biggest :: hs[j].len < hs[biggest].len
    ensures var k := WorstFitFrom(hs, limit, i, biggest);
      && hs[k].base < limit
      && (forall j | 0 <= j < |hs| && hs[j].base < limit :: hs[j].len <= hs[k].len)
      && (forall j | 0 <= j < k :: hs[j].len < hs[k].len)
    decreases |hs| - i
  {
    if i < |hs| && hs[i].base < limit {
      WorstFitScan(hs, limit, i + 1, if hs[biggest].len < hs[i].len then i else biggest);
    } else if i < |hs| {
      assert forall j | i < j < |hs| :: hs[i].base < hs[j].base;
    }
  }

  /** With a regular head hole the two policies can serve the same requests. */
  lemma PoliciesAgree(hs: seq<Hole>, limit: nat, clicks: nat)
    requires Canonical(hs) && hs != [] && hs[0].base < limit
    ensures FirstFit(hs, limit, clicks) < |hs| <==> clicks <= hs[WorstFit(hs, limit)].len
    ensures FirstFit(hs, limit, clicks) < |hs|
      <==> exists i | 0 <= i < |hs| :: hs[i].base < limit && clicks <= hs[i].len
  {
    FirstFitMeaning(hs, limit, clicks);
    WorstFitMeaning(hs, limit);
  }

  /** If the head hole is a swap hole, the scan of worst fit stops there at once. */
  lemma WorstFitIrregularHead(hs: seq<Hole>, limit: nat)
    requires hs != []
    ensures limit <= hs[0].base ==> WorstFit(hs, limit) == 0
    ensures Canonical(hs) ==> (limit <= hs[WorstFit(hs, limit)].base <==> limit <= hs[0].base)
  {
    if Canonical(hs) && hs[0].base < limit {
      WorstFitMeaning(hs, limit);
    }
  }

  // ---- Taking the swap holes off the list ----

  /** The loop of swap_off from element `k` on, on any list: behind a removal it goes on with
      the element after the head, and a removal that empties the list leaves it no head. */
  function DropSwap(hs: seq<Hole>, limit: nat, k: nat): (r: (seq<Hole>, bool))
    decreases |hs|, |hs| - k
  {
    if |hs| <= k then (hs, false)
    else if hs[k].base < limit then DropSwap(hs, limit, k + 1)
    else if |hs| == 1 then ([], true)
    else DropSwap(Remove(hs, k), limit, 1)
  }

  /** Behind the first `r` holes, the head and the regular ones behind it, nothing is left. */
  lemma {:induction false} DropSwapFrom(hs: seq<Hole>, limit: nat, r: nat, k: nat)
    requires 0 < k <= r <= |hs| && forall j | 1 <= j < |hs| :: hs[j].base < limit <==> j < r
    ensures DropSwap(hs, limit, k) == (hs[..r], false)
    decreases |hs|, |hs| - k
  {
    if k == |hs| {
      assert hs[..k] == hs;
    } else if hs[k].base < limit {
      DropSwapFrom(hs, limit, r, k + 1);
    } else {
      DropSwapFrom(Remove(hs, k), limit, r, 1);
      assert Remove(hs, k)[..r] == hs[..r];
    }
  }

  /** On a list in address order the regular holes stay, or the second hole if there are none;
      the loop is left without a head when the only hole was a swap hole. */
  lemma DropSwapMeaning(hs: seq<Hole>, limit: nat)
    requires Canonical(hs)
    ensures var r := Regular(hs, limit);
      DropSwap(hs, limit, 0)
      == (if 0 < r then hs[..r] else if |hs| <= 1 then [] else [hs[1]], r == 0 && |hs| == 1)
  {
    var r := Regular(hs, limit);
    assert forall j | 0 <= j < |hs| :: hs[j].base < limit <==> j < r;
    if 0 < r {
      DropSwapFrom(hs, limit, r, 1);
    } else if 1 < |hs| {
      DropSwapFrom(Remove(hs, 0), limit, 1, 1);
      assert Remove(hs, 0)[..1] == [hs[1]];
    }
  }
}
