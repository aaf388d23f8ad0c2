/** The ring both bounded buffers keep their items in, against the queue it stands for. */
module Ring {

  /** The place of item number `k`: places are used in turn, starting over after `n` of them. */
  function Place(k: nat, n: nat): (p: nat)
    requires 0 < n
    ensures p < n
  {
    if k == 0 then 0
    else
      var before := Place(k - 1, n);
      if before + 1 == n then 0 else before + 1
  }

  /** The index update of the source, `(i + 1) % size`, goes to the next place. */
  lemma NextPlace(k: nat, n: nat)
    requires 0 < n
    ensures (Place(k, n) + 1) % n == Place(k + 1, n)
  {
    SmallMod(Place(k, n), n);
  }

  lemma SmallMod(i: nat, n: nat)
    requires i < n
    ensures (i + 1) % n == if i + 1 == n then 0 else i + 1
  {
  }

  /** Items less than a whole turn apart have different places. */
  lemma {:induction false} PlacesApart(x: nat, y: nat, n: nat)
    requires x <= y < x + n
    ensures Place(y, n) == if Place(x, n) + (y - x) < n then Place(x, n) + (y - x) else Place(x, n) + (y - x) - n
    decreases y - x
  {
    if x < y {
      PlacesApart(x, y - 1, n);
    }
  }

  /** `body` holds the items written and not yet read, each where its number puts it,
      and what has been read is the beginning of what has been written. */
  ghost predicate Fifo(body: seq<int>, inp: nat, outp: nat, produced: seq<int>, consumed: seq<int>) {
    && 0 < |body|
    && consumed <= produced && |produced| - |consumed| <= |body|
    && inp == Place(|produced|, |body|) && outp == Place(|consumed|, |body|)
    && forall k | |consumed| <= k < |produced| :: body[Place(k, |body|)] == produced[k]
  }

  lemma EmptyRing(body: seq<int>)
    requires 0 < |body|
    ensures Fifo(body, 0, 0, [], [])
  {
  }

  /** Writing at `inp`, when a place is free, appends to the queue and spoils no unread item. */
  lemma Written(body: seq<int>, inp: nat, outp: nat, produced: seq<int>, consumed: seq<int>, item: int)
    requires Fifo(body, inp, outp, produced, consumed) && |produced| - |consumed| < |body|
    ensures Fifo(body[inp := item], (inp + 1) % |body|, outp, produced + [item], consumed)
  {
    NextPlace(|produced|, |body|);
    forall k | |consumed| <= k < |produced|
      ensures Place(k, |body|) != inp
    {
      PlacesApart(k, |produced|, |body|);
    }
  }

  /** Reading at `outp`, when an item is there, takes the oldest one; its place may be overwritten. */
  lemma Read(body: seq<int>, inp: nat, outp: nat, produced: seq<int>, consumed: seq<int>, left: int)
    requires Fifo(body, inp, outp, produced, consumed) && |consumed| < |produced|
    ensures body[outp] == produced[|consumed|]
    ensures Fifo(body[outp := left], inp, (outp + 1) % |body|, produced, consumed + [body[outp]])
  {
    NextPlace(|consumed|, |body|);
    forall k | |consumed| + 1 <= k < |produced|
      ensures Place(k, |body|) != outp
    {
      PlacesApart(|consumed|, k, |body|);
    }
  }
}
