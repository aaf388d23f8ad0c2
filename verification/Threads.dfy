/** The threads or processes that use the bounded buffers. */
module Threads {

  /** A thread is either putting an item in or taking one out. */
  datatype Side = Produce | Consume {
    function Other(): Side { if this == Produce then Consume else Produce }
  }

  /** A producer and a consumer serve one buffer each; the entrepreneur produces for the
      buffers in turn. */
  datatype Role = Producer(buf: nat) | Consumer(buf: nat) | Entrepreneur

  /** The buffers a role may be at, and what it does there. */
  predicate Serves(role: Role, buf: nat, side: Side) {
    match role
    case Producer(k) => side == Produce && buf == k
    case Consumer(k) => side == Consume && buf == k
    case Entrepreneur => side == Produce
  }

  /** The buffer a thread uses next; only the entrepreneur changes it, after every item. */
  function NextBuffer(role: Role, buf: nat, done: bool, n: nat): (next: nat)
    requires buf < n
    ensures next < n
  {
    if role.Entrepreneur? && done then (buf + 1) % n else buf
  }

  // ---- Where the threads are, as a multiset ----

  /** One thread goes from one place to another. */
  function Moved<T(==)>(at: multiset<T>, from: T, to: T): multiset<T>
    requires from in at
  {
    at - multiset{from} + multiset{to}
  }

  lemma SpotsMoved<T>(spots: seq<T>, t: nat, to: T)
    requires t < |spots|
    ensures spots[t] in multiset(spots) && multiset(spots[t := to]) == Moved(multiset(spots), spots[t], to)
  {
  }

  lemma OneMore<T(!new)>(at: multiset<T>, to: T)
    ensures forall y :: (at + multiset{to})[y] == at[y] + if y == to then 1 else 0
  {
  }

  lemma SomeoneAt<T>(spots: seq<T>, spot: T) returns (t: nat)
    requires 0 < multiset(spots)[spot]
    ensures t < |spots| && spots[t] == spot
  {
    assert spot in spots;
    t :| t < |spots| && spots[t] == spot;
  }
}
