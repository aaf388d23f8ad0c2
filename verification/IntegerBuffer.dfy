/** The buffer guarded by semaphores, updated in place one semaphore operation at a time. */
module IntegerBuffers {
  import opened SemaphoreProtocol
  import opened Threads

  class Semaphore {
    var value: nat

    constructor (v: nat)
      ensures value == v
    {
      value := v;
    }

    /** Goes on once the value is positive. */
    method P()
      requires 0 < value
      modifies this
      ensures value == old(value) - 1
    {
      value := value - 1;
    }

    method V()
      modifies this
      ensures value == old(value) + 1
    {
      value := value + 1;
    }
  }

  class IntegerBuffer {
    const body: array<int>
    var inp: nat
    var outp: nat
    const mutex: Semaphore
    const empty: Semaphore
    const full: Semaphore
    // The items that went in and came out so far.
    ghost var produced: seq<int>
    ghost var consumed: seq<int>

    ghost predicate Valid()
      reads this, body, mutex, empty, full
    {
      mutex != empty && mutex != full && empty != full && WellFormed(State())
    }

    ghost function State(): Buffer
      reads this, body, mutex, empty, full
    {
      Buffer(mutex.value, empty.value, full.value, inp, outp, body[..], produced, consumed)
    }

    constructor (size: nat)
      requires 0 < size
      ensures Valid() && fresh(body) && fresh(mutex) && fresh(empty) && fresh(full)
      ensures body.Length == size && IsFresh(State())
    {
      body := new int[size];
      inp, outp := 0, 0;
      mutex := new Semaphore(1);
      empty := new Semaphore(size);
      full := new Semaphore(0);
      produced, consumed := [], [];
    }

    method PutItem(item: int)
      requires Valid()
      modifies this`inp, this`produced, body
      ensures Valid() && State() == Insert(old(State()), item)
    {
      body[inp] := item;
      inp := (inp + 1) % body.Length;
      produced := produced + [item];
    }

    method TakeItem() returns (item: int)
      requires Valid()
      modifies this`outp, this`consumed
      ensures Valid() && State() == Extract(old(State()))
      ensures consumed == old(consumed) + [item]
    {
      item := body[outp];
      outp := (outp + 1) % body.Length;
      consumed := consumed + [item];
    }

    /** What a process in `produce` or `consume` does between two stages. */
    method Advance(x: Side, stage: Stage, item: int) returns (next: Stage)
      requires Valid() && CanMove(State(), x, stage)
      modifies this, body, mutex, empty, full
      ensures Valid() && (State(), next) == Move(old(State()), x, stage, item)
    {
      match stage
      case Claiming =>
        if x == Produce {
          empty.P();
        } else {
          full.P();
        }
        next := Locking;
      case Locking =>
        mutex.P();
        next := Acting;
      case Acting =>
        if x == Produce {
          PutItem(item);
        } else {
          var taken := TakeItem();
        }
        next := Unlocking;
      case Unlocking =>
        mutex.V();
        next := Telling;
      case Telling =>
        if x == Produce {
          full.V();
        } else {
          empty.V();
        }
        next := Claiming;
    }
  }
}
