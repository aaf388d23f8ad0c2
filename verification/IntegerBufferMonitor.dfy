/** The monitor object, updated in place one semaphore operation at a time. */
module IntegerBufferMonitors {
  import opened MonitorProtocol
  import opened Threads

  class IntegerBufferMonitor {
    const body: array<int>
    var counter: int
    var inp: nat
    var outp: nat
    var s: nat
    var full: Condition
    var empty: Condition
    // The items that went in and came out so far.
    ghost var produced: seq<int>
    ghost var consumed: seq<int>

    ghost predicate Valid()
      reads this, body
    {
      WellFormed(State())
    }

    ghost function State(): Buffer
      reads this, body
    {
      Buffer(s, full, empty, counter, inp, outp, body[..], produced, consumed)
    }

    constructor (size: nat)
      requires 0 < size
      ensures Valid() && fresh(body) && body.Length == size && IsFresh(State())
      ensures forall i | 0 <= i < size :: body[i] == -1
    {
      body := new int[size](_ => -1);
      counter, inp, outp := 0, 0, 0;
      s, full, empty := 1, Condition(0, 0), Condition(0, 0);
      produced, consumed := [], [];
    }

    // ---- Monitor: enter, leave, wait and signal, up to the next semaphore operation ----

    /** `s.p()`, once it does not block. */
    method Enter()
      requires 0 < s
      modifies this`s
      ensures s == old(s) - 1
    {
      s := s - 1;
    }

    /** `s.v()`. */
    method Leave()
      modifies this`s
      ensures s == old(s) + 1
    {
      s := s + 1;
    }

    function Mine(x: Side): Condition
      reads this
    {
      if x == Produce then full else empty
    }

    method SetMine(x: Side, c: Condition)
      modifies this`full, this`empty
      ensures full == (if x == Produce then c else old(full)) && empty == if x == Consume then c else old(empty)
    {
      if x == Produce {
        full := c;
      } else {
        empty := c;
      }
    }

    /** The beginning of `wait`: count the thread. */
    method CountWaiter(x: Side)
      modifies this`full, this`empty
      ensures State() == old(State()).With(x, Condition(old(Mine(x)).w, old(Mine(x)).waitingCount + 1))
    {
      SetMine(x, Mine(x).(waitingCount := Mine(x).waitingCount + 1));
    }

    /** The end of `wait`: `w.p()`, once it does not block. */
    method Resume(x: Side)
      requires 0 < Mine(x).w
      modifies this`full, this`empty
      ensures State() == old(State()).With(x, Condition(old(Mine(x)).w - 1, old(Mine(x)).waitingCount))
    {
      SetMine(x, Mine(x).(w := Mine(x).w - 1));
    }

    /** The test of `signal`: uncount a waiting thread, if there is one. */
    method UncountWaiter(x: Side) returns (waiting: bool)
      modifies this`full, this`empty
      ensures waiting == (0 < old(Mine(x)).waitingCount)
      ensures State() ==
        if waiting then old(State()).With(x, Condition(old(Mine(x)).w, old(Mine(x)).waitingCount - 1))
        else old(State())
    {
      waiting := 0 < Mine(x).waitingCount;
      if waiting {
        SetMine(x, Mine(x).(waitingCount := Mine(x).waitingCount - 1));
      }
    }

    /** `w.v()`. */
    method WakeOne(x: Side)
      modifies this`full, this`empty
      ensures State() == old(State()).With(x, Condition(old(Mine(x)).w + 1, old(Mine(x)).waitingCount))
    {
      SetMine(x, Mine(x).(w := Mine(x).w + 1));
    }

    // ---- The ring ----

    method PutItem(item: int)
      requires Valid()
      modifies this`counter, this`inp, this`produced, body
      ensures Valid() && State() == Insert(old(State()), item)
    {
      body[inp] := item;
      inp := (inp + 1) % body.Length;
      counter := counter + 1;
      produced := produced + [item];
    }

    method TakeItem() returns (item: int)
      requires Valid()
      modifies this`counter, this`outp, this`consumed, body
      ensures Valid() && State() == Extract(old(State()))
      ensures consumed == old(consumed) + [item]
    {
      item := body[outp];
      body[outp] := -1;
      outp := (outp + 1) % body.Length;
      counter := counter - 1;
      consumed := consumed + [item];
    }

    // ---- produce and consume, stage by stage ----

    /** What a thread in `produce` or `consume` does between two stages. */
    method Advance(x: Side, stage: Stage, item: int) returns (next: Stage)
      requires Valid() && CanMove(State(), x, stage)
      modifies this, body
      ensures Valid() && (State(), next) == Move(old(State()), x, stage, item)
    {
      match stage
      case Entering =>
        Enter();
        next := Checking;
      case Checking =>
        var mustWait := if x == Produce then counter == body.Length else counter == 0;
        if mustWait {
          CountWaiter(x);
          next := Leaving;
        } else {
          next := Acting;
        }
      case Leaving =>
        Leave();
        next := Blocked;
      case Blocked =>
        Resume(x);
        next := Acting;
      case Acting =>
        if x == Produce {
          PutItem(item);
        } else {
          var taken := TakeItem();
        }
        next := Signalling;
      case Signalling =>
        var waiting := UncountWaiter(x.Other());
        next := if waiting then Waking else Exiting;
      case Waking =>
        WakeOne(x.Other());
        next := Reentering;
      case Reentering =>
        Enter();
        next := Exiting;
      case Exiting =>
        Leave();
        next := Entering;
    }
  }
}
