/** The bounded buffer guarded by a monitor, as a state machine: any number of threads
    on any number of buffers, one semaphore operation at a time. */
module MonitorProtocol {
  import opened Ring
  import opened Threads

  /** Where a thread is in `produce` or `consume`; between two stages it executes one
      semaphore operation or one piece of code inside the monitor. */
  datatype Stage =
    | Entering      // before s.p() in enter
    | Checking      // inside, before the test for full or empty
    | Leaving       // inside, counted as waiting, before s.v() in wait
    | Blocked       // outside, before w.p() in wait
    | Acting        // inside, before the ring is touched
    | Signalling    // inside, before the test in signal
    | Waking        // inside, one waiter uncounted, before w.v() in signal
    | Reentering    // outside, before s.p() in signal
    | Exiting       // inside, before s.v() in leave

  datatype Spot = Spot(buf: nat, side: Side, stage: Stage)

  datatype Condition = Condition(w: nat, waitingCount: nat)

  /** One monitor: its mutex, its two conditions, the ring, and what went through it. */
  datatype Buffer = Buffer(
    s: nat, full: Condition, empty: Condition,
    counter: int, inp: nat, outp: nat, body: seq<int>,
    produced: seq<int>, consumed: seq<int>)
  {
    /** The condition a thread of this side waits on. */
    function Mine(x: Side): Condition { if x == Produce then full else empty }

    function With(x: Side, c: Condition): Buffer {
      if x == Produce then this.(full := c) else this.(empty := c)
    }

    /** How often this side can act without waiting. */
    function Room(x: Side): int { if x == Produce then |body| - counter else counter }
  }

  predicate WellFormed(b: Buffer) {
    b.inp < |b.body| && b.outp < |b.body|
  }

  /** Only p on a semaphore at zero makes a thread wait. */
  predicate CanMove(b: Buffer, x: Side, stage: Stage) {
    match stage
    case Entering => 0 < b.s
    case Reentering => 0 < b.s
    case Blocked => 0 < b.Mine(x).w
    case _ => true
  }

  /** The buffer and the stage after a thread of side `x` has moved on. Leaving the
      monitor ends the call, so the stage is `Entering` again. */
  function Move(b: Buffer, x: Side, stage: Stage, item: int): (r: (Buffer, Stage))
    requires WellFormed(b) && CanMove(b, x, stage)
    ensures WellFormed(r.0) && |r.0.body| == |b.body|
  {
    match stage
    case Entering => (b.(s := b.s - 1), Checking)
    case Checking =>
      if b.Room(x) == 0 then (b.With(x, Condition(b.Mine(x).w, b.Mine(x).waitingCount + 1)), Leaving)
      else (b, Acting)
    case Leaving => (b.(s := b.s + 1), Blocked)
    case Blocked => (b.With(x, Condition(b.Mine(x).w - 1, b.Mine(x).waitingCount)), Acting)
    case Acting => (if x == Produce then Insert(b, item) else Extract(b), Signalling)
    case Signalling =>
      var theirs := b.Mine(x.Other());
      if 0 < theirs.waitingCount then (b.With(x.Other(), Condition(theirs.w, theirs.waitingCount - 1)), Waking)
      else (b, Exiting)
    case Waking =>
      var theirs := b.Mine(x.Other());
      (b.With(x.Other(), Condition(theirs.w + 1, theirs.waitingCount)), Reentering)
    case Reentering => (b.(s := b.s - 1), Exiting)
    case Exiting => (b.(s := b.s + 1), Entering)
  }

  function Insert(b: Buffer, item: int): (b': Buffer)
    requires WellFormed(b)
    ensures WellFormed(b') && |b'.body| == |b.body|
  {
    b.(body := b.body[b.inp := item], inp := (b.inp + 1) % |b.body|, counter := b.counter + 1,
       produced := b.produced + [item])
  }

  function Extract(b: Buffer): (b': Buffer)
    requires WellFormed(b)
    ensures WellFormed(b') && |b'.body| == |b.body|
  {
    b.(body := b.body[b.outp := -1], outp := (b.outp + 1) % |b.body|, counter := b.counter - 1,
       consumed := b.consumed + [b.body[b.outp]])
  }

  // ---- The invariant of one buffer ----

  /** How many threads of one side are at each stage that matters. */
  datatype Tally = Tally(checking: nat, leaving: nat, blocked: nat, acting: nat, signalling: nat, waking: nat,
    exiting: nat) {
    /** The threads inside the monitor. */
    function Inside(): nat { checking + leaving + acting + signalling + waking + exiting }

    function Add(stage: Stage, d: int): Tally
      requires d == 1 || (d == -1 && 0 < At(stage))
    {
      match stage
      case Checking => this.(checking := checking + d)
      case Leaving => this.(leaving := leaving + d)
      case Blocked => this.(blocked := blocked + d)
      case Acting => this.(acting := acting + d)
      case Signalling => this.(signalling := signalling + d)
      case Waking => this.(waking := waking + d)
      case Exiting => this.(exiting := exiting + d)
      case _ => this
    }

    function At(stage: Stage): nat {
      match stage
      case Checking => checking
      case Leaving => leaving
      case Blocked => blocked
      case Acting => acting
      case Signalling => signalling
      case Waking => waking
      case Exiting => exiting
      case _ => 1
    }
  }

  function TallyOf(at: multiset<Spot>, k: nat, x: Side): Tally {
    Tally(at[Spot(k, x, Checking)], at[Spot(k, x, Leaving)], at[Spot(k, x, Blocked)], at[Spot(k, x, Acting)],
          at[Spot(k, x, Signalling)], at[Spot(k, x, Waking)], at[Spot(k, x, Exiting)])
  }

  /** The right to run is free, handed over on a condition, or held by one thread inside. */
  predicate OneToken(b: Buffer, m: Tally, other: Tally) {
    b.s + b.full.w + b.empty.w + m.Inside() + other.Inside() == 1
  }

  /** Threads on their way into `w.p()` are counted as waiting or have been woken. */
  predicate WaitersCounted(mine: Condition, m: Tally, other: Tally) {
    m.leaving + m.blocked == mine.waitingCount + mine.w + other.waking
  }

  /** Tokens on the way from a thread of the other side that has just made room to a thread
      of this side that will use it. */
  function Handed(mine: Condition, m: Tally, other: Tally): nat {
    mine.w + other.signalling + other.waking + m.acting
  }

  /** A thread may only wait when it has to, and whoever gets the right to act has room. */
  predicate RoomWhenHanded(room: int, mine: Condition, m: Tally, other: Tally) {
    && 0 <= room
    && (0 < Handed(mine, m, other) ==> 0 < room)
    && (0 < mine.waitingCount ==> room <= Handed(mine, m, other))
  }

  predicate SideInv(b: Buffer, x: Side, m: Tally, other: Tally) {
    && WaitersCounted(b.Mine(x), m, other)
    && RoomWhenHanded(b.Room(x), b.Mine(x), m, other)
  }

  /** The invariant seen from side `x`; it is the same seen from the other side. */
  predicate ControlInv(b: Buffer, x: Side, m: Tally, other: Tally) {
    OneToken(b, m, other) && SideInv(b, x, m, other) && SideInv(b, x.Other(), other, m)
  }

  ghost predicate RingInv(b: Buffer) {
    && Fifo(b.body, b.inp, b.outp, b.produced, b.consumed)
    && b.counter == |b.produced| - |b.consumed|
  }

  /** The invariant of buffer `k`, given where all threads are. */
  ghost predicate BufferInv(b: Buffer, at: multiset<Spot>, k: nat) {
    ControlInv(b, Produce, TallyOf(at, k, Produce), TallyOf(at, k, Consume)) && RingInv(b)
  }

  lemma TallyWithout(at: multiset<Spot>, k: nat, x: Side, stage: Stage)
    requires Spot(k, x, stage) in at
    ensures 0 < TallyOf(at, k, x).At(stage)
    ensures TallyOf(at - multiset{Spot(k, x, stage)}, k, x) == TallyOf(at, k, x).Add(stage, -1)
    ensures TallyOf(at - multiset{Spot(k, x, stage)}, k, x.Other()) == TallyOf(at, k, x.Other())
  {
  }

  lemma TallyWith(at: multiset<Spot>, at': multiset<Spot>, to: Spot)
    requires forall y :: at'[y] == at[y] + if y == to then 1 else 0
    ensures TallyOf(at', to.buf, to.side) == TallyOf(at, to.buf, to.side).Add(to.stage, 1)
  {
    match to.stage
    case Checking =>
    case Leaving =>
    case Blocked =>
    case Acting =>
    case Signalling =>
    case Waking =>
    case Exiting =>
    case _ =>
  }

  /** A thread elsewhere, or about to enter, does not count. */
  lemma TallyElsewhere(at: multiset<Spot>, k: nat, x: Side, to: Spot)
    requires to.stage.Entering? || to.buf != k || to.side != x
    ensures TallyOf(at + multiset{to}, k, x) == TallyOf(at, k, x)
  {
  }

  lemma MovedTally(at: multiset<Spot>, k: nat, x: Side, stage: Stage, to: Spot)
    requires Spot(k, x, stage) in at && (to.stage.Entering? || (to.buf == k && to.side == x))
    ensures var at' := Moved(at, Spot(k, x, stage), to);
      && 0 < TallyOf(at, k, x).At(stage)
      && TallyOf(at', k, x) == TallyOf(at, k, x).Add(stage, -1).Add(to.stage, 1)
      && TallyOf(at', k, x.Other()) == TallyOf(at, k, x.Other())
  {
    TallyWithout(at, k, x, stage);
    var rest := at - multiset{Spot(k, x, stage)};
    if to.stage.Entering? {
      TallyElsewhere(rest, k, x, to);
    } else {
      OneMore(rest, to);
      TallyWith(rest, rest + multiset{to}, to);
    }
    TallyElsewhere(rest, k, x.Other(), to);
  }

  // One stage at a time: the right to run and the counts of waiters move together.

  lemma EnterMonitor(b: Buffer, x: Side, m: Tally, other: Tally, stage: Stage, item: int)
    requires ControlInv(b, x, m, other) && WellFormed(b) && CanMove(b, x, stage) && 0 < m.At(stage)
    requires stage.Entering?
    ensures var (b', stage') := Move(b, x, stage, item); ControlInv(b', x, m.Add(stage, -1).Add(stage', 1), other)
  {
  }

  lemma ReenterMonitor(b: Buffer, x: Side, m: Tally, other: Tally, stage: Stage, item: int)
    requires ControlInv(b, x, m, other) && WellFormed(b) && CanMove(b, x, stage) && 0 < m.At(stage)
    requires stage.Reentering?
    ensures var (b', stage') := Move(b, x, stage, item); ControlInv(b', x, m.Add(stage, -1).Add(stage', 1), other)
  {
  }

  lemma LeaveMonitor(b: Buffer, x: Side, m: Tally, other: Tally, stage: Stage, item: int)
    requires ControlInv(b, x, m, other) && WellFormed(b) && CanMove(b, x, stage) && 0 < m.At(stage)
    requires stage.Exiting?
    ensures var (b', stage') := Move(b, x, stage, item); ControlInv(b', x, m.Add(stage, -1).Add(stage', 1), other)
  {
  }

  lemma FindNoRoom(b: Buffer, x: Side, m: Tally, other: Tally, stage: Stage, item: int)
    requires ControlInv(b, x, m, other) && WellFormed(b) && CanMove(b, x, stage) && 0 < m.At(stage)
    requires stage.Checking? && b.Room(x) == 0
    ensures var (b', stage') := Move(b, x, stage, item); ControlInv(b', x, m.Add(stage, -1).Add(stage', 1), other)
  {
  }

  lemma FindRoom(b: Buffer, x: Side, m: Tally, other: Tally, stage: Stage, item: int)
    requires ControlInv(b, x, m, other) && WellFormed(b) && CanMove(b, x, stage) && 0 < m.At(stage)
    requires stage.Checking? && b.Room(x) != 0
    ensures var (b', stage') := Move(b, x, stage, item); ControlInv(b', x, m.Add(stage, -1).Add(stage', 1), other)
  {
  }

  lemma StartWaiting(b: Buffer, x: Side, m: Tally, other: Tally, stage: Stage, item: int)
    requires ControlInv(b, x, m, other) && WellFormed(b) && CanMove(b, x, stage) && 0 < m.At(stage)
    requires stage.Leaving?
    ensures var (b', stage') := Move(b, x, stage, item); ControlInv(b', x, m.Add(stage, -1).Add(stage', 1), other)
  {
  }

  lemma StopWaiting(b: Buffer, x: Side, m: Tally, other: Tally, stage: Stage, item: int)
    requires ControlInv(b, x, m, other) && WellFormed(b) && CanMove(b, x, stage) && 0 < m.At(stage)
    requires stage.Blocked?
    ensures var (b', stage') := Move(b, x, stage, item); ControlInv(b', x, m.Add(stage, -1).Add(stage', 1), other)
  {
  }

  lemma Act(b: Buffer, x: Side, m: Tally, other: Tally, stage: Stage, item: int)
    requires ControlInv(b, x, m, other) && WellFormed(b) && CanMove(b, x, stage) && 0 < m.At(stage)
    requires stage.Acting?
    ensures var (b', stage') := Move(b, x, stage, item); ControlInv(b', x, m.Add(stage, -1).Add(stage', 1), other)
  {
  }

  lemma TestWaiters(b: Buffer, x: Side, m: Tally, other: Tally, stage: Stage, item: int)
    requires ControlInv(b, x, m, other) && WellFormed(b) && CanMove(b, x, stage) && 0 < m.At(stage)
    requires stage.Signalling?
    ensures var (b', stage') := Move(b, x, stage, item); ControlInv(b', x, m.Add(stage, -1).Add(stage', 1), other)
  {
  }

  lemma HandOver(b: Buffer, x: Side, m: Tally, other: Tally, stage: Stage, item: int)
    requires ControlInv(b, x, m, other) && WellFormed(b) && CanMove(b, x, stage) && 0 < m.At(stage)
    requires stage.Waking?
    ensures var (b', stage') := Move(b, x, stage, item); ControlInv(b', x, m.Add(stage, -1).Add(stage', 1), other)
  {
  }

  lemma ControlMove(b: Buffer, x: Side, m: Tally, other: Tally, stage: Stage, item: int)
    requires ControlInv(b, x, m, other) && WellFormed(b) && CanMove(b, x, stage) && 0 < m.At(stage)
    ensures var (b', stage') := Move(b, x, stage, item); ControlInv(b', x, m.Add(stage, -1).Add(stage', 1), other)
  {
    match stage
    case Entering => EnterMonitor(b, x, m, other, stage, item);
    case Checking => if b.Room(x) == 0 { FindNoRoom(b, x, m, other, stage, item); }
      else { FindRoom(b, x, m, other, stage, item); }
    case Leaving => StartWaiting(b, x, m, other, stage, item);
    case Blocked => StopWaiting(b, x, m, other, stage, item);
    case Acting => Act(b, x, m, other, stage, item);
    case Signalling => TestWaiters(b, x, m, other, stage, item);
    case Waking => HandOver(b, x, m, other, stage, item);
    case Reentering => ReenterMonitor(b, x, m, other, stage, item);
    case Exiting => LeaveMonitor(b, x, m, other, stage, item);
  }

  lemma InsertKeepsRing(b: Buffer, item: int)
    requires RingInv(b) && WellFormed(b) && 0 < b.Room(Produce)
    ensures RingInv(Insert(b, item))
  {
    Written(b.body, b.inp, b.outp, b.produced, b.consumed, item);
  }

  lemma ExtractKeepsRing(b: Buffer)
    requires RingInv(b) && WellFormed(b) && 0 < b.Room(Consume)
    ensures RingInv(Extract(b))
  {
    Read(b.body, b.inp, b.outp, b.produced, b.consumed, -1);
  }

  /** A thread that acts finds room: there is no need to test again after waiting. */
  lemma ActingHasRoom(b: Buffer, x: Side, m: Tally, other: Tally)
    requires ControlInv(b, x, m, other) && 0 < m.acting
    ensures 0 < b.Room(x) && b.s == 0
  {
  }

  lemma RingMove(b: Buffer, x: Side, m: Tally, other: Tally, stage: Stage, item: int)
    requires ControlInv(b, x, m, other) && RingInv(b) && WellFormed(b) && CanMove(b, x, stage) && 0 < m.At(stage)
    ensures RingInv(Move(b, x, stage, item).0)
  {
    if stage.Acting? {
      ActingHasRoom(b, x, m, other);
      if x == Produce {
        InsertKeepsRing(b, item);
      } else {
        ExtractKeepsRing(b);
      }
    }
  }

  lemma OtherView(b: Buffer, x: Side, m: Tally, other: Tally)
    requires ControlInv(b, x, m, other)
    ensures ControlInv(b, x.Other(), other, m)
  {
  }

  lemma SideMoveKeeps(b: Buffer, x: Side, m: Tally, other: Tally, stage: Stage, item: int)
    requires ControlInv(b, x, m, other) && RingInv(b) && WellFormed(b) && CanMove(b, x, stage) && 0 < m.At(stage)
    ensures var (b', stage') := Move(b, x, stage, item);
      ControlInv(b', x, m.Add(stage, -1).Add(stage', 1), other) && RingInv(b')
  {
    ControlMove(b, x, m, other, stage, item);
    RingMove(b, x, m, other, stage, item);
  }

  /** A step of a thread on buffer `k` keeps the invariant of that buffer. */
  lemma MoveKeeps(b: Buffer, at: multiset<Spot>, k: nat, x: Side, stage: Stage, item: int, to: Spot)
    requires BufferInv(b, at, k) && WellFormed(b) && CanMove(b, x, stage) && Spot(k, x, stage) in at
    requires to.stage == Move(b, x, stage, item).1
    requires to.stage.Entering? || (to.buf == k && to.side == x)
    ensures BufferInv(Move(b, x, stage, item).0, Moved(at, Spot(k, x, stage), to), k)
  {
    var m, other := TallyOf(at, k, x), TallyOf(at, k, x.Other());
    MovedTally(at, k, x, stage, to);
    if x == Consume {
      OtherView(b, Produce, other, m);
    }
    SideMoveKeeps(b, x, m, other, stage, item);
    if x == Consume {
      OtherView(Move(b, x, stage, item).0, Consume, m.Add(stage, -1).Add(to.stage, 1), other);
    }
  }

  // ---- All buffers and all threads ----

  datatype System = System(bufs: seq<Buffer>, roles: seq<Role>, spots: seq<Spot>)

  predicate SpotFits(role: Role, spot: Spot, n: nat) {
    spot.buf < n && Serves(role, spot.buf, spot.side)
  }

  ghost predicate Inv(sys: System) {
    && 0 < |sys.bufs| && |sys.roles| == |sys.spots|
    && (forall t | 0 <= t < |sys.spots| :: SpotFits(sys.roles[t], sys.spots[t], |sys.bufs|))
    && (forall k | 0 <= k < |sys.bufs| :: WellFormed(sys.bufs[k]) && BufferInv(sys.bufs[k], multiset(sys.spots), k))
  }

  predicate Enabled(sys: System, t: nat) {
    && t < |sys.spots| && sys.spots[t].buf < |sys.bufs|
    && WellFormed(sys.bufs[sys.spots[t].buf])
    && CanMove(sys.bufs[sys.spots[t].buf], sys.spots[t].side, sys.spots[t].stage)
  }

  /** Thread `t` moves on; `item` is what it makes, if it makes one. */
  function Step(sys: System, t: nat, item: int): System
    requires Enabled(sys, t) && t < |sys.roles|
  {
    var spot := sys.spots[t];
    var (b', stage') := Move(sys.bufs[spot.buf], spot.side, spot.stage, item);
    sys.(bufs := sys.bufs[spot.buf := b'],
         spots := sys.spots[t := Spot(NextBuffer(sys.roles[t], spot.buf, spot.stage.Exiting?, |sys.bufs|), spot.side,
           stage')])
  }

  lemma OtherBuffer(b: Buffer, at: multiset<Spot>, j: nat, from: Spot, to: Spot)
    requires BufferInv(b, at, j) && from in at && from.buf != j && (to.buf != j || to.stage.Entering?)
    ensures BufferInv(b, Moved(at, from, to), j)
  {
    SameElsewhere(at, j, Produce, from, to);
    SameElsewhere(at, j, Consume, from, to);
  }

  lemma SameElsewhere(at: multiset<Spot>, j: nat, x: Side, from: Spot, to: Spot)
    requires from in at && from.buf != j && (to.buf != j || to.stage.Entering?)
    ensures TallyOf(Moved(at, from, to), j, x) == TallyOf(at, j, x)
  {
    TallyElsewhere(at - multiset{from}, j, x, to);
  }

  lemma StepKeepsBuffer(sys: System, t: nat, item: int, j: nat)
    requires Inv(sys) && Enabled(sys, t) && j < |sys.bufs|
    ensures var sys' := Step(sys, t, item);
      WellFormed(sys'.bufs[j]) && BufferInv(sys'.bufs[j], multiset(sys'.spots), j)
  {
    var sys', from, at := Step(sys, t, item), sys.spots[t], multiset(sys.spots);
    var to := sys'.spots[t];
    SpotsMoved(sys.spots, t, to);
    if j == from.buf {
      MoveKeeps(sys.bufs[j], at, j, from.side, from.stage, item, to);
    } else {
      OtherBuffer(sys.bufs[j], at, j, from, to);
    }
  }

  /** Every step of every thread keeps the invariant. */
  lemma StepKeeps(sys: System, t: nat, item: int)
    requires Inv(sys) && Enabled(sys, t)
    ensures Inv(Step(sys, t, item))
  {
    var sys' := Step(sys, t, item);
    forall j | 0 <= j < |sys.bufs|
      ensures WellFormed(sys'.bufs[j]) && BufferInv(sys'.bufs[j], multiset(sys'.spots), j)
    {
      StepKeepsBuffer(sys, t, item, j);
    }
  }

  /** The threads start outside, in front of empty buffers. */
  predicate Start(sys: System) {
    && 0 < |sys.bufs| && |sys.roles| == |sys.spots|
    && (forall k | 0 <= k < |sys.bufs| :: IsFresh(sys.bufs[k]))
    && (forall t | 0 <= t < |sys.spots| ::
          SpotFits(sys.roles[t], sys.spots[t], |sys.bufs|) && sys.spots[t].stage.Entering?)
  }

  lemma StartInv(sys: System)
    requires Start(sys)
    ensures Inv(sys)
  {
    var at := multiset(sys.spots);
    forall k: nat | k < |sys.bufs|
      ensures BufferInv(sys.bufs[k], at, k)
    {
      forall x: Side, stage: Stage | !stage.Entering?
        ensures at[Spot(k, x, stage)] == 0
      {
        assert Spot(k, x, stage) !in sys.spots;
      }
      FreshInv(sys.bufs[k], at, k);
    }
  }

  /** A buffer as the constructor leaves it. */
  predicate IsFresh(b: Buffer) {
    && b.s == 1 && b.full == Condition(0, 0) && b.empty == Condition(0, 0)
    && b.counter == 0 && b.inp == 0 && b.outp == 0 && 0 < |b.body| && b.produced == [] && b.consumed == []
    && forall p | 0 <= p < |b.body| :: b.body[p] == -1
  }

  lemma FreshInv(b: Buffer, at: multiset<Spot>, k: nat)
    requires IsFresh(b)
    requires forall x: Side, stage: Stage | !stage.Entering? :: at[Spot(k, x, stage)] == 0
    ensures BufferInv(b, at, k)
  {
    Nobody(at, k, Produce);
    Nobody(at, k, Consume);
    FreshControl(b, TallyOf(at, k, Produce), TallyOf(at, k, Consume));
    FreshRing(b);
  }

  lemma Nobody(at: multiset<Spot>, k: nat, x: Side)
    requires forall stage: Stage | !stage.Entering? :: at[Spot(k, x, stage)] == 0
    ensures TallyOf(at, k, x).Inside() + TallyOf(at, k, x).blocked == 0
  {
  }

  lemma FreshRing(b: Buffer)
    requires IsFresh(b)
    ensures RingInv(b)
  {
    EmptyRing(b.body);
  }

  lemma FreshControl(b: Buffer, p: Tally, c: Tally)
    requires IsFresh(b)
    requires p.Inside() + p.blocked == 0 && c.Inside() + c.blocked == 0
    ensures ControlInv(b, Produce, p, c)
  {
  }

  /** A run: which thread moves, and what it makes if it makes something. */
  predicate Runnable(sys: System, schedule: seq<(nat, int)>)
    requires |sys.roles| == |sys.spots|
    decreases |schedule|
  {
    schedule != [] ==>
      && Enabled(sys, schedule[0].0)
      && Runnable(Step(sys, schedule[0].0, schedule[0].1), schedule[1..])
  }

  function Run(sys: System, schedule: seq<(nat, int)>): System
    requires |sys.roles| == |sys.spots| && Runnable(sys, schedule)
    decreases |schedule|
  {
    if schedule == [] then sys
    else Run(Step(sys, schedule[0].0, schedule[0].1), schedule[1..])
  }

  /** Whatever the threads do, the invariant holds; in particular each buffer hands out
      the items in the order in which they were put in, none lost and none twice. */
  lemma {:induction false} RunInv(sys: System, schedule: seq<(nat, int)>)
    requires Inv(sys) && Runnable(sys, schedule)
    ensures var sys' := Run(sys, schedule);
      && Inv(sys') && sys'.roles == sys.roles && |sys'.bufs| == |sys.bufs|
      && forall k | 0 <= k < |sys'.bufs| ::
           var b := sys'.bufs[k];
           && b.consumed <= b.produced
           && 0 <= |b.produced| - |b.consumed| == b.counter <= |b.body|
    decreases |schedule|
  {
    if schedule != [] {
      StepKeeps(sys, schedule[0].0, schedule[0].1);
      RunInv(Step(sys, schedule[0].0, schedule[0].1), schedule[1..]);
    }
  }

  /** A thread about to touch the ring, whether it has waited or not, has the monitor to
      itself and finds a free place or an item. */
  lemma ResumedNeedsNoTest(sys: System, t: nat)
    requires Inv(sys) && t < |sys.spots| && sys.spots[t].stage.Acting?
    ensures 0 < sys.bufs[sys.spots[t].buf].Room(sys.spots[t].side)
    ensures sys.bufs[sys.spots[t].buf].s == 0
  {
    var spot := sys.spots[t];
    assert spot in multiset(sys.spots);
    ActingAlone(sys.bufs[spot.buf], multiset(sys.spots), spot.buf, spot.side);
  }

  lemma ActingAlone(b: Buffer, at: multiset<Spot>, k: nat, x: Side)
    requires BufferInv(b, at, k) && Spot(k, x, Acting) in at
    ensures 0 < b.Room(x) && b.s == 0
  {
    TallyCounts(at, k, x, Acting);
    var p, c := TallyOf(at, k, Produce), TallyOf(at, k, Consume);
    OtherView(b, Produce, p, c);
    ActingHasRoom(b, x, TallyOf(at, k, x), TallyOf(at, k, x.Other()));
  }

  // ---- No deadlock ----

  /** While the mutex is free, a producer waits only on a full ring and a consumer only on an empty one. */
  lemma FreeMutexWaiters(b: Buffer, p: Tally, c: Tally)
    requires ControlInv(b, Produce, p, c) && 0 < b.s
    ensures 0 < b.full.waitingCount || 0 < p.blocked ==> b.counter == |b.body|
    ensures 0 < b.empty.waitingCount || 0 < c.blocked ==> b.counter == 0
  {
  }

  /** A stage at which a thread of the buffer can always move, while the mutex is taken. */
  lemma MovableStage(b: Buffer, p: Tally, c: Tally) returns (x: Side, stage: Stage)
    requires ControlInv(b, Produce, p, c) && b.s == 0
    ensures !stage.Entering? && !stage.Reentering? && 0 < (if x == Produce then p else c).At(stage)
      && CanMove(b, x, stage)
  {
    if 0 < b.full.w {
      return Produce, if 0 < p.leaving then Leaving else Blocked;
    }
    if 0 < b.empty.w {
      return Consume, if 0 < c.leaving then Leaving else Blocked;
    }
    x := if 0 < p.Inside() then Produce else Consume;
    stage := InsideStage(if x == Produce then p else c);
  }

  function InsideStage(m: Tally): Stage {
    if 0 < m.checking then Checking else if 0 < m.leaving then Leaving else if 0 < m.acting then Acting
    else if 0 < m.signalling then Signalling else if 0 < m.waking then Waking else Exiting
  }

  /** With the mutex free, a producer and a consumer cannot both be held up. */
  lemma NotBothHeldUp(b: Buffer, p: Tally, c: Tally, ps: Stage, cs: Stage)
    requires ControlInv(b, Produce, p, c) && 0 < b.s && 0 < |b.body|
    requires ps.Blocked? ==> 0 < p.blocked
    requires cs.Blocked? ==> 0 < c.blocked
    ensures CanMove(b, Produce, ps) || CanMove(b, Consume, cs)
  {
    FreeMutexWaiters(b, p, c);
  }

  lemma Counted(spots: seq<Spot>, t: nat)
    requires t < |spots|
    ensures var spot := spots[t];
      spot.stage.Blocked? ==> 0 < TallyOf(multiset(spots), spot.buf, spot.side).blocked
  {
    assert spots[t] in multiset(spots);
  }

  lemma TallyCounts(at: multiset<Spot>, k: nat, x: Side, stage: Stage)
    requires !stage.Entering? && !stage.Reentering?
    ensures TallyOf(at, k, x).At(stage) == at[Spot(k, x, stage)]
  {
  }

  /** A buffer that has both a producing and a consuming thread is never stuck. */
  lemma BufferProgress(sys: System, k: nat, p: nat, c: nat) returns (t: nat)
    requires Inv(sys) && k < |sys.bufs| && p < |sys.spots| && c < |sys.spots|
    requires sys.spots[p].buf == k && sys.spots[p].side == Produce
    requires sys.spots[c].buf == k && sys.spots[c].side == Consume
    ensures Enabled(sys, t) && sys.spots[t].buf == k
  {
    var b, at := sys.bufs[k], multiset(sys.spots);
    var pt, ct := TallyOf(at, k, Produce), TallyOf(at, k, Consume);
    if b.s == 0 {
      var x, stage := MovableStage(b, pt, ct);
      TallyCounts(at, k, x, stage);
      t := SomeoneAt(sys.spots, Spot(k, x, stage));
    } else {
      Counted(sys.spots, p);
      Counted(sys.spots, c);
      NotBothHeldUp(b, pt, ct, sys.spots[p].stage, sys.spots[c].stage);
      t := if CanMove(b, Produce, sys.spots[p].stage) then p else c;
    }
  }

  /** With a consumer on every buffer and at least one thread that produces anywhere, some
      thread can always move. */
  lemma NoDeadlock(sys: System, p: nat) returns (t: nat)
    requires Inv(sys) && p < |sys.roles| && !sys.roles[p].Consumer?
    requires forall k: nat | k < |sys.bufs| :: Consumer(k) in sys.roles
    ensures Enabled(sys, t) && sys.spots[t].buf == sys.spots[p].buf
  {
    var k := sys.spots[p].buf;
    var c :| 0 <= c < |sys.roles| && sys.roles[c] == Consumer(k);
    t := BufferProgress(sys, k, p, c);
  }
}
