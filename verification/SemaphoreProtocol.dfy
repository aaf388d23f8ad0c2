/** The bounded buffer guarded by three semaphores, as a state machine: any number of
    processes on any number of buffers, one semaphore operation at a time. */
module SemaphoreProtocol {
  import opened Ring
  import opened Threads

  /** Where a process is in `produce` or `consume`. */
  datatype Stage =
    | Claiming      // before p on `empty` (producer) or `full` (consumer)
    | Locking       // before mutex.p()
    | Acting        // in the critical section, before the ring is touched
    | Unlocking     // in the critical section, before mutex.v()
    | Telling       // before v on `full` (producer) or `empty` (consumer)

  datatype Spot = Spot(buf: nat, side: Side, stage: Stage)

  datatype Buffer = Buffer(
    mutex: nat, empty: nat, full: nat, inp: nat, outp: nat, body: seq<int>,
    produced: seq<int>, consumed: seq<int>)

  predicate WellFormed(b: Buffer) {
    b.inp < |b.body| && b.outp < |b.body|
  }

  predicate CanMove(b: Buffer, x: Side, stage: Stage) {
    match stage
    case Claiming => 0 < if x == Produce then b.empty else b.full
    case Locking => 0 < b.mutex
    case _ => true
  }

  function Move(b: Buffer, x: Side, stage: Stage, item: int): (r: (Buffer, Stage))
    requires WellFormed(b) && CanMove(b, x, stage)
    ensures WellFormed(r.0) && |r.0.body| == |b.body|
  {
    match stage
    case Claiming => (if x == Produce then b.(empty := b.empty - 1) else b.(full := b.full - 1), Locking)
    case Locking => (b.(mutex := b.mutex - 1), Acting)
    case Acting => (if x == Produce then Insert(b, item) else Extract(b), Unlocking)
    case Unlocking => (b.(mutex := b.mutex + 1), Telling)
    case Telling => (if x == Produce then b.(full := b.full + 1) else b.(empty := b.empty + 1), Claiming)
  }

  function Insert(b: Buffer, item: int): (b': Buffer)
    requires WellFormed(b)
    ensures WellFormed(b') && |b'.body| == |b.body|
  {
    b.(body := b.body[b.inp := item], inp := (b.inp + 1) % |b.body|, produced := b.produced + [item])
  }

  /** Taking an item leaves it in the ring. */
  function Extract(b: Buffer): (b': Buffer)
    requires WellFormed(b)
    ensures WellFormed(b') && |b'.body| == |b.body|
  {
    b.(outp := (b.outp + 1) % |b.body|, consumed := b.consumed + [b.body[b.outp]])
  }

  // ---- The invariant of one buffer ----

  /** How many processes of one side are at each stage past the first. */
  datatype Tally = Tally(locking: nat, acting: nat, unlocking: nat, telling: nat) {
    /** Between the two operations on the counting semaphores. */
    function Between(): nat { locking + acting + unlocking + telling }

    /** In the critical section. */
    function Critical(): nat { acting + unlocking }

    predicate Some(stage: Stage) {
      match stage
      case Claiming => true
      case Locking => 0 < locking
      case Acting => 0 < acting
      case Unlocking => 0 < unlocking
      case Telling => 0 < telling
    }

    function Less(stage: Stage): Tally
      requires Some(stage)
    {
      match stage
      case Claiming => this
      case Locking => this.(locking := locking - 1)
      case Acting => this.(acting := acting - 1)
      case Unlocking => this.(unlocking := unlocking - 1)
      case Telling => this.(telling := telling - 1)
    }

    function More(stage: Stage): Tally {
      match stage
      case Claiming => this
      case Locking => this.(locking := locking + 1)
      case Acting => this.(acting := acting + 1)
      case Unlocking => this.(unlocking := unlocking + 1)
      case Telling => this.(telling := telling + 1)
    }

    /** One process goes on from `stage`. */
    function Next(stage: Stage): Tally
      requires Some(stage)
    {
      Less(stage).More(NextStage(stage))
    }
  }

  function TallyOf(at: multiset<Spot>, k: nat, x: Side): Tally {
    Tally(at[Spot(k, x, Locking)], at[Spot(k, x, Acting)], at[Spot(k, x, Unlocking)], at[Spot(k, x, Telling)])
  }

  /** Every place of the ring is free, holds an item, or is being filled or emptied. */
  predicate PlacesCounted(b: Buffer, p: Tally, c: Tally) {
    b.empty + b.full + p.Between() + c.Between() == |b.body|
  }

  /** The critical sections exclude each other. */
  predicate OneCritical(b: Buffer, p: Tally, c: Tally) {
    b.mutex + p.Critical() + c.Critical() == 1
  }

  /** The items in the ring: told of, about to be told of, or claimed and not yet taken. */
  predicate ItemsCounted(b: Buffer, p: Tally, c: Tally) {
    |b.produced| - |b.consumed| == b.full + p.unlocking + p.telling + c.locking + c.acting
  }

  predicate ControlInv(b: Buffer, p: Tally, c: Tally) {
    PlacesCounted(b, p, c) && OneCritical(b, p, c) && ItemsCounted(b, p, c)
  }

  ghost predicate RingInv(b: Buffer) {
    Fifo(b.body, b.inp, b.outp, b.produced, b.consumed)
  }

  ghost predicate BufferInv(b: Buffer, at: multiset<Spot>, k: nat) {
    ControlInv(b, TallyOf(at, k, Produce), TallyOf(at, k, Consume)) && RingInv(b)
  }

  lemma ProducerMove(b: Buffer, p: Tally, c: Tally, stage: Stage, item: int)
    requires ControlInv(b, p, c) && WellFormed(b) && CanMove(b, Produce, stage) && p.Some(stage)
    ensures ControlInv(Move(b, Produce, stage, item).0, p.Next(stage), c)
  {
  }

  lemma ConsumerMove(b: Buffer, p: Tally, c: Tally, stage: Stage, item: int)
    requires ControlInv(b, p, c) && WellFormed(b) && CanMove(b, Consume, stage) && c.Some(stage)
    ensures ControlInv(Move(b, Consume, stage, item).0, p, c.Next(stage))
  {
  }

  /** A producer in the critical section has a free place, a consumer an item. */
  lemma ActingHasRoom(b: Buffer, p: Tally, c: Tally)
    requires ControlInv(b, p, c)
    ensures 0 < p.acting ==> |b.produced| - |b.consumed| < |b.body|
    ensures 0 < c.acting ==> |b.consumed| < |b.produced|
  {
  }

  lemma InsertKeepsRing(b: Buffer, item: int)
    requires RingInv(b) && WellFormed(b) && |b.produced| - |b.consumed| < |b.body|
    ensures RingInv(Insert(b, item))
  {
    Written(b.body, b.inp, b.outp, b.produced, b.consumed, item);
  }

  lemma ExtractKeepsRing(b: Buffer)
    requires RingInv(b) && WellFormed(b) && |b.consumed| < |b.produced|
    ensures RingInv(Extract(b))
  {
    Read(b.body, b.inp, b.outp, b.produced, b.consumed, b.body[b.outp]);
    assert b.body[b.outp := b.body[b.outp]] == b.body;
  }

  lemma RingMove(b: Buffer, p: Tally, c: Tally, x: Side, stage: Stage, item: int)
    requires ControlInv(b, p, c) && RingInv(b) && WellFormed(b) && CanMove(b, x, stage)
    requires (if x == Produce then p else c).Some(stage)
    ensures RingInv(Move(b, x, stage, item).0)
  {
    if stage.Acting? {
      ActingHasRoom(b, p, c);
      if x == Produce {
        InsertKeepsRing(b, item);
      } else {
        ExtractKeepsRing(b);
      }
    }
  }

  /** The stage behind `stage`. */
  function NextStage(stage: Stage): Stage {
    match stage
    case Claiming => Locking
    case Locking => Acting
    case Acting => Unlocking
    case Unlocking => Telling
    case Telling => Claiming
  }

  lemma TallyWithout(at: multiset<Spot>, k: nat, x: Side, stage: Stage)
    requires Spot(k, x, stage) in at
    ensures TallyOf(at, k, x).Some(stage)
    ensures TallyOf(at - multiset{Spot(k, x, stage)}, k, x) == TallyOf(at, k, x).Less(stage)
    ensures TallyOf(at - multiset{Spot(k, x, stage)}, k, x.Other()) == TallyOf(at, k, x.Other())
  {
  }

  lemma TallyWith(at: multiset<Spot>, at': multiset<Spot>, to: Spot)
    requires forall y :: at'[y] == at[y] + if y == to then 1 else 0
    ensures TallyOf(at', to.buf, to.side) == TallyOf(at, to.buf, to.side).More(to.stage)
  {
  }

  /** A process elsewhere, or about to claim, does not count. */
  lemma TallyElsewhere(at: multiset<Spot>, k: nat, x: Side, to: Spot)
    requires to.stage.Claiming? || to.buf != k || to.side != x
    ensures TallyOf(at + multiset{to}, k, x) == TallyOf(at, k, x)
  {
  }

  lemma MovedTally(at: multiset<Spot>, k: nat, x: Side, stage: Stage, to: Spot)
    requires Spot(k, x, stage) in at && to.stage == NextStage(stage)
    requires stage.Telling? || (to.buf == k && to.side == x)
    ensures TallyOf(at, k, x).Some(stage)
    ensures TallyOf(Moved(at, Spot(k, x, stage), to), k, x) == TallyOf(at, k, x).Next(stage)
    ensures TallyOf(Moved(at, Spot(k, x, stage), to), k, x.Other()) == TallyOf(at, k, x.Other())
  {
    TallyWithout(at, k, x, stage);
    var rest := at - multiset{Spot(k, x, stage)};
    if stage.Telling? {
      TallyElsewhere(rest, k, x, to);
    } else {
      OneMore(rest, to);
      TallyWith(rest, rest + multiset{to}, to);
    }
    TallyElsewhere(rest, k, x.Other(), to);
  }

  lemma SameElsewhere(at: multiset<Spot>, j: nat, x: Side, from: Spot, to: Spot)
    requires from in at && from.buf != j && (to.buf != j || to.stage.Claiming?)
    ensures TallyOf(Moved(at, from, to), j, x) == TallyOf(at, j, x)
  {
    TallyElsewhere(at - multiset{from}, j, x, to);
  }

  lemma MoveKeeps(b: Buffer, at: multiset<Spot>, k: nat, x: Side, stage: Stage, item: int, to: Spot)
    requires BufferInv(b, at, k) && WellFormed(b) && CanMove(b, x, stage) && Spot(k, x, stage) in at
    requires to.stage == NextStage(stage) && (stage.Telling? || (to.buf == k && to.side == x))
    ensures BufferInv(Move(b, x, stage, item).0, Moved(at, Spot(k, x, stage), to), k)
  {
    var p, c := TallyOf(at, k, Produce), TallyOf(at, k, Consume);
    MovedTally(at, k, x, stage, to);
    RingMove(b, p, c, x, stage, item);
    if x == Produce {
      ProducerMove(b, p, c, stage, item);
    } else {
      ConsumerMove(b, p, c, stage, item);
    }
  }

  // ---- All buffers and all processes ----

  datatype System = System(bufs: seq<Buffer>, roles: seq<Role>, spots: seq<Spot>)

  predicate SpotFits(role: Role, spot: Spot, n: nat) {
    spot.buf < n && Serves(role, spot.buf, spot.side)
  }

  ghost predicate Inv(sys: System) {
    && 0 < |sys.bufs| && |sys.roles| == |sys.spots|
    && (forall t | 0 <= t < |sys.spots| :: SpotFits(sys.roles[t], sys.spots[t], |sys.bufs|))
    && (forall k | 0 <= k < |sys.bufs| :: WellFormed(sys.bufs[k]) && BufferInv(sys.bufs[k], multiset(sys.spots), k))
  }

  predicate Enabled(sys: System, t: nat) {
    && t < |sys.spots| && sys.spots[t].buf < |sys.bufs|
    && WellFormed(sys.bufs[sys.spots[t].buf])
    && CanMove(sys.bufs[sys.spots[t].buf], sys.spots[t].side, sys.spots[t].stage)
  }

  function Step(sys: System, t: nat, item: int): System
    requires Enabled(sys, t) && t < |sys.roles|
  {
    var spot := sys.spots[t];
    var (b', stage') := Move(sys.bufs[spot.buf], spot.side, spot.stage, item);
    sys.(bufs := sys.bufs[spot.buf := b'],
         spots := sys.spots[t := Spot(NextBuffer(sys.roles[t], spot.buf, spot.stage.Telling?, |sys.bufs|), spot.side,
           stage')])
  }

  lemma OtherBuffer(b: Buffer, at: multiset<Spot>, j: nat, from: Spot, to: Spot)
    requires BufferInv(b, at, j) && from in at && from.buf != j && (to.buf != j || to.stage.Claiming?)
    ensures BufferInv(b, Moved(at, from, to), j)
  {
    SameElsewhere(at, j, Produce, from, to);
    SameElsewhere(at, j, Consume, from, to);
  }

  lemma StepKeepsBuffer(sys: System, t: nat, item: int, j: nat)
    requires Inv(sys) && Enabled(sys, t) && j < |sys.bufs|
    ensures var sys' := Step(sys, t, item);
      WellFormed(sys'.bufs[j]) && BufferInv(sys'.bufs[j], multiset(sys'.spots), j)
  {
    var sys', from, at := Step(sys, t, item), sys.spots[t], multiset(sys.spots);
    var to := sys'.spots[t];
    SpotsMoved(sys.spots, t, to);
    if j == from.buf {
      MoveKeeps(sys.bufs[j], at, j, from.side, from.stage, item, to);
    } else {
      OtherBuffer(sys.bufs[j], at, j, from, to);
    }
  }

  /** Every step of every process keeps the invariant. */
  lemma StepKeeps(sys: System, t: nat, item: int)
    requires Inv(sys) && Enabled(sys, t)
    ensures Inv(Step(sys, t, item))
  {
    var sys' := Step(sys, t, item);
    forall j | 0 <= j < |sys.bufs|
      ensures WellFormed(sys'.bufs[j]) && BufferInv(sys'.bufs[j], multiset(sys'.spots), j)
    {
      StepKeepsBuffer(sys, t, item, j);
    }
  }

  predicate IsFresh(b: Buffer) {
    && b.mutex == 1 && b.empty == |b.body| && b.full == 0 && 0 < |b.body|
    && b.inp == 0 && b.outp == 0 && b.produced == [] && b.consumed == []
  }

  predicate Start(sys: System) {
    && 0 < |sys.bufs| && |sys.roles| == |sys.spots|
    && (forall k | 0 <= k < |sys.bufs| :: IsFresh(sys.bufs[k]))
    && (forall t | 0 <= t < |sys.spots| ::
          SpotFits(sys.roles[t], sys.spots[t], |sys.bufs|) && sys.spots[t].stage.Claiming?)
  }

  lemma FreshInv(b: Buffer, at: multiset<Spot>, k: nat)
    requires IsFresh(b)
    requires forall x: Side, stage: Stage | !stage.Claiming? :: at[Spot(k, x, stage)] == 0
    ensures BufferInv(b, at, k)
  {
    Nobody(at, k, Produce);
    Nobody(at, k, Consume);
    FreshControl(b, TallyOf(at, k, Produce), TallyOf(at, k, Consume));
    FreshRing(b);
  }

  lemma Nobody(at: multiset<Spot>, k: nat, x: Side)
    requires forall stage: Stage | !stage.Claiming? :: at[Spot(k, x, stage)] == 0
    ensures TallyOf(at, k, x).Between() == 0
  {
  }

  lemma FreshControl(b: Buffer, p: Tally, c: Tally)
    requires IsFresh(b) && p.Between() == 0 && c.Between() == 0
    ensures ControlInv(b, p, c)
  {
  }

  lemma FreshRing(b: Buffer)
    requires IsFresh(b)
    ensures RingInv(b)
  {
    EmptyRing(b.body);
  }

  lemma StartInv(sys: System)
    requires Start(sys)
    ensures Inv(sys)
  {
    var at := multiset(sys.spots);
    forall k: nat | k < |sys.bufs|
      ensures BufferInv(sys.bufs[k], at, k)
    {
      forall x: Side, stage: Stage | !stage.Claiming?
        ensures at[Spot(k, x, stage)] == 0
      {
        assert Spot(k, x, stage) !in sys.spots;
      }
      FreshInv(sys.bufs[k], at, k);
    }
  }

  predicate Runnable(sys: System, schedule: seq<(nat, int)>)
    requires |sys.roles| == |sys.spots|
    decreases |schedule|
  {
    schedule != [] ==>
      && Enabled(sys, schedule[0].0)
      && Runnable(Step(sys, schedule[0].0, schedule[0].1), schedule[1..])
  }

  function Run(sys: System, schedule: seq<(nat, int)>): System
    requires |sys.roles| == |sys.spots| && Runnable(sys, schedule)
    decreases |schedule|
  {
    if schedule == [] then sys
    else Run(Step(sys, schedule[0].0, schedule[0].1), schedule[1..])
  }

  /** Whatever the processes do, the invariant holds, and each buffer hands out the items in
      the order in which they were put in. */
  lemma {:induction false} RunInv(sys: System, schedule: seq<(nat, int)>)
    requires Inv(sys) && Runnable(sys, schedule)
    ensures var sys' := Run(sys, schedule);
      && Inv(sys') && sys'.roles == sys.roles && |sys'.bufs| == |sys.bufs|
      && forall k | 0 <= k < |sys'.bufs| :: sys'.bufs[k].consumed <= sys'.bufs[k].produced
    decreases |schedule|
  {
    if schedule != [] {
      StepKeeps(sys, schedule[0].0, schedule[0].1);
      RunInv(Step(sys, schedule[0].0, schedule[0].1), schedule[1..]);
    }
  }

  /** Two processes are never in the critical section of the same buffer. */
  lemma Exclusion(sys: System, t: nat, u: nat)
    requires Inv(sys) && t < u < |sys.spots| && sys.spots[t].buf == sys.spots[u].buf
    ensures !InCritical(sys.spots[t].stage) || !InCritical(sys.spots[u].stage)
  {
    var at, k := multiset(sys.spots), sys.spots[t].buf;
    assert BufferInv(sys.bufs[k], at, k);
    AtMostOne(sys.bufs[k], TallyOf(at, k, Produce), TallyOf(at, k, Consume));
    TwoThere(sys.spots, t, u);
    if InCritical(sys.spots[t].stage) && InCritical(sys.spots[u].stage) {
      TwoCounted(at, sys.spots[t], sys.spots[u]);
    }
  }

  lemma AtMostOne(b: Buffer, p: Tally, c: Tally)
    requires ControlInv(b, p, c)
    ensures p.Critical() + c.Critical() <= 1
  {
  }

  predicate InCritical(stage: Stage) {
    stage.Acting? || stage.Unlocking?
  }

  lemma CriticalHas(at: multiset<Spot>, s: Spot)
    requires InCritical(s.stage)
    ensures at[s] <= TallyOf(at, s.buf, s.side).Critical()
    ensures TallyOf(at, s.buf, s.side).Critical() == at[Spot(s.buf, s.side, Acting)]
      + at[Spot(s.buf, s.side, Unlocking)]
  {
    assert s == Spot(s.buf, s.side, s.stage);
  }

  lemma TwoCounted(at: multiset<Spot>, s: Spot, r: Spot)
    requires s.buf == r.buf && 1 <= at[s] && 1 <= at[r] && (s == r ==> 2 <= at[s])
    requires InCritical(s.stage) && InCritical(r.stage)
    ensures 2 <= TallyOf(at, s.buf, Produce).Critical() + TallyOf(at, s.buf, Consume).Critical()
  {
    CriticalHas(at, s);
    CriticalHas(at, r);
    if s.side == r.side {
      assert s == Spot(s.buf, s.side, s.stage) && r == Spot(s.buf, s.side, r.stage);
      assert s.side == Produce || s.side == Consume;
    } else {
      assert s.side == r.side.Other();
    }
  }

  lemma TwoThere(spots: seq<Spot>, t: nat, u: nat)
    requires t < u < |spots|
    ensures var at := multiset(spots);
      1 <= at[spots[t]] && 1 <= at[spots[u]] && (spots[t] == spots[u] ==> 2 <= at[spots[t]])
  {
    var before, behind := spots[..u], spots[u..];
    assert spots == before + behind;
    assert spots[t] in before && spots[u] in behind;
    assert multiset(spots) == multiset(before) + multiset(behind);
  }

  // ---- No deadlock ----

  /** Someone past the first stage, if not everyone waits there. */
  lemma MovableStage(b: Buffer, p: Tally, c: Tally) returns (x: Side, stage: Stage)
    requires ControlInv(b, p, c) && 0 < p.Between() + c.Between()
    ensures !stage.Claiming? && (if x == Produce then p else c).Some(stage) && CanMove(b, x, stage)
  {
    if 0 < p.Critical() + c.Critical() {
      x := if 0 < p.Critical() then Produce else Consume;
      stage := if 0 < (if x == Produce then p else c).acting then Acting else Unlocking;
    } else {
      x := if 0 < p.Between() then Produce else Consume;
      stage := if 0 < (if x == Produce then p else c).locking then Locking else Telling;
    }
  }

  lemma TallyCounts(at: multiset<Spot>, k: nat, x: Side, stage: Stage)
    requires !stage.Claiming?
    ensures TallyOf(at, k, x).Some(stage) <==> 0 < at[Spot(k, x, stage)]
  {
  }

  lemma BusyStage(b: Buffer, at: multiset<Spot>, k: nat) returns (x: Side, stage: Stage)
    requires BufferInv(b, at, k) && 0 < TallyOf(at, k, Produce).Between() + TallyOf(at, k, Consume).Between()
    ensures 0 < at[Spot(k, x, stage)] && CanMove(b, x, stage)
  {
    x, stage := MovableStage(b, TallyOf(at, k, Produce), TallyOf(at, k, Consume));
    TallyCounts(at, k, x, stage);
  }

  /** Someone is between the two counting semaphores. */
  lemma BusyProgress(sys: System, k: nat) returns (t: nat)
    requires Inv(sys) && k < |sys.bufs|
    requires 0 < TallyOf(multiset(sys.spots), k, Produce).Between() + TallyOf(multiset(sys.spots), k, Consume).Between()
    ensures Enabled(sys, t) && sys.spots[t].buf == k
  {
    var x, stage := BusyStage(sys.bufs[k], multiset(sys.spots), k);
    t := SomeoneAt(sys.spots, Spot(k, x, stage));
  }

  /** Nobody is: the producer or the consumer can claim. */
  lemma IdleProgress(sys: System, k: nat, p: nat, c: nat) returns (t: nat)
    requires Inv(sys) && k < |sys.bufs| && p < |sys.spots| && c < |sys.spots|
    requires sys.spots[p].buf == k && sys.spots[p].side == Produce
    requires sys.spots[c].buf == k && sys.spots[c].side == Consume
    requires 0 == TallyOf(multiset(sys.spots), k, Produce).Between()
      + TallyOf(multiset(sys.spots), k, Consume).Between()
    ensures Enabled(sys, t) && sys.spots[t].buf == k
  {
    BothAtStart(sys.spots, k, p, c);
    IdleHasPlace(sys.bufs[k], multiset(sys.spots), k);
    t := OneClaims(sys, k, p, c);
  }

  lemma OneClaims(sys: System, k: nat, p: nat, c: nat) returns (t: nat)
    requires k < |sys.bufs| && p < |sys.spots| && c < |sys.spots| && WellFormed(sys.bufs[k])
    requires sys.spots[p] == Spot(k, Produce, Claiming) && sys.spots[c] == Spot(k, Consume, Claiming)
    requires 0 < sys.bufs[k].empty || 0 < sys.bufs[k].full
    ensures Enabled(sys, t) && sys.spots[t].buf == k
  {
    t := if 0 < sys.bufs[k].empty then p else c;
  }

  lemma BothAtStart(spots: seq<Spot>, k: nat, p: nat, c: nat)
    requires p < |spots| && c < |spots|
    requires spots[p].buf == k && spots[p].side == Produce && spots[c].buf == k && spots[c].side == Consume
    requires 0 == TallyOf(multiset(spots), k, Produce).Between() + TallyOf(multiset(spots), k, Consume).Between()
    ensures spots[p].stage.Claiming? && spots[c].stage.Claiming?
  {
    WaitsAtStart(spots, p);
    WaitsAtStart(spots, c);
  }

  lemma IdleHasPlace(b: Buffer, at: multiset<Spot>, k: nat)
    requires BufferInv(b, at, k) && 0 == TallyOf(at, k, Produce).Between() + TallyOf(at, k, Consume).Between()
    ensures 0 < b.empty || 0 < b.full
  {
    SomePlace(b, TallyOf(at, k, Produce), TallyOf(at, k, Consume));
  }

  /** A buffer with a producing and a consuming process is never stuck. */
  lemma BufferProgress(sys: System, k: nat, p: nat, c: nat) returns (t: nat)
    requires Inv(sys) && k < |sys.bufs| && p < |sys.spots| && c < |sys.spots|
    requires sys.spots[p].buf == k && sys.spots[p].side == Produce
    requires sys.spots[c].buf == k && sys.spots[c].side == Consume
    ensures Enabled(sys, t) && sys.spots[t].buf == k
  {
    var at := multiset(sys.spots);
    if 0 < TallyOf(at, k, Produce).Between() + TallyOf(at, k, Consume).Between() {
      t := BusyProgress(sys, k);
    } else {
      t := IdleProgress(sys, k, p, c);
    }
  }

  lemma WaitsAtStart(spots: seq<Spot>, u: nat)
    requires u < |spots| && TallyOf(multiset(spots), spots[u].buf, spots[u].side).Between() == 0
    ensures spots[u].stage.Claiming?
  {
    assert spots[u] in multiset(spots);
    if !spots[u].stage.Claiming? {
      CountedBetween(multiset(spots), spots[u]);
    }
  }

  lemma CountedBetween(at: multiset<Spot>, spot: Spot)
    requires spot in at && !spot.stage.Claiming?
    ensures 0 < TallyOf(at, spot.buf, spot.side).Between()
  {
    TallyCounts(at, spot.buf, spot.side, spot.stage);
    SomeBetween(TallyOf(at, spot.buf, spot.side), spot.stage);
  }

  lemma SomeBetween(m: Tally, stage: Stage)
    requires m.Some(stage) && !stage.Claiming?
    ensures 0 < m.Between()
  {
  }

  lemma SomePlace(b: Buffer, p: Tally, c: Tally)
    requires ControlInv(b, p, c) && p.Between() + c.Between() == 0 && 0 < |b.body|
    ensures 0 < b.empty || 0 < b.full
  {
  }

  /** With a consumer on every buffer and at least one process that produces anywhere, some
      process can always move. */
  lemma NoDeadlock(sys: System, p: nat) returns (t: nat)
    requires Inv(sys) && p < |sys.roles| && !sys.roles[p].Consumer?
    requires forall k: nat | k < |sys.bufs| :: Consumer(k) in sys.roles
    ensures Enabled(sys, t) && sys.spots[t].buf == sys.spots[p].buf
  {
    var k := sys.spots[p].buf;
    var c :| 0 <= c < |sys.roles| && sys.roles[c] == Consumer(k);
    t := BufferProgress(sys, k, p, c);
  }
}
