/** What the threads of the buffer with the monitor achieve over a run: who is where, what
    went in, what came out. */
module MonitorWork {
  import opened MonitorProtocol
  import opened Ring
  import opened Rounds
  import opened Threads

  // ---- Who is where ----

  /** How many calls of `produce` thread `t` completes. */
  function Calls(sys: System, schedule: seq<(nat, int)>, t: nat): nat
    requires |sys.roles| == |sys.spots| && Runnable(sys, schedule) && t < |sys.spots|
    decreases |schedule|
  {
    if schedule == [] then 0
    else
      (if schedule[0].0 == t && sys.spots[t].stage.Exiting? then 1 else 0)
      + Calls(Step(sys, schedule[0].0, schedule[0].1), schedule[1..], t)
  }

  /** How many items it puts into buffer `k`. */
  function Items(sys: System, schedule: seq<(nat, int)>, t: nat, k: nat): nat
    requires |sys.roles| == |sys.spots| && Runnable(sys, schedule) && t < |sys.spots|
    decreases |schedule|
  {
    if schedule == [] then 0
    else
      (if schedule[0].0 == t && sys.spots[t].stage.Acting? && sys.spots[t].buf == k then 1 else 0)
      + Items(Step(sys, schedule[0].0, schedule[0].1), schedule[1..], t, k)
  }

  /** Everybody is at a buffer it serves. */
  predicate Placed(sys: System) {
    && 0 < |sys.bufs| && |sys.roles| == |sys.spots|
    && forall t | 0 <= t < |sys.spots| :: SpotFits(sys.roles[t], sys.spots[t], |sys.bufs|)
  }

  lemma StepPlaced(sys: System, t: nat, item: int)
    requires Placed(sys) && Enabled(sys, t)
    ensures var sys' := Step(sys, t, item);
      Placed(sys') && sys'.roles == sys.roles && |sys'.bufs| == |sys.bufs|
  {
  }

  /** Has the call that is going on put its item in? */
  function Put(stage: Stage): nat {
    if stage.Signalling? || stage.Waking? || stage.Reentering? || stage.Exiting? then 1 else 0
  }

  /** A step of the entrepreneur: it goes on to the next buffer when it ends a call, and only then. */
  lemma EntrepreneurStep(sys: System, t: nat, item: int)
    requires Placed(sys) && Enabled(sys, t) && sys.roles[t].Entrepreneur?
    ensures var spot, spot' := sys.spots[t], Step(sys, t, item).spots[t];
      && spot'.buf == (if spot.stage.Exiting? then (spot.buf + 1) % |sys.bufs| else spot.buf)
      && Put(spot'.stage) == (if spot.stage.Exiting? then 0 else if spot.stage.Acting? then 1 else Put(spot.stage))
      && (spot.stage.Acting? ==> Put(spot.stage) == 0) && (spot.stage.Exiting? ==> Put(spot.stage) == 1)
  {
  }

  lemma OtherStep(sys: System, u: nat, item: int, t: nat)
    requires Placed(sys) && Enabled(sys, u) && t < |sys.spots| && u != t
    ensures Step(sys, u, item).spots[t] == sys.spots[t]
  {
  }

  /** Starting at buffer `s` and having completed `j` calls, the entrepreneur is at buffer `s + j`, going round. */
  lemma {:induction false} EntrepreneurAt(sys: System, schedule: seq<(nat, int)>, t: nat)
    requires Placed(sys) && Runnable(sys, schedule) && t < |sys.roles| && sys.roles[t].Entrepreneur?
    ensures |Run(sys, schedule).spots| == |sys.spots|
    ensures Run(sys, schedule).spots[t].buf == (sys.spots[t].buf + Calls(sys, schedule, t)) % |sys.bufs|
    decreases |schedule|
  {
    if schedule == [] {
      Small(sys.spots[t].buf, |sys.bufs|);
    } else {
      var (u, item) := schedule[0];
      var sys' := Step(sys, u, item);
      StepPlaced(sys, u, item);
      EntrepreneurAt(sys', schedule[1..], t);
      AfterFirst(sys, u, item, t, Calls(sys', schedule[1..], t));
    }
  }

  /** One more step in front of a run in which `j` calls are completed. */
  lemma AfterFirst(sys: System, u: nat, item: int, t: nat, j: nat)
    requires Placed(sys) && Enabled(sys, u) && t < |sys.roles| && sys.roles[t].Entrepreneur?
    ensures var s, s', n := sys.spots[t].buf, Step(sys, u, item).spots[t].buf, |sys.bufs|;
      var first := if u == t && sys.spots[t].stage.Exiting? then 1 else 0;
      (s' + j) % n == (s + (first + j)) % n
  {
    var s, n := sys.spots[t].buf, |sys.bufs|;
    if u == t {
      EntrepreneurStep(sys, t, item);
      ModAdd(s + 1, j, n);
      assert s + 1 + j == s + (1 + j);
    } else {
      OtherStep(sys, u, item, t);
    }
  }

  /** Everybody else stays at its buffer. */
  lemma {:induction false} OthersStay(sys: System, schedule: seq<(nat, int)>, t: nat)
    requires Placed(sys) && Runnable(sys, schedule) && t < |sys.roles| && !sys.roles[t].Entrepreneur?
    ensures |Run(sys, schedule).spots| == |sys.spots| && Run(sys, schedule).spots[t].buf == sys.spots[t].buf
    decreases |schedule|
  {
    if schedule != [] {
      StepPlaced(sys, schedule[0].0, schedule[0].1);
      OthersStay(Step(sys, schedule[0].0, schedule[0].1), schedule[1..], t);
    }
  }

  /** Which buffers the items of the entrepreneur went to. */
  lemma {:induction false} EntrepreneurItems(sys: System, schedule: seq<(nat, int)>, t: nat, k: nat)
    requires Placed(sys) && Runnable(sys, schedule) && t < |sys.roles| && sys.roles[t].Entrepreneur? && k < |sys.bufs|
    ensures |Run(sys, schedule).spots| == |sys.spots|
    ensures var made := Calls(sys, schedule, t) + Put(Run(sys, schedule).spots[t].stage) - Put(sys.spots[t].stage);
      && 0 <= made
      && Items(sys, schedule, t, k) == Visits(sys.spots[t].buf + Put(sys.spots[t].stage), made, k, |sys.bufs|)
    decreases |schedule|
  {
    if schedule != [] {
      var (u, item) := schedule[0];
      var sys' := Step(sys, u, item);
      StepPlaced(sys, u, item);
      EntrepreneurItems(sys', schedule[1..], t, k);
      var end := Run(sys', schedule[1..]).spots[t].stage;
      var made := Calls(sys', schedule[1..], t) + Put(end) - Put(sys'.spots[t].stage);
      FirstItem(sys, u, item, t, k, made);
    }
  }

  /** One more step in front of a run in which `made` items are made. */
  lemma FirstItem(sys: System, u: nat, item: int, t: nat, k: nat, made: nat)
    requires Placed(sys) && Enabled(sys, u) && t < |sys.roles| && sys.roles[t].Entrepreneur? && k < |sys.bufs|
    ensures var spot, spot', n := sys.spots[t], Step(sys, u, item).spots[t], |sys.bufs|;
      var ends, acts := u == t && spot.stage.Exiting?, u == t && spot.stage.Acting?;
      && Put(spot'.stage) == Put(spot.stage) + (if acts then 1 else 0) - (if ends then 1 else 0)
      && Visits(spot.buf + Put(spot.stage), made + (if acts then 1 else 0), k, n)
         == Visits(spot'.buf + Put(spot'.stage), made, k, n) + (if acts && spot.buf == k then 1 else 0)
  {
    var s, n := sys.spots[t].buf, |sys.bufs|;
    if u == t {
      EntrepreneurStep(sys, t, item);
      if sys.spots[t].stage.Exiting? {
        VisitsMod(s + 1, made, k, n);
      } else if sys.spots[t].stage.Acting? {
        FirstVisit(s, made, k, n);
      }
    } else {
      OtherStep(sys, u, item, t);
    }
  }

  /** The numbers of items the entrepreneur has made for any two buffers differ by at most one. */
  lemma EntrepreneurFair(sys: System, schedule: seq<(nat, int)>, t: nat, k: nat, k': nat)
    requires Placed(sys) && Runnable(sys, schedule) && t < |sys.roles| && sys.roles[t].Entrepreneur?
    requires k < |sys.bufs| && k' < |sys.bufs|
    ensures Items(sys, schedule, t, k) <= Items(sys, schedule, t, k') + 1
  {
    EntrepreneurItems(sys, schedule, t, k);
    EntrepreneurItems(sys, schedule, t, k');
    var made := Calls(sys, schedule, t) + Put(Run(sys, schedule).spots[t].stage) - Put(sys.spots[t].stage);
    VisitsEven(sys.spots[t].buf + Put(sys.spots[t].stage), made, k, k', |sys.bufs|);
  }

  // ---- What goes in and what comes out ----

  predicate Acts(sys: System, t: nat, x: Side, k: nat)
    requires t < |sys.spots|
  {
    sys.spots[t] == Spot(k, x, Acting)
  }

  /** The items the schedule puts into buffer `k`, in order. */
  function Puts(sys: System, schedule: seq<(nat, int)>, k: nat): seq<int>
    requires |sys.roles| == |sys.spots| && Runnable(sys, schedule)
    decreases |schedule|
  {
    if schedule == [] then []
    else
      (if Acts(sys, schedule[0].0, Produce, k) then [schedule[0].1] else [])
      + Puts(Step(sys, schedule[0].0, schedule[0].1), schedule[1..], k)
  }

  /** How many items it takes out. */
  function Takes(sys: System, schedule: seq<(nat, int)>, k: nat): nat
    requires |sys.roles| == |sys.spots| && Runnable(sys, schedule)
    decreases |schedule|
  {
    if schedule == [] then 0
    else
      (if Acts(sys, schedule[0].0, Consume, k) then 1 else 0)
      + Takes(Step(sys, schedule[0].0, schedule[0].1), schedule[1..], k)
  }

  lemma StepLogs(sys: System, t: nat, item: int, k: nat)
    requires Placed(sys) && Enabled(sys, t) && k < |sys.bufs|
    ensures var b, b' := sys.bufs[k], Step(sys, t, item).bufs[k];
      && b'.produced == b.produced + (if Acts(sys, t, Produce, k) then [item] else [])
      && |b'.consumed| == |b.consumed| + (if Acts(sys, t, Consume, k) then 1 else 0)
  {
  }

  lemma {:induction false} RunLogs(sys: System, schedule: seq<(nat, int)>, k: nat)
    requires Placed(sys) && Runnable(sys, schedule) && k < |sys.bufs|
    ensures |Run(sys, schedule).bufs| == |sys.bufs|
    ensures var b, b' := sys.bufs[k], Run(sys, schedule).bufs[k];
      && b'.produced == b.produced + Puts(sys, schedule, k)
      && |b'.consumed| == |b.consumed| + Takes(sys, schedule, k)
    decreases |schedule|
  {
    if schedule != [] {
      var (t, item) := schedule[0];
      StepPlaced(sys, t, item);
      StepLogs(sys, t, item, k);
      RunLogs(Step(sys, t, item), schedule[1..], k);
    }
  }

  /** What has come out of a buffer are the first of the items that the schedule has put in, as
      many as takes there were. */
  lemma ComesOut(sys: System, schedule: seq<(nat, int)>, k: nat)
    requires Start(sys) && Runnable(sys, schedule) && k < |sys.bufs|
    ensures |Run(sys, schedule).bufs| == |sys.bufs|
    ensures Takes(sys, schedule, k) <= |Puts(sys, schedule, k)|
    ensures Run(sys, schedule).bufs[k].consumed == Puts(sys, schedule, k)[..Takes(sys, schedule, k)]
  {
    RunLogs(sys, schedule, k);
    InOrder(sys, schedule, k);
    assert sys.bufs[k].produced == [];
  }

  lemma InOrder(sys: System, schedule: seq<(nat, int)>, k: nat)
    requires Start(sys) && Runnable(sys, schedule) && k < |sys.bufs|
    ensures |Run(sys, schedule).bufs| == |sys.bufs|
    ensures Run(sys, schedule).bufs[k].consumed <= Run(sys, schedule).bufs[k].produced
  {
    StartInv(sys);
    RunInv(sys, schedule);
  }

  // ---- What the ring shows ----

  /** Places without an item show -1. */
  ghost predicate Shows(b: Buffer) {
    forall p | 0 <= p < |b.body| :: b.body[p] == -1 || Used(b, p)
  }

  /** The place of an item that has been put in and not been taken out. */
  ghost predicate Used(b: Buffer, p: nat)
    requires p < |b.body|
  {
    exists k: nat :: |b.consumed| <= k < |b.produced| && Place(k, |b.body|) == p
  }

  lemma InsertShows(b: Buffer, item: int)
    requires RingInv(b) && WellFormed(b) && Shows(b)
    ensures Shows(Insert(b, item))
  {
    var b' := Insert(b, item);
    forall p | 0 <= p < |b'.body|
      ensures b'.body[p] == -1 || Used(b', p)
    {
      if p == b.inp {
        assert Place(|b.produced|, |b'.body|) == p;
      } else if b.body[p] != -1 {
        var k: nat :| |b.consumed| <= k < |b.produced| && Place(k, |b.body|) == p;
        assert Place(k, |b'.body|) == p;
      }
    }
  }

  lemma ExtractShows(b: Buffer)
    requires RingInv(b) && WellFormed(b) && Shows(b)
    ensures Shows(Extract(b))
  {
    var b' := Extract(b);
    forall p | 0 <= p < |b'.body|
      ensures b'.body[p] == -1 || Used(b', p)
    {
      if p != b.outp && b.body[p] != -1 {
        var k: nat :| |b.consumed| <= k < |b.produced| && Place(k, |b.body|) == p;
        assert k != |b.consumed|;
        assert Place(k, |b'.body|) == p;
      }
    }
  }

  lemma StepShows(sys: System, t: nat, item: int, k: nat)
    requires Inv(sys) && Enabled(sys, t) && k < |sys.bufs| && Shows(sys.bufs[k])
    ensures Shows(Step(sys, t, item).bufs[k])
  {
    var b, spot := sys.bufs[k], sys.spots[t];
    if spot.buf == k && spot.stage.Acting? {
      if spot.side == Produce {
        InsertShows(b, item);
      } else {
        ExtractShows(b);
      }
    } else {
      SameRing(sys, t, item, k);
    }
  }

  lemma SameRing(sys: System, t: nat, item: int, k: nat)
    requires Placed(sys) && Enabled(sys, t) && k < |sys.bufs| && !(sys.spots[t].buf == k && sys.spots[t].stage.Acting?)
    requires Shows(sys.bufs[k])
    ensures Shows(Step(sys, t, item).bufs[k])
  {
    var b, b' := sys.bufs[k], Step(sys, t, item).bufs[k];
    assert b'.body == b.body && b'.produced == b.produced && b'.consumed == b.consumed;
    forall p | 0 <= p < |b'.body|
      ensures b'.body[p] == -1 || Used(b', p)
    {
      assert b.body[p] == -1 || Used(b, p);
    }
  }

  /** Over every schedule, a place of the ring that holds no item shows -1. */
  lemma {:induction false} RunShows(sys: System, schedule: seq<(nat, int)>, k: nat)
    requires Inv(sys) && Runnable(sys, schedule) && k < |sys.bufs| && Shows(sys.bufs[k])
    ensures |Run(sys, schedule).bufs| == |sys.bufs| && Shows(Run(sys, schedule).bufs[k])
    decreases |schedule|
  {
    if schedule != [] {
      var (t, item) := schedule[0];
      StepKeeps(sys, t, item);
      StepShows(sys, t, item, k);
      RunShows(Step(sys, t, item), schedule[1..], k);
    }
  }
}
