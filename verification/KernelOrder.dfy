/** In what order processes stand in the queues of the kernel, whatever happens meanwhile. */
module KernelOrder {
  import opened KernelAnswers
  import opened KernelCalls
  import opened KernelEvents
  import opened KernelInvariant
  import opened KernelRuns
  import opened KernelSpec
  import opened KernelSteps
  import opened Options
  import opened Queues

  /** Process `x` stands somewhere in front of `y`. */
  ghost predicate Before(q: seq<nat>, x: nat, y: nat) {
    exists i, j :: 0 <= i < j < |q| && q[i] == x && q[j] == y
  }

  /** Those who stay in the queue keep their order, and those who join stand behind all of them,
      or in front of all of them. Who leaves and comes back, such as `again`, joins. */
  ghost predicate Orderly(q: seq<nat>, q': seq<nat>, again: set<nat>, front: bool) {
    && (forall x, y | x in q && x in q' && x !in again && y in q && y in q' && y !in again && Before(q, x, y) ::
          Before(q', x, y))
    && (forall x, y | x in q' && (x !in q || x in again) && y in q && y in q' && y !in again ::
          if front then Before(q', x, y) else Before(q', y, x))
  }

  lemma {:induction false} RemoveBefore(q: seq<nat>, p: nat, x: nat, y: nat)
    requires Before(q, x, y) && x != p && y != p
    ensures Before(Remove(q, p), x, y)
  {
    var i, j :| 0 <= i < j < |q| && q[i] == x && q[j] == y;
    if q[0] == p {
      assert q[1..][i - 1] == x && q[1..][j - 1] == y;
    } else if i == 0 {
      RemoveHas(q[1..], p, y, j - 1);
      var j' :| 0 <= j' < |Remove(q[1..], p)| && Remove(q[1..], p)[j'] == y;
      assert Remove(q, p)[0] == x && Remove(q, p)[j' + 1] == y;
    } else {
      assert q[1..][i - 1] == x && q[1..][j - 1] == y;
      RemoveBefore(q[1..], p, x, y);
      var i', j' :| 0 <= i' < j' < |Remove(q[1..], p)| && Remove(q[1..], p)[i'] == x && Remove(q[1..], p)[j'] == y;
      assert Remove(q, p)[i' + 1] == x && Remove(q, p)[j' + 1] == y;
    }
  }

  lemma {:induction false} RemoveHas(q: seq<nat>, p: nat, y: nat, j: nat)
    requires j < |q| && q[j] == y && y != p
    ensures exists j' :: 0 <= j' < |Remove(q, p)| && Remove(q, p)[j'] == y
  {
    if q[0] == p {
      assert Remove(q, p)[j - 1] == y;
    } else if j == 0 {
      assert Remove(q, p)[0] == y;
    } else {
      RemoveHas(q[1..], p, y, j - 1);
      var j' :| 0 <= j' < |Remove(q[1..], p)| && Remove(q[1..], p)[j'] == y;
      assert Remove(q, p)[j' + 1] == y;
    }
  }

  lemma OrderlyRemove(q: seq<nat>, p: nat, front: bool)
    requires Distinct(q)
    ensures Orderly(q, Remove(q, p), {}, front)
  {
    RemoveMeaning(q, p);
    forall x, y | x in q && x in Remove(q, p) && y in q && y in Remove(q, p) && Before(q, x, y)
      ensures Before(Remove(q, p), x, y)
    {
      RemoveBefore(q, p, x, y);
    }
  }

  lemma OrderlyAppend(q: seq<nat>, p: nat)
    requires p !in q
    ensures Orderly(q, q + [p], {}, false)
  {
    var q' := q + [p];
    forall x, y | Before(q, x, y)
      ensures Before(q', x, y)
    {
      var i, j :| 0 <= i < j < |q| && q[i] == x && q[j] == y;
      assert q'[i] == x && q'[j] == y;
    }
    forall y | y in q
      ensures Before(q', y, p)
    {
      var j :| 0 <= j < |q| && q[j] == y;
      assert q'[j] == y && q'[|q|] == p;
    }
  }

  lemma OrderlyPush(q: seq<nat>, p: nat)
    requires p !in q
    ensures Orderly(q, [p] + q, {}, true)
  {
    var q' := [p] + q;
    forall x, y | Before(q, x, y)
      ensures Before(q', x, y)
    {
      var i, j :| 0 <= i < j < |q| && q[i] == x && q[j] == y;
      assert q'[i + 1] == x && q'[j + 1] == y;
    }
    forall y | y in q
      ensures Before(q', p, y)
    {
      var j :| 0 <= j < |q| && q[j] == y;
      assert q'[0] == p && q'[j + 1] == y;
    }
  }

  /** Nobody comes back who has left on the way. */
  lemma OrderlyThen(q: seq<nat>, q1: seq<nat>, q2: seq<nat>, front: bool)
    requires Orderly(q, q1, {}, front) && Orderly(q1, q2, {}, front)
    requires forall x | x in q && x in q2 :: x in q1
    ensures Orderly(q, q2, {}, front)
  {
  }

  /** One leaves and comes back: it stands last. */
  lemma OrderlyAgain(q: seq<nat>, p: nat)
    requires Distinct(q)
    ensures Orderly(q, Remove(q, p) + [p], {p}, false)
  {
    RemoveMeaning(q, p);
    OrderlyRemove(q, p, false);
    OrderlyAppend(Remove(q, p), p);
  }

  // ---- The ready queues ----

  /** Tasks and servers join at the end, user processes in front. */
  ghost predicate LinesOrderly(k: Kernel, k': Kernel, again: set<nat>) {
    |k.rq| == 3 && |k'.rq| == 3 && forall i | 0 <= i < 3 :: Orderly(k.rq[i], k'.rq[i], again, i == 2)
  }

  ghost predicate NoneTwice(k: Kernel) {
    |k.rq| == 3 && forall i | 0 <= i < 3 :: Distinct(k.rq[i])
  }

  lemma ReadyOrderly(k: Kernel, p: nat)
    requires NoneTwice(k) && p < |k.procs| && forall i | 0 <= i < 3 :: p !in k.rq[i]
    ensures LinesOrderly(k, Ready(k, p), {})
    ensures forall i | 0 <= i < 3 :: forall x | x in k.rq[i] :: x in Ready(k, p).rq[i]
  {
    forall i | 0 <= i < 3
      ensures Orderly(k.rq[i], Ready(k, p).rq[i], {}, i == 2)
      ensures forall x | x in k.rq[i] :: x in Ready(k, p).rq[i]
    {
      OrderlyAppend(k.rq[i], p);
      OrderlyPush(k.rq[i], p);
    }
  }

  lemma UnreadyOrderly(k: Kernel, p: nat)
    requires NoneTwice(k) && p < |k.procs|
    ensures LinesOrderly(k, Unready(k, p), {})
  {
    forall i | 0 <= i < 3
      ensures Orderly(k.rq[i], Unready(k, p).rq[i], {}, i == 2)
    {
      OrderlyRemove(k.rq[i], p, i == 2);
    }
  }

  /** The first part only lets processes join. */
  lemma JoinedThen(k: Kernel, k1: Kernel, k2: Kernel)
    requires LinesOrderly(k, k1, {}) && LinesOrderly(k1, k2, {})
    requires forall i | 0 <= i < 3 :: forall x | x in k.rq[i] :: x in k1.rq[i]
    ensures LinesOrderly(k, k2, {})
  {
    forall i | 0 <= i < 3
      ensures Orderly(k.rq[i], k2.rq[i], {}, i == 2)
    {
      OrderlyThen(k.rq[i], k1.rq[i], k2.rq[i], i == 2);
    }
  }

  lemma CoreTwice(k: Kernel, p: nat)
    requires Shape(k) && LinesOk(k.cfg, k.procs, k.rq) && p < |k.procs|
    ensures NoneTwice(k) && (!Runs(k.cfg, p, k.procs[p]) ==> forall i | 0 <= i < 3 :: p !in k.rq[i])
  {
    assert forall i | 0 <= i < 3 :: LineAt(k.cfg, k.procs, k.rq[i], i);
  }

  lemma DeliverOrderly(k: Kernel, c: nat, d: nat, body: Body)
    requires Core(k) && d < |k.procs| && k.procs[d].Accepts(c)
    ensures LinesOrderly(k, Deliver(k, c, d, body), {})
    ensures forall i | 0 <= i < 3 :: forall x | x in k.rq[i] :: x in Deliver(k, c, d, body).rq[i]
  {
    CoreTwice(k, d);
    ReadyOrderly(SetProc(k, d, k.procs[d].(buf := Message(c, body), receiving := false)), d);
  }

  lemma BlockOrderly(k: Kernel, c: nat, d: nat, body: Body, src: Source)
    requires Core(k) && c < |k.procs| && d < |k.procs|
    ensures LinesOrderly(k, BlockSender(k, c, d, body), {}) && LinesOrderly(k, BlockReceiver(k, c, src), {})
    ensures BlockReceiver(BlockSender(k, c, d, body), c, src).rq == BlockSender(k, c, d, body).rq
  {
    CoreTwice(k, c);
    UnreadyOrderly(k, c);
  }

  lemma AcceptOrderly(k: Kernel, c: nat, s: nat)
    requires Core(k) && c < |k.procs| && s < |k.procs| && k.procs[s].sending
    ensures LinesOrderly(k, Accept(k, c, s), {})
  {
    CoreTwice(k, s);
    var k1 := SetProc(k, c, k.procs[c].(buf := Message(s, k.procs[s].buf.body)));
    var k2 := SetProc(k1, s, k1.procs[s].(sending := false)).(callers := k.callers[c := Remove(k.callers[c], s)]);
    ReadyOrderly(k2, s);
  }

  /** MM joins the servers when it is told of signals; nothing else moves. */
  lemma InformLines(k: Kernel)
    requires Core(k) && MmIdle(k) && 0 < k.sigProcs
    ensures Inform(k).rq == k.rq[SERVER_Q := k.rq[SERVER_Q] + [k.cfg.Mm()]] && k.cfg.Mm() !in k.rq[SERVER_Q]
  {
    PendingFound(k);
    InformIs(k, FirstPending(k.procs, k.cfg.nrTasks).value);
    MmTakesAtOnce(k);
    assert SlotOk(k.cfg, k.cfg.Mm(), k.procs[k.cfg.Mm()], k.handed[k.cfg.Mm()]);
    assert LineAt(k.cfg, k.procs, k.rq[SERVER_Q], SERVER_Q);
  }

  /** MM has asked for any message and returns with signals. */
  predicate AskedAndTold(k: Kernel, k': Kernel, c: nat, src: Source) {
    && c == k.cfg.nrTasks && src == Any && c < |k'.procs| && !k'.procs[c].receiving
    && k'.procs[c].buf.source == k.cfg.hardware && k'.procs[c].buf.body.KernelSignals?
  }

  function Again(k: Kernel, k': Kernel, c: nat, src: Source): set<nat> {
    if AskedAndTold(k, k', c, src) then {c} else {}
  }

  lemma ReceiveOrderly(k: Kernel, c: nat, src: Source)
    requires Inv(k) && c < |k.procs| && Runs(k.cfg, c, k.procs[c]) && !k.procs[c].prio.User?
    ensures LinesOrderly(k, MiniRec(k, c, src), Again(k, MiniRec(k, c, src), c, src))
  {
    WantedIn(k.callers[c], src);
    CoreTwice(k, c);
    if Wanted(k.callers[c], src).Some? {
      var s := Wanted(k.callers[c], src).value;
      WaitingSender(k, c, s);
      assert SlotOk(k.cfg, s, k.procs[s], k.handed[s]);
      AcceptOrderly(k, c, s);
    } else if k.procs[c].intBlocked && RxHardware(k.cfg, src) {
      SameOrderly(k, MiniRec(k, c, src));
    } else {
      WaitOrderly(k, c, src);
    }
  }

  lemma SameOrderly(k: Kernel, k': Kernel)
    requires NoneTwice(k) && k'.rq == k.rq
    ensures LinesOrderly(k, k', {})
  {
  }

  lemma WaitOrderly(k: Kernel, c: nat, src: Source)
    requires Inv(k) && c < |k.procs| && Runs(k.cfg, c, k.procs[c]) && !k.procs[c].prio.User?
    requires RxHardware(k.cfg, src) ==> !k.procs[c].intBlocked
    ensures var k1 := BlockReceiver(k, c, src);
      var k' := if 0 < k.sigProcs && c == k.cfg.Mm() && src == Any then Inform(k1) else k1;
      LinesOrderly(k, k', Again(k, k', c, src))
  {
    var k1 := BlockReceiver(k, c, src);
    CoreTwice(k, c);
    BlockOrderly(k, c, c, Plain(0), src);
    if 0 < k.sigProcs && c == k.cfg.Mm() && src == Any {
      BlockReceiverKeeps(k, c, src);
      ToldOrderly(k, k1);
    }
  }

  lemma ToldOrderly(k: Kernel, k1: Kernel)
    requires Core(k) && Core(k1) && k1 == BlockReceiver(k, k.cfg.Mm(), Any) && MmIdle(k1) && 0 < k1.sigProcs
    requires Runs(k.cfg, k.cfg.Mm(), k.procs[k.cfg.Mm()]) && NoneTwice(k)
    ensures LinesOrderly(k, Inform(k1), Again(k, Inform(k1), k.cfg.Mm(), Any))
  {
    var mm, k' := k.cfg.Mm(), Inform(k1);
    var q := InformProcs(k1);
    InformLines(k1);
    assert SlotOk(k.cfg, mm, k.procs[mm], k.handed[mm]);
    assert AskedAndTold(k, k', mm, Any);
    OrderlyAgain(k.rq[SERVER_Q], mm);
    assert LineAt(k.cfg, k.procs, k.rq[TASK_Q], TASK_Q) && LineAt(k.cfg, k.procs, k.rq[USER_Q], USER_Q);
    assert k'.rq[TASK_Q] == k.rq[TASK_Q] && k'.rq[USER_Q] == k.rq[USER_Q];
  }

  lemma ExchangeOrderly(k: Kernel, d: nat, body: Body)
    requires Inv(k) && k.cur < |k.procs| && Runs(k.cfg, k.cur, k.procs[k.cur])
    requires d < |k.procs| && d != k.cur && MiniSend(k, k.cur, d, body, true).1 == OK
    ensures LinesOrderly(k, MiniRec(MiniSend(k, k.cur, d, body, true).0, k.cur, From(d)), {})
  {
    var c := k.cur;
    var k1 := MiniSend(k, c, d, body, true).0;
    if k.procs[d].Accepts(c) {
      DeliverOrderly(k, c, d, body);
      DeliverKeeps(k, c, d, body);
      if k.procs[c].prio.User? {
        TakenFromUser(k, c, d, body);
        BlockOrderly(k1, c, d, body, From(d));
      } else {
        TakenFromServer(k, c, d, body);
        ReceiveOrderly(k1, c, From(d));
      }
      JoinedThen(k, k1, MiniRec(k1, c, From(d)));
    } else {
      BlockOrderly(k, c, d, body, From(d));
    }
  }

  lemma SendOrderly(k: Kernel, c: nat, d: nat, body: Body)
    requires Core(k) && c < |k.procs| && d < |k.procs| && MiniSend(k, c, d, body, true).1 == OK
    ensures LinesOrderly(k, MiniSend(k, c, d, body, true).0, {})
  {
    if k.procs[d].Accepts(c) {
      DeliverOrderly(k, c, d, body);
    } else {
      BlockOrderly(k, c, d, body, Any);
    }
  }

  lemma CallOrderly(k: Kernel, f: Function, src: Source, body: Body, inside: bool)
    requires Inv(k) && Legal(k, Call(f, src, body, inside))
    ensures var k' := SysCall(k, f, src, body, inside).0;
      LinesOrderly(k, k', if f == Receive then Again(k, k', k.cur, src) else {})
  {
    CurrentRuns(k);
    CoreTwice(k, k.cur);
    CallReplies(k, f, src, body, inside);
    assert SlotOk(k.cfg, k.cur, k.procs[k.cur], k.handed[k.cur]);
    if SysCall(k, f, src, body, inside).1 != OK {
      SameOrderly(k, k);
    } else if f == Receive {
      ReceiveOrderly(k, k.cur, src);
    } else if f == Both {
      ExchangeOrderly(k, src.p, body);
    } else {
      SendOrderly(k, k.cur, src.p, body);
    }
  }

  lemma CauseOrderly(k: Kernel, p: nat, sig: nat)
    requires Inv(k) && IsUser(k, p)
    ensures LinesOrderly(k, CauseSig(k, p, sig), {})
  {
    CoreTwice(k, p);
    if sig in k.procs[p].signals || k.procs[p].pending {
      SameOrderly(k, CauseSig(k, p, sig));
    } else {
      var noted := Noted(k.procs[p], sig);
      assert SlotOk(k.cfg, p, k.procs[p], k.handed[p]);
      NotedOk(k.cfg, p, k.procs[p], k.handed[p], sig);
      StoppedTables(k, p, noted);
      StopOrderly(k, p, noted);
    }
  }

  lemma StopOrderly(k: Kernel, p: nat, noted: Proc)
    requires Inv(k) && IsUser(k, p) && NoneTwice(k) && Core(Stopped(k, p, noted)) && noted.prio == k.procs[p].prio
    requires 0 < Stopped(k, p, noted).sigProcs
    ensures var k1 := Stopped(k, p, noted); LinesOrderly(k, if MmIdle(k1) then Inform(k1) else k1, {})
  {
    var k1 := Stopped(k, p, noted);
    UnreadyOrderly(SetProc(k, p, noted), p);
    assert k1.rq == k.rq[USER_Q := k1.rq[USER_Q]];
    if MmIdle(k1) {
      InformLines(k1);
      OrderlyAppend(k.rq[SERVER_Q], k.cfg.Mm());
      assert Inform(k1).rq[USER_Q] == k1.rq[USER_Q] && Inform(k1).rq[TASK_Q] == k.rq[TASK_Q];
    }
  }

  lemma InterruptOrderly(k: Kernel, t: nat, busy: bool)
    requires Core(k) && t < |k.procs|
    ensures LinesOrderly(k, Interrupt(k, t, busy), {})
  {
    var proc := k.procs[t];
    CoreTwice(k, t);
    if busy || !proc.receiving || proc.sending || !RxHardware(k.cfg, proc.getfrom) {
      SameOrderly(k, Interrupt(k, t, busy));
    } else {
      ReadyOrderly(SetProc(k, t, proc.(buf := Message(k.cfg.hardware, HardInt), receiving := false,
                                       intBlocked := false)), t);
    }
  }

  lemma UnholdOrderly(k: Kernel)
    requires Core(k) && k.held != [] && k.held[0] < |k.procs|
    ensures LinesOrderly(k, UnholdOne(k), {})
  {
    var t := k.held[0];
    UnholdKeeps(k);
    InterruptOrderly(SetProc(k, t, k.procs[t].(intHeld := false)).(held := k.held[1..]), t, false);
  }

  lemma EndsigOrderly(k: Kernel, p: nat)
    requires Inv(k) && Endable(k, p)
    ensures LinesOrderly(k, DoEndsig(k, p).0, {})
  {
    var proc := k.procs[p];
    CoreTwice(k, p);
    if proc.prio.Unused? || proc.pendcount == 0 || DoEndsig(k, p).0.rq == k.rq {
      SameOrderly(k, DoEndsig(k, p).0);
    } else {
      assert SlotOk(k.cfg, p, proc, k.handed[p]);
      ReadyOrderly(SetProc(k, p, Ended(proc)).(handed := k.handed[p := k.handed[p] - 1]), p);
    }
  }

  lemma LifeOrderly(k: Kernel, p: nat)
    requires Inv(k) && p < |k.procs|
    ensures LinesOrderly(k, DoXit(k, p), {}) && LinesOrderly(k, DoNewmap(k, p), {})
  {
    CoreTwice(k, p);
    UnreadyOrderly(k, p);
    if !k.procs[p].Runnable() {
      ReadyOrderly(SetProc(k, p, k.procs[p].(noMap := false)), p);
    }
  }

  /** Who stands in a ready queue after an entry other than the clock's: those who were there and
      stay, in the order they had; tasks and servers that join behind all of them, user
      processes in front. MM joins anew when its own receive returns with signals. */
  lemma StepOrderly(k: Kernel, op: Op)
    requires Inv(k) && Legal(k, op) && !op.Tick?
    ensures LinesOrderly(k, Step(k, op),
                         if op.Call? && op.f == Receive then Again(k, Step(k, op), k.cur, op.src) else {})
  {
    CoreTwice(k, 0);
    match op
    case Call(f, src, body, inside) => CallOrderly(k, f, src, body, inside);
    case Irq(t, busy) => InterruptOrderly(k, t, busy);
    case Unhold => UnholdOrderly(k);
    case Signal(p, sig) => CauseOrderly(k, p, sig);
    case EndSignal(p) => EndsigOrderly(k, p);
    case Fork(parent, child, pid) => SameOrderly(k, Step(k, op));
    case Exit(p) => LifeOrderly(k, p);
    case NewMap(p) => LifeOrderly(k, p);
    case SetPriority(pid, priority) => SameOrderly(k, Step(k, op));
  }

  // ---- The caller queues ----

  ghost predicate CallersOrderly(k: Kernel, k': Kernel) {
    |k'.callers| == |k.callers| && forall d | 0 <= d < |k.callers| :: Orderly(k.callers[d], k'.callers[d], {}, false)
  }

  lemma SameCallers(k: Kernel, k': Kernel)
    requires k'.callers == k.callers && CallersOk(k.procs, k.callers)
    ensures CallersOrderly(k, k')
  {
  }

  lemma JoinsCallers(k: Kernel, c: nat, d: nat, k': Kernel)
    requires CallersOk(k.procs, k.callers) && c < |k.procs| && d < |k.procs| && !k.procs[c].sending
    requires k'.callers == k.callers[d := k.callers[d] + [c]]
    ensures CallersOrderly(k, k')
  {
    assert CallersAt(k.procs, k.callers[d], d);
    OrderlyAppend(k.callers[d], c);
  }

  lemma LeavesCallers(k: Kernel, s: nat, d: nat, k': Kernel)
    requires CallersOk(k.procs, k.callers) && d < |k.procs|
    requires k'.callers == k.callers[d := Remove(k.callers[d], s)]
    ensures CallersOrderly(k, k')
  {
    assert CallersAt(k.procs, k.callers[d], d);
    OrderlyRemove(k.callers[d], s, false);
  }

  lemma ReceiveCallers(k: Kernel, c: nat, src: Source)
    requires Inv(k) && c < |k.procs| && Runs(k.cfg, c, k.procs[c]) && !k.procs[c].prio.User?
    ensures CallersOrderly(k, MiniRec(k, c, src))
  {
    WantedIn(k.callers[c], src);
    if Wanted(k.callers[c], src).Some? {
      var s := Wanted(k.callers[c], src).value;
      WaitingSender(k, c, s);
      LeavesCallers(k, s, c, MiniRec(k, c, src));
    } else if k.procs[c].intBlocked && RxHardware(k.cfg, src) {
      SameCallers(k, MiniRec(k, c, src));
    } else {
      var k1 := BlockReceiver(k, c, src);
      if 0 < k.sigProcs && c == k.cfg.Mm() && src == Any {
        BlockReceiverKeeps(k, c, src);
        var q := InformProcs(k1);
      }
      SameCallers(k, MiniRec(k, c, src));
    }
  }

  lemma AnswerCallers(k: Kernel, d: nat, body: Body)
    requires Inv(k) && k.cur < |k.procs| && Runs(k.cfg, k.cur, k.procs[k.cur])
    requires d < |k.procs| && d != k.cur && k.procs[d].Accepts(k.cur)
    requires k.procs[k.cur].prio.User? ==> d == k.cfg.Mm() || d == k.cfg.Fs()
    ensures var k1 := Deliver(k, k.cur, d, body); Shape(k1) && CallersOrderly(k, MiniRec(k1, k.cur, From(d)))
  {
    var c := k.cur;
    var k1 := Deliver(k, c, d, body);
    assert k1.callers == k.callers;
    if k.procs[c].prio.User? {
      TakenFromUser(k, c, d, body);
      SameCallers(k, MiniRec(k1, c, From(d)));
    } else {
      TakenFromServer(k, c, d, body);
      ReceiveCallers(k1, c, From(d));
    }
  }

  lemma CallCallers(k: Kernel, f: Function, src: Source, body: Body, inside: bool)
    requires Inv(k) && Legal(k, Call(f, src, body, inside))
    ensures CallersOrderly(k, SysCall(k, f, src, body, inside).0)
  {
    CurrentRuns(k);
    CallReplies(k, f, src, body, inside);
    var k' := SysCall(k, f, src, body, inside).0;
    if SysCall(k, f, src, body, inside).1 != OK {
      SameCallers(k, k');
    } else if f == Receive {
      ReceiveCallers(k, k.cur, src);
    } else if k.procs[src.p].Accepts(k.cur) {
      if f == Both {
        AnswerCallers(k, src.p, body);
      } else {
        SameCallers(k, k');
      }
    } else {
      JoinsCallers(k, k.cur, src.p, k');
    }
  }

  /** Who waits to send to a process: those who stay keep their order, who joins stands last. */
  lemma StepCallers(k: Kernel, op: Op)
    requires Inv(k) && Legal(k, op)
    ensures CallersOrderly(k, Step(k, op))
  {
    match op
    case Call(f, src, body, inside) => CallCallers(k, f, src, body, inside);
    case Irq(t, busy) => SameCallers(k, Step(k, op));
    case Unhold => SameCallers(k, Step(k, op));
    case Tick => SameCallers(k, Step(k, op));
    case Signal(p, sig) => SignalCallers(k, p, sig);
    case EndSignal(p) => SameCallers(k, Step(k, op));
    case Fork(parent, child, pid) =>
      ForkChild(k, parent, child, pid);
      SameCallers(k, Step(k, op));
    case Exit(p) =>
      if k.procs[p].sending {
        LeavesCallers(k, p, k.procs[p].sendto, Step(k, op));
      } else {
        SameCallers(k, Step(k, op));
      }
    case NewMap(p) => SameCallers(k, Step(k, op));
    case SetPriority(pid, priority) => SameCallers(k, Step(k, op));
  }

  lemma SignalCallers(k: Kernel, p: nat, sig: nat)
    requires Inv(k) && IsUser(k, p)
    ensures CallersOrderly(k, CauseSig(k, p, sig))
  {
    if sig !in k.procs[p].signals && !k.procs[p].pending {
      var noted := Noted(k.procs[p], sig);
      assert SlotOk(k.cfg, p, k.procs[p], k.handed[p]);
      NotedOk(k.cfg, p, k.procs[p], k.handed[p], sig);
      StoppedTables(k, p, noted);
      if MmIdle(Stopped(k, p, noted)) {
        var q := InformProcs(Stopped(k, p, noted));
      }
    }
    SameCallers(k, CauseSig(k, p, sig));
  }

  // ---- The held queue ----

  /** Held-up interrupts are repeated in the order in which they came. */
  lemma StepHeld(k: Kernel, op: Op)
    requires Inv(k) && Legal(k, op)
    ensures Step(k, op).held ==
      if op.Irq? && op.busy && op.t !in k.held then k.held + [op.t]
      else if op.Unhold? then k.held[1..]
      else k.held
  {
    match op
    case Call(f, src, body, inside) => CallHeld(k, f, src, body, inside);
    case Signal(p, sig) =>
      if sig !in k.procs[p].signals && !k.procs[p].pending {
        var noted := Noted(k.procs[p], sig);
        assert SlotOk(k.cfg, p, k.procs[p], k.handed[p]);
        NotedOk(k.cfg, p, k.procs[p], k.handed[p], sig);
        StoppedTables(k, p, noted);
        if MmIdle(Stopped(k, p, noted)) {
          var q := InformProcs(Stopped(k, p, noted));
        }
      }
    case _ =>
  }

  lemma ReceiveHeld(k: Kernel, c: nat, src: Source)
    requires Core(k) && c < |k.procs|
    requires Runs(k.cfg, c, k.procs[c]) || (k.procs[c].sending && src == From(k.procs[c].sendto))
    ensures MiniRec(k, c, src).held == k.held
  {
    var wanted := if k.procs[c].sending then None else Wanted(k.callers[c], src);
    if wanted.None? && !(!k.procs[c].sending && k.procs[c].intBlocked && RxHardware(k.cfg, src)) {
      BlockReceiverKeeps(k, c, src);
      if 0 < k.sigProcs && c == k.cfg.Mm() && src == Any {
        var q := InformProcs(BlockReceiver(k, c, src));
      }
    }
  }

  lemma CallHeld(k: Kernel, f: Function, src: Source, body: Body, inside: bool)
    requires Inv(k) && Legal(k, Call(f, src, body, inside))
    ensures SysCall(k, f, src, body, inside).0.held == k.held
  {
    CurrentRuns(k);
    CallReplies(k, f, src, body, inside);
    if SysCall(k, f, src, body, inside).1 == OK {
      if f == Receive {
        ReceiveHeld(k, k.cur, src);
      } else {
        SendExact(k, k.cur, src.p, body);
        if f == Both {
          ReceiveHeld(MiniSend(k, k.cur, src.p, body, true).0, k.cur, src);
        }
      }
    }
  }
}
