/** Whose account the time goes on. */
module KernelBilling {
  import opened KernelAnswers
  import opened KernelCalls
  import opened KernelEvents
  import opened KernelInvariant
  import opened KernelRuns
  import opened KernelSpec
  import opened KernelSteps
  import opened Queues

  /** Who runs when no task and no server is ready. */
  function NextUser(k: Kernel): nat
    requires |k.rq| == 3
  {
    if k.rq[2] == [] then k.cfg.idle else k.rq[2][0]
  }

  /** While a user process or the idle process runs, it is the one that is billed. */
  predicate Billed(k: Kernel) {
    |k.rq| == 3 && (k.rq[0] == [] && k.rq[1] == [] ==> k.bill == k.cur)
  }

  /** The bill stays where it is, or goes to the user process that is next. */
  predicate Bills(k: Kernel, k': Kernel) {
    |k.rq| == 3 && |k'.rq| == 3 && (Billed(k) ==> Billed(k')) && (k'.bill == k.bill || k'.bill == NextUser(k'))
  }

  lemma ReadyBills(k: Kernel, p: nat)
    requires |k.rq| == 3 && p < |k.procs|
    ensures Bills(k, Ready(k, p)) && Ready(k, p).bill == k.bill
  {
  }

  lemma UnreadyBills(k: Kernel, p: nat)
    requires Settled(k) && p < |k.procs|
    ensures Bills(k, Unready(k, p))
  {
    var q := QueueOf(k.procs[p].prio);
    var line := k.rq[q];
    if line != [] && line[0] != p {
      assert Remove(line, p) != [] && Remove(line, p)[0] == line[0];
    }
  }

  lemma DeliverBills(k: Kernel, c: nat, d: nat, body: Body)
    requires |k.rq| == 3 && d < |k.procs|
    ensures Bills(k, Deliver(k, c, d, body)) && Deliver(k, c, d, body).bill == k.bill
  {
    ReadyBills(SetProc(k, d, k.procs[d].(buf := Message(c, body), receiving := false)), d);
  }

  lemma BlockBills(k: Kernel, c: nat, d: nat, body: Body, src: Source)
    requires Settled(k) && c < |k.procs| && d < |k.callers|
    ensures Bills(k, BlockSender(k, c, d, body)) && Bills(k, BlockReceiver(k, c, src))
    ensures var k1 := BlockSender(k, c, d, body);
      var k2 := BlockReceiver(k1, c, src); k2.rq == k1.rq && k2.cur == k1.cur && k2.bill == k1.bill && k2.cfg == k1.cfg
  {
    UnreadyBills(k, c);
  }

  lemma AcceptBills(k: Kernel, c: nat, s: nat)
    requires |k.rq| == 3 && c < |k.procs| && |k.callers| == |k.procs| && s < |k.procs|
    ensures Bills(k, Accept(k, c, s))
  {
    var k1 := SetProc(k, c, k.procs[c].(buf := Message(s, k.procs[s].buf.body)));
    var k2 := SetProc(k1, s, k1.procs[s].(sending := false)).(callers := k.callers[c := Remove(k.callers[c], s)]);
    ReadyBills(k2, s);
  }

  lemma InformBills(k: Kernel)
    requires Core(k) && MmIdle(k) && 0 < k.sigProcs
    ensures Bills(k, Inform(k)) && Inform(k).rq[USER_Q] == k.rq[USER_Q]
    ensures Inform(k).bill == k.bill
  {
    PendingFound(k);
    var p := FirstPending(k.procs, k.cfg.nrTasks).value;
    InformIs(k, p);
    MmTakesAtOnce(k);
    assert SlotOk(k.cfg, k.cfg.Mm(), k.procs[k.cfg.Mm()], k.handed[k.cfg.Mm()]);
    DeliverBills(k, k.cfg.hardware, k.cfg.Mm(), KernelSignals(p, k.procs[p].signals));
  }

  lemma ReceiveBills(k: Kernel, c: nat, src: Source)
    requires Inv(k) && c < |k.procs| && Runs(k.cfg, c, k.procs[c]) && !k.procs[c].prio.User?
    ensures Bills(k, MiniRec(k, c, src))
  {
    WantedIn(k.callers[c], src);
    if Wanted(k.callers[c], src).Some? {
      WaitingSender(k, c, Wanted(k.callers[c], src).value);
      AcceptBills(k, c, Wanted(k.callers[c], src).value);
    } else if !(k.procs[c].intBlocked && RxHardware(k.cfg, src)) {
      BlockBills(k, c, c, Plain(0), src);
      if 0 < k.sigProcs && c == k.cfg.Mm() && src == Any {
        BlockReceiverKeeps(k, c, src);
        InformBills(BlockReceiver(k, c, src));
      }
    }
  }

  lemma AnswerBills(k: Kernel, d: nat, body: Body)
    requires Inv(k) && k.cur < |k.procs| && Runs(k.cfg, k.cur, k.procs[k.cur])
    requires d < |k.procs| && d != k.cur && k.procs[d].Accepts(k.cur)
    requires k.procs[k.cur].prio.User? ==> d == k.cfg.Mm() || d == k.cfg.Fs()
    ensures var k1 := Deliver(k, k.cur, d, body); Shape(k1) && Bills(k, MiniRec(k1, k.cur, From(d)))
  {
    var c := k.cur;
    var k1 := Deliver(k, c, d, body);
    DeliverBills(k, c, d, body);
    if k.procs[c].prio.User? {
      TakenFromUser(k, c, d, body);
      UserWaits(k, k1, c, d);
    } else {
      TakenFromServer(k, c, d, body);
      ReceiveBills(k1, c, From(d));
    }
  }

  /** The receiver that the running user process has woken is next, or someone more urgent. */
  lemma UserWaits(k: Kernel, k1: Kernel, c: nat, d: nat)
    requires |k.rq| == 3 && |k1.rq| == 3 && c < |k1.procs| && k1.bill == k.bill && k1.cfg == k.cfg
    requires k1.procs[c].prio.User? && k1.procs[c].Runnable() && k1.rq[USER_Q] != [] && k1.rq[USER_Q][0] == c
    ensures Bills(k, BlockReceiver(k1, c, From(d)))
  {
  }

  lemma CallBills(k: Kernel, f: Function, src: Source, body: Body, inside: bool)
    requires Inv(k) && Legal(k, Call(f, src, body, inside))
    ensures Bills(k, SysCall(k, f, src, body, inside).0)
  {
    CurrentRuns(k);
    CallReplies(k, f, src, body, inside);
    if SysCall(k, f, src, body, inside).1 == OK {
      if f == Receive {
        ReceiveBills(k, k.cur, src);
      } else if !k.procs[src.p].Accepts(k.cur) {
        BlockBills(k, k.cur, src.p, body, src);
      } else if f == Both {
        AnswerBills(k, src.p, body);
      } else {
        DeliverBills(k, k.cur, src.p, body);
      }
    }
  }

  lemma SignalBills(k: Kernel, p: nat, sig: nat)
    requires Inv(k) && IsUser(k, p)
    ensures Bills(k, CauseSig(k, p, sig))
  {
    if sig !in k.procs[p].signals && !k.procs[p].pending {
      var noted := Noted(k.procs[p], sig);
      assert SlotOk(k.cfg, p, k.procs[p], k.handed[p]);
      NotedOk(k.cfg, p, k.procs[p], k.handed[p], sig);
      StoppedTables(k, p, noted);
      UnreadyBills(SetProc(k, p, noted), p);
      if MmIdle(Stopped(k, p, noted)) {
        InformBills(Stopped(k, p, noted));
      }
    }
  }

  lemma EndBills(k: Kernel, p: nat)
    requires Inv(k) && p < |k.procs|
    ensures Bills(k, DoEndsig(k, p).0) && Bills(k, DoNewmap(k, p)) && Bills(k, DoXit(k, p))
  {
    UnreadyBills(k, p);
  }

  /** Every entry leaves the bill with the user process that runs, or with the last that did or
      would have. */
  lemma StepBills(k: Kernel, op: Op)
    requires Inv(k) && Legal(k, op)
    ensures Bills(k, Step(k, op))
  {
    match op
    case Call(f, src, body, inside) => CallBills(k, f, src, body, inside);
    case Irq(t, busy) =>
    case Unhold =>
    case Tick =>
    case Signal(p, sig) => SignalBills(k, p, sig);
    case EndSignal(p) => EndBills(k, p);
    case Fork(parent, child, pid) =>
    case Exit(p) => EndBills(k, p);
    case NewMap(p) => EndBills(k, p);
    case SetPriority(pid, priority) =>
  }

  lemma {:induction false} RunBilled(k: Kernel, ops: seq<Op>)
    requires Inv(k) && LegalRun(k, ops) && Billed(k)
    ensures Billed(Run(k, ops))
    decreases |ops|
  {
    if ops != [] {
      StepBills(k, ops[0]);
      StepKeeps(k, ops[0]);
      RunBilled(Step(k, ops[0]), ops[1..]);
    }
  }

  /** At boot MM is ready, so no user process runs yet. */
  lemma BootBilled(k: Kernel)
    requires Boot(k)
    ensures Billed(k)
  {
    var mm := k.cfg.Mm();
    assert IdleSlot(k, mm);
    assert LineAt(k.cfg, k.procs, k.rq[SERVER_Q], SERVER_Q);
    assert mm in k.rq[SERVER_Q];
  }
}
