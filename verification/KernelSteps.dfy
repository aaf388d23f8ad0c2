/** Every kernel entry keeps the invariant of the process table. */
module KernelSteps {
  import opened KernelInvariant
  import opened KernelSpec
  import opened Options
  import opened Queues
  import opened WaitFor

  // ---- Sending ----

  lemma DeliverKeeps(k: Kernel, c: nat, d: nat, body: Body)
    requires Core(k) && d < |k.procs| && k.procs[d].Accepts(c)
    ensures Core(Deliver(k, c, d, body))
  {
    var proc := k.procs[d].(buf := Message(c, body), receiving := false);
    PutSame(k, d, proc);
    if proc.Runnable() {
      CoreReady(k, d, proc, k.handed[d]);
    } else {
      CorePut(k, d, proc, k.handed[d]);
    }
  }

  /** Sending closes no cycle but the one of a process that sends to itself. */
  lemma NoWayBack(k: Kernel, c: nat, d: nat)
    requires Tables(k) && d < |k.procs| && d != c && !ClosesCycle(k.procs, c, d)
    ensures !LeadsTo(Edges(k.procs), d, c)
  {
    LeadsOn(Edges(k.procs), d, c);
  }

  lemma TablesBlock(k: Kernel, c: nat, d: nat, proc: Proc)
    requires Tables(k) && c < |k.procs| && d < |k.procs| && d != c && !ClosesCycle(k.procs, c, d)
    requires SlotOk(k.cfg, c, proc, k.handed[c]) && proc.intHeld == k.procs[c].intHeld
      && proc.pending == k.procs[c].pending
    requires k.procs[c].Edge().None? && proc.Edge() == Some(d)
    ensures Tables(SetProc(k, c, proc).(callers := k.callers[d := k.callers[d] + [c]]))
  {
    NoWayBack(k, c, d);
    EdgesUpdate(k.procs, c, proc);
    NewEdge(Edges(k.procs), c, d);
    CallersJoin(k.procs, k.callers, c, d, proc);
    HeldSame(k.procs, k.held, c, proc);
    PendingUpdate(k.procs, c, proc);
  }

  lemma BlockSenderKeeps(k: Kernel, c: nat, d: nat, body: Body)
    requires Core(k) && c < |k.procs| && d < |k.procs| && d != c && !ClosesCycle(k.procs, c, d)
    requires Runs(k.cfg, c, k.procs[c])
    requires k.procs[c].prio.User? ==> d == k.cfg.Mm() || d == k.cfg.Fs()
    ensures Core(BlockSender(k, c, d, body))
  {
    var proc := k.procs[c].(buf := Message(c, body), sending := true, sendto := d);
    TablesBlock(k, c, d, proc);
    LinesUnready(k, c, proc);
  }

  // ---- Receiving ----

  lemma TablesUnblock(k: Kernel, s: nat, proc: Proc)
    requires Tables(k) && s < |k.procs| && k.procs[s].sending && proc.Edge().None?
    requires SlotOk(k.cfg, s, proc, k.handed[s]) && proc.intHeld == k.procs[s].intHeld
      && proc.pending == k.procs[s].pending
    ensures var c := k.procs[s].sendto;
      Tables(SetProc(k, s, proc).(callers := k.callers[c := Remove(k.callers[c], s)]))
  {
    var c := k.procs[s].sendto;
    EdgesUpdate(k.procs, s, proc);
    FewerEdges(Edges(k.procs), Edges(k.procs[s := proc]));
    CallersLeave(k.procs, k.callers, s, c, proc);
    HeldSame(k.procs, k.held, s, proc);
    PendingUpdate(k.procs, s, proc);
  }

  lemma SenderUnblocked(k: Kernel, s: nat)
    requires Core(k) && s < |k.procs| && k.procs[s].sending && k.procs[s].sendto != k.cfg.hardware
    ensures var c := k.procs[s].sendto;
      var k' := SetProc(k, s, k.procs[s].(sending := false)).(callers := k.callers[c := Remove(k.callers[c], s)]);
      Core(ReadyIfRunnable(k', s))
  {
    var proc := k.procs[s].(sending := false);
    TablesUnblock(k, s, proc);
    if proc.Runnable() {
      LinesReady(k, s, proc);
    } else {
      LinesSame(k.cfg, k.procs, k.rq, s, proc);
    }
  }

  lemma WaitingSender(k: Kernel, c: nat, s: nat)
    requires Tables(k) && c < |k.procs| && s in k.callers[c]
    ensures s < |k.procs| && k.procs[s].sending && k.procs[s].sendto == c
  {
    assert CallersAt(k.procs, k.callers[c], c);
  }

  lemma AcceptKeeps(k: Kernel, c: nat, s: nat)
    requires Core(k) && c < |k.procs| && s in k.callers[c] && !k.procs[c].sending && c != k.cfg.hardware
    ensures Core(Accept(k, c, s))
  {
    WaitingSender(k, c, s);
    var proc := k.procs[c].(buf := Message(s, k.procs[s].buf.body));
    CoreSet(k, c, proc);
    SenderUnblocked(SetProc(k, c, proc), s);
  }

  lemma TakeInterruptKeeps(k: Kernel, c: nat)
    requires Core(k) && c < |k.procs|
    ensures Core(TakeInterrupt(k, c))
  {
    CoreSet(k, c, k.procs[c].(buf := Message(k.cfg.hardware, HardInt), intBlocked := false));
  }

  /** A process that runs, or that is already blocked sending to `src`, waits for a message. */
  lemma BlockReceiverKeeps(k: Kernel, c: nat, src: Source)
    requires Core(k) && c < |k.procs|
    requires Runs(k.cfg, c, k.procs[c]) || (k.procs[c].sending && src == From(k.procs[c].sendto))
    requires !k.procs[c].sending && RxHardware(k.cfg, src) ==> !k.procs[c].intBlocked
    ensures Core(BlockReceiver(k, c, src))
  {
    var proc := k.procs[c].(getfrom := src, receiving := true);
    if k.procs[c].Runnable() {
      CoreUnready(k, c, proc, k.handed[c]);
      PutSame(Unready(k, c), c, proc);
    } else {
      CoreSet(k, c, proc);
    }
  }

  // ---- Telling MM ----

  /** MM, waiting for any message, can take one directly: nothing else blocks it. */
  lemma MmTakesAtOnce(k: Kernel)
    requires Tables(k) && MmIdle(k)
    ensures k.procs[k.cfg.Mm()].Accepts(k.cfg.hardware)
  {
    assert SlotOk(k.cfg, k.cfg.Mm(), k.procs[k.cfg.Mm()], k.handed[k.cfg.Mm()]);
  }

  /** A pending signal belongs to a process behind the tasks, so the search finds one. */
  lemma PendingFound(k: Kernel)
    requires Tables(k) && 0 < k.sigProcs
    ensures FirstPending(k.procs, k.cfg.nrTasks).Some?
  {
    PendingNone(k.procs);
    var p: nat :| p < |k.procs| && k.procs[p].pending;
    assert SlotOk(k.cfg, p, k.procs[p], k.handed[p]);
    FirstPendingMeaning(k.procs, k.cfg.nrTasks);
  }

  /** The signals of a process are handed over: it stays inhibited until they are ended. */
  lemma HandOverKeeps(k: Kernel, p: nat)
    requires Core(k) && p < |k.procs| && k.procs[p].pending
    ensures Core(Put(k, p, k.procs[p].(signals := {}, pending := false), k.handed[p] + |k.procs[p].signals|))
  {
    assert SlotOk(k.cfg, p, k.procs[p], k.handed[p]);
    CorePut(k, p, k.procs[p].(signals := {}, pending := false), k.handed[p] + |k.procs[p].signals|);
  }

  /** What inform amounts to when MM waits for any message. */
  lemma InformIs(k: Kernel, p: nat)
    requires Tables(k) && MmIdle(k) && FirstPending(k.procs, k.cfg.nrTasks) == Some(p)
    ensures p < |k.procs| && k.procs[p].pending && p != k.cfg.Mm()
    ensures var k1 := Deliver(k, k.cfg.hardware, k.cfg.Mm(), KernelSignals(p, k.procs[p].signals));
      && k1.procs[p] == k.procs[p] && k1.handed == k.handed
      && Inform(k) == PickProc(Put(k1, p, k.procs[p].(signals := {}, pending := false),
                                   k.handed[p] + |k.procs[p].signals|))
  {
    FirstPendingMeaning(k.procs, k.cfg.nrTasks);
    MmTakesAtOnce(k);
    assert SlotOk(k.cfg, k.cfg.Mm(), k.procs[k.cfg.Mm()], k.handed[k.cfg.Mm()]);
    assert SlotOk(k.cfg, k.cfg.hardware, k.procs[k.cfg.hardware], k.handed[k.cfg.hardware]);
  }

  /** MM is told of the first process with signals, is never too busy for it, and does not
      wait for any message afterwards. */
  lemma InformKeeps(k: Kernel)
    requires Core(k) && MmIdle(k) && 0 < k.sigProcs
    ensures Core(Inform(k)) && Settled(Inform(k)) && !MmIdle(Inform(k))
  {
    PendingFound(k);
    var p := FirstPending(k.procs, k.cfg.nrTasks).value;
    InformIs(k, p);
    MmTakesAtOnce(k);
    var body := KernelSignals(p, k.procs[p].signals);
    DeliverKeeps(k, k.cfg.hardware, k.cfg.Mm(), body);
    HandOverKeeps(Deliver(k, k.cfg.hardware, k.cfg.Mm(), body), p);
  }

  // ---- Receiving, and what follows from it ----

  /** A task or server that runs is on its queue, so no user is next. */
  lemma Privileged(k: Kernel, c: nat)
    requires Core(k) && c < |k.procs| && Runs(k.cfg, c, k.procs[c]) && !k.procs[c].prio.User?
    ensures k.rq[TASK_Q] != [] || k.rq[SERVER_Q] != []
  {
    assert SlotOk(k.cfg, c, k.procs[c], k.handed[c]);
    assert c in k.rq[QueueOf(k.procs[c].prio)];
  }

  /** The receiver blocks; if it is MM, waiting for any message, it is told of a signal at once. */
  lemma WaitKeeps(k: Kernel, c: nat, src: Source)
    requires Core(k) && Told(k) && c < |k.procs|
    requires Runs(k.cfg, c, k.procs[c]) || (k.procs[c].sending && src == From(k.procs[c].sendto))
    requires !k.procs[c].sending && RxHardware(k.cfg, src) ==> !k.procs[c].intBlocked
    ensures var k' := BlockReceiver(k, c, src);
      var k2 := if 0 < k.sigProcs && c == k.cfg.Mm() && src == Any then Inform(k') else k';
      && Core(k2) && Told(k2)
      && (Settled(k') ==> Settled(k2))
  {
    BlockReceiverKeeps(k, c, src);
    var k' := BlockReceiver(k, c, src);
    if 0 < k.sigProcs && c == k.cfg.Mm() && src == Any {
      InformKeeps(k');
    }
  }

  lemma BlockReceiverSettled(k: Kernel, c: nat, src: Source)
    requires Settled(k) && c < |k.procs|
    ensures Settled(BlockReceiver(k, c, src))
  {
    if k.procs[c].Runnable() {
      UnreadySettled(k, c);
    }
  }

  lemma AcceptSettled(k: Kernel, c: nat, s: nat)
    requires Core(k) && Settled(k) && c < |k.procs| && Runs(k.cfg, c, k.procs[c]) && !k.procs[c].prio.User?
    requires s < |k.procs|
    ensures Settled(Accept(k, c, s))
  {
    Privileged(k, c);
    var k1 := SetProc(k, c, k.procs[c].(buf := Message(s, k.procs[s].buf.body)));
    var k2 := SetProc(k1, s, k1.procs[s].(sending := false)).(callers := k.callers[c := Remove(k.callers[c], s)]);
    if k2.procs[s].Runnable() {
      ReadySettled(k2, s);
    }
  }

  /** A task or server receives. */
  lemma MiniRecKeeps(k: Kernel, c: nat, src: Source)
    requires Core(k) && Settled(k) && Told(k) && c < |k.procs|
    requires Runs(k.cfg, c, k.procs[c]) && !k.procs[c].prio.User?
    ensures Core(MiniRec(k, c, src)) && Settled(MiniRec(k, c, src)) && Told(MiniRec(k, c, src))
  {
    WantedIn(k.callers[c], src);
    var wanted := Wanted(k.callers[c], src);
    if wanted.Some? {
      var s := wanted.value;
      WaitingSender(k, c, s);
      AcceptKeeps(k, c, s);
      AcceptSettled(k, c, s);
      AcceptTold(k, c, s);
    } else if k.procs[c].intBlocked && RxHardware(k.cfg, src) {
      TakeInterruptKeeps(k, c);
    } else {
      WaitKeeps(k, c, src);
      BlockReceiverSettled(k, c, src);
    }
  }

  lemma AcceptTold(k: Kernel, c: nat, s: nat)
    requires Tables(k) && Told(k) && c < |k.procs| && s < |k.procs|
    ensures Told(Accept(k, c, s))
  {
  }

  lemma {:induction false} WantedIn(q: seq<nat>, src: Source)
    ensures var found := Wanted(q, src);
      && (found.Some? ==> found.value in q && (src == Any || src == From(found.value)))
      && (src == Any && q != [] ==> found == Some(q[0]))
      && (found.None? ==> forall p | p in q :: src != Any && src != From(p))
  {
    if q != [] {
      WantedIn(q[1..], src);
      assert forall p :: p in q <==> p == q[0] || p in q[1..];
    }
  }
}
