/** Interrupts, signals, processes that come and go, and the clock. */
module KernelEvents {
  import opened KernelInvariant
  import opened KernelSpec
  import opened KernelSteps
  import opened Queues

  // ---- Interrupts ----

  predicate HasInterrupts(k: Kernel, t: nat) {
    t < |k.procs| && k.procs[t].prio.Task? && !Pseudo(k.cfg, t)
  }

  /** The held queue changes by one task. */
  lemma HeldChange(k: Kernel, t: nat, heldNow: bool, held: seq<nat>)
    requires Core(k) && HasInterrupts(k, t) && Distinct(held)
    requires forall p: nat :: p in held <==> if p == t then heldNow else p in k.held
    ensures Core(SetProc(k, t, k.procs[t].(intHeld := heldNow)).(held := held))
  {
    var proc := k.procs[t].(intHeld := heldNow);
    assert SlotOk(k.cfg, t, k.procs[t], k.handed[t]);
    EdgesUpdate(k.procs, t, proc);
    assert Edges(k.procs)[t := proc.Edge()] == Edges(k.procs);
    CallersSame(k.procs, k.callers, t, proc);
    PendingUpdate(k.procs, t, proc);
    LinesSame(k.cfg, k.procs, k.rq, t, proc);
  }

  lemma HoldKeeps(k: Kernel, t: nat)
    requires Core(k) && HasInterrupts(k, t) && !k.procs[t].intHeld
    ensures Core(SetProc(k, t, k.procs[t].(intHeld := true)).(held := k.held + [t]))
  {
    AppendDistinct(k.held, t);
    HeldChange(k, t, true, k.held + [t]);
  }

  lemma UnholdKeeps(k: Kernel)
    requires Core(k) && k.held != []
    ensures HasInterrupts(k, k.held[0])
    ensures Core(SetProc(k, k.held[0], k.procs[k.held[0]].(intHeld := false)).(held := k.held[1..]))
  {
    var t := k.held[0];
    assert t in k.held;
    assert SlotOk(k.cfg, t, k.procs[t], k.handed[t]);
    assert forall p :: p in k.held <==> p == t || p in k.held[1..];
    HeldChange(k, t, false, k.held[1..]);
  }

  lemma TaskWakes(k: Kernel, t: nat)
    requires Core(k) && Settled(k) && HasInterrupts(k, t)
    requires k.procs[t].receiving && !k.procs[t].sending
    ensures var proc := k.procs[t].(buf := Message(k.cfg.hardware, HardInt), receiving := false, intBlocked := false);
      proc.Runnable() && Core(Ready(SetProc(k, t, proc), t)) && Settled(Ready(SetProc(k, t, proc), t))
  {
    var proc := k.procs[t].(buf := Message(k.cfg.hardware, HardInt), receiving := false, intBlocked := false);
    assert SlotOk(k.cfg, t, k.procs[t], k.handed[t]);
    PutSame(k, t, proc);
    CoreReady(k, t, proc, k.handed[t]);
    ReadySettled(SetProc(k, t, proc), t);
  }

  lemma InterruptKeeps(k: Kernel, t: nat, busy: bool)
    requires Inv(k) && HasInterrupts(k, t)
    ensures Inv(Interrupt(k, t, busy))
  {
    assert SlotOk(k.cfg, t, k.procs[t], k.handed[t]);
    assert t != k.cfg.Mm();
    var proc := k.procs[t];
    if busy {
      if !proc.intHeld {
        HoldKeeps(k, t);
      }
    } else if !proc.receiving || proc.sending || !RxHardware(k.cfg, proc.getfrom) {
      CoreSet(k, t, proc.(intBlocked := true));
    } else {
      TaskWakes(k, t);
    }
  }

  lemma UnholdOneKeeps(k: Kernel)
    requires Inv(k) && k.held != []
    ensures k.held[0] < |k.procs| && Inv(UnholdOne(k)) && UnholdOne(k).held == k.held[1..]
  {
    UnholdKeeps(k);
    var t := k.held[0];
    var k1 := SetProc(k, t, k.procs[t].(intHeld := false)).(held := k.held[1..]);
    InterruptKeeps(k1, t, false);
  }

  /** No interrupt is lost: its task is woken with a message from the hardware, or the
      interrupt is remembered; a repeated one may fall together with one remembered already. */
  lemma InterruptNotLost(k: Kernel, t: nat, busy: bool)
    requires Inv(k) && HasInterrupts(k, t)
    ensures var proc, proc' := k.procs[t], Interrupt(k, t, busy).procs[t];
      if busy then proc' == proc.(intHeld := true) && t in Interrupt(k, t, busy).held
      else if proc.Accepts(k.cfg.hardware) then
        proc'.Runnable() && proc'.buf == Message(k.cfg.hardware, HardInt) && t in Interrupt(k, t, busy).rq[TASK_Q]
      else proc' == proc.(intBlocked := true)
  {
    InterruptKeeps(k, t, busy);
    var k' := Interrupt(k, t, busy);
    assert SlotOk(k.cfg, t, k.procs[t], k.handed[t]);
    assert HeldOk(k'.procs, k'.held) && LineAt(k'.cfg, k'.procs, k'.rq[TASK_Q], TASK_Q);
    if !busy && k.procs[t].Accepts(k.cfg.hardware) {
      TaskWakes(k, t);
    }
  }

  /** All held-up interrupts are repeated. */
  ghost function UnholdAll(k: Kernel): (k': Kernel)
    requires Inv(k)
    ensures Inv(k') && k'.held == [] && |k'.procs| == |k.procs| && k'.cfg == k.cfg
    decreases |k.held|
  {
    if k.held == [] then k else UnholdOneKeeps(k); UnholdAll(UnholdOne(k))
  }

  /** What a held-up interrupt does to its task when it is repeated. */
  function Repeated(cfg: Config, proc: Proc): Proc {
    if proc.receiving && !proc.sending && RxHardware(cfg, proc.getfrom) then
      proc.(intHeld := false, buf := Message(cfg.hardware, HardInt), receiving := false, intBlocked := false)
    else proc.(intHeld := false, intBlocked := true)
  }

  lemma UnholdOneMeaning(k: Kernel)
    requires Inv(k) && k.held != []
    ensures k.held[0] < |k.procs|
    ensures UnholdOne(k).cfg == k.cfg && UnholdOne(k).procs == k.procs[k.held[0] := Repeated(k.cfg, k.procs[k.held[0]])]
  {
    UnholdOneKeeps(k);
  }

  /** Flushing the held queue wakes each of its tasks that waits for an interrupt, remembers
      the interrupt for each of the others, and touches nobody else. */
  lemma {:induction false} UnholdAllMeaning(k: Kernel, t: nat)
    requires Inv(k) && t < |k.procs|
    ensures UnholdAll(k).procs[t] == if t in k.held then Repeated(k.cfg, k.procs[t]) else k.procs[t]
    decreases |k.held|
  {
    if k.held != [] {
      UnholdOneMeaning(k);
      UnholdOneKeeps(k);
      UnholdAllMeaning(UnholdOne(k), t);
      assert t in k.held <==> t == k.held[0] || t in k.held[1..];
      assert Distinct(k.held) && k.held[0] !in k.held[1..];
    }
  }

  /** A remembered interrupt is what the task receives, as soon as it is ready to and no
      process is waiting with a message. */
  lemma StoredInterruptTaken(k: Kernel, t: nat, src: Source)
    requires Inv(k) && HasInterrupts(k, t) && k.procs[t].intBlocked && RxHardware(k.cfg, src) && !k.procs[t].sending
    ensures var k' := MiniRec(k, t, src);
      if Wanted(k.callers[t], src).Some? then k'.procs[t].intBlocked
      else k'.procs[t] == k.procs[t].(buf := Message(k.cfg.hardware, HardInt), intBlocked := false)
  {
    WantedIn(k.callers[t], src);
    if Wanted(k.callers[t], src).Some? {
      WaitingSender(k, t, Wanted(k.callers[t], src).value);
    }
  }

  // ---- Signals ----

  predicate IsUser(k: Kernel, p: nat) {
    p < |k.procs| && k.procs[p].prio.User?
  }

  /** The first signal of a process stops it. */
  lemma SignalStops(k: Kernel, p: nat, proc: Proc, handed: nat)
    requires Core(k) && p < |k.procs| && SlotOk(k.cfg, p, proc, handed) && !proc.Runnable() && proc.prio.User?
    requires proc.Edge() == k.procs[p].Edge() && proc.intHeld == k.procs[p].intHeld
    ensures Core(Put(UnreadyIfRunnable(k, p), p, proc, handed))
  {
    assert SlotOk(k.cfg, p, k.procs[p], k.handed[p]);
    if Runs(k.cfg, p, k.procs[p]) {
      CoreUnready(k, p, proc, handed);
    } else {
      NotRunning(k, p);
      CorePut(k, p, proc, handed);
    }
  }

  /** Taking a slot from the ready queue that is not on it changes nothing. */
  lemma NotRunning(k: Kernel, p: nat)
    requires Core(k) && p < |k.procs| && !Runs(k.cfg, p, k.procs[p])
    ensures Unready(k, p) == k
  {
    var q := QueueOf(k.procs[p].prio);
    assert LineAt(k.cfg, k.procs, k.rq[q], q);
    RemoveAbsent(k.rq[q], p);
    assert k.rq[q := k.rq[q]] == k.rq;
  }

  lemma NotedOk(cfg: Config, p: nat, proc: Proc, handed: nat, sig: nat)
    requires SlotOk(cfg, p, proc, handed) && proc.prio.User? && sig !in proc.signals && cfg.hardware < cfg.nrTasks
    ensures SlotOk(cfg, p, Noted(proc, sig).(pending := true, sigPending := true), handed)
    ensures proc.pending ==> SlotOk(cfg, p, Noted(proc, sig), handed)
  {
    assert |proc.signals + {sig}| == |proc.signals| + 1 && sig in proc.signals + {sig};
  }

  lemma CauseSigKeeps(k: Kernel, p: nat, sig: nat)
    requires Inv(k) && IsUser(k, p)
    ensures Inv(CauseSig(k, p, sig))
  {
    assert SlotOk(k.cfg, p, k.procs[p], k.handed[p]);
    if sig !in k.procs[p].signals {
      NotedOk(k.cfg, p, k.procs[p], k.handed[p], sig);
      if k.procs[p].pending {
        SignalAdded(k, p, sig);
      } else {
        SignalNoticed(k, p, Noted(k.procs[p], sig));
      }
    }
  }

  lemma SignalAdded(k: Kernel, p: nat, sig: nat)
    requires Inv(k) && IsUser(k, p) && k.procs[p].pending
    requires SlotOk(k.cfg, p, Noted(k.procs[p], sig), k.handed[p])
    ensures Inv(SetProc(k, p, Noted(k.procs[p], sig)))
  {
    CoreSet(k, p, Noted(k.procs[p], sig));
    assert p != k.cfg.Mm() by {
      assert SlotOk(k.cfg, p, k.procs[p], k.handed[p]);
    }
  }

  lemma StoppedTables(k: Kernel, p: nat, noted: Proc)
    requires Inv(k) && IsUser(k, p) && !k.procs[p].pending
    requires noted == k.procs[p].(signals := noted.signals, pendcount := noted.pendcount)
    requires SlotOk(k.cfg, p, noted.(pending := true, sigPending := true), k.handed[p])
    ensures Core(Stopped(k, p, noted)) && Settled(Stopped(k, p, noted)) && 0 < Stopped(k, p, noted).sigProcs
  {
    var proc', k' := noted.(pending := true, sigPending := true), Stopped(k, p, noted);
    assert k' == Put(UnreadyIfRunnable(k, p), p, proc', k.handed[p]) by {
      assert k.procs[p := noted][p := proc'] == k.procs[p := proc'];
      assert k.handed[p := k.handed[p]] == k.handed;
    }
    SignalStops(k, p, proc', k.handed[p]);
    if k.procs[p].Runnable() {
      UnreadySettled(k, p);
    }
    PendingSome(k'.procs, p);
  }

  lemma SignalNoticed(k: Kernel, p: nat, noted: Proc)
    requires Inv(k) && IsUser(k, p) && !k.procs[p].pending
    requires noted == k.procs[p].(signals := noted.signals, pendcount := noted.pendcount)
    requires SlotOk(k.cfg, p, noted.(pending := true, sigPending := true), k.handed[p])
    ensures var k' := Stopped(k, p, noted); Inv(if MmIdle(k') then Inform(k') else k')
  {
    StoppedTables(k, p, noted);
    var k' := Stopped(k, p, noted);
    if MmIdle(k') {
      InformKeeps(k');
    }
  }

  /** What MM may end: a signal it was told of, or one of a process that has none left. */
  predicate Endable(k: Kernel, p: nat)
    requires Shape(k)
  {
    p < |k.procs| && (k.procs[p].prio.Unused? || k.procs[p].pendcount == 0 || 0 < k.handed[p])
  }

  lemma EndedOk(cfg: Config, p: nat, proc: Proc, handed: nat)
    requires SlotOk(cfg, p, proc, handed) && 0 < handed && !proc.prio.Unused?
    ensures 0 < proc.pendcount && SlotOk(cfg, p, Ended(proc), handed - 1) && !proc.Runnable() && cfg.LowUser() <= p
    ensures Ended(proc).Runnable() ==> proc.pendcount == 1
  {
  }

  lemma EndsigKeeps(k: Kernel, p: nat)
    requires Inv(k) && Endable(k, p) && k.rq[TASK_Q] != []
    ensures Inv(DoEndsig(k, p).0)
  {
    var proc := k.procs[p];
    if !proc.prio.Unused? && proc.pendcount != 0 {
      var h := k.handed[p] - 1;
      EndedOk(k.cfg, p, proc, k.handed[p]);
      if Ended(proc).Runnable() {
        CoreReady(k, p, Ended(proc), h);
        ReadySettled(Put(k, p, Ended(proc), h), p);
        assert DoEndsig(k, p).0 == Ready(Put(k, p, Ended(proc), h), p);
      } else {
        CorePut(k, p, Ended(proc), h);
        assert DoEndsig(k, p).0 == Put(k, p, Ended(proc), h);
      }
    }
  }

  /** Ending a signal MM was not told of spoils the count, ending any other never does. */
  lemma EndsigExact(k: Kernel, p: nat)
    requires Inv(k) && p < |k.procs|
    ensures SlotsOk(DoEndsig(k, p).0) <==> Endable(k, p)
  {
    var k', proc := DoEndsig(k, p).0, k.procs[p];
    assert SlotOk(k.cfg, p, proc, k.handed[p]);
    if Endable(k, p) {
      forall x | 0 <= x < |k'.procs|
        ensures SlotOk(k'.cfg, x, k'.procs[x], k'.handed[x])
      {
        assert SlotOk(k.cfg, x, k.procs[x], k.handed[x]);
      }
    } else {
      assert !SlotOk(k'.cfg, p, k'.procs[p], k'.handed[p]);
    }
  }

  /** A process with a signal not yet ended never runs. */
  lemma SignalledNeverReady(k: Kernel, p: nat)
    requires Inv(k) && p < |k.procs| && 0 < k.procs[p].pendcount
    ensures forall i | 0 <= i < 3 :: p !in k.rq[i]
    ensures k.cur != p
  {
    assert SlotOk(k.cfg, p, k.procs[p], k.handed[p]);
    forall i | 0 <= i < 3
      ensures p !in k.rq[i]
    {
      assert LineAt(k.cfg, k.procs, k.rq[i], i);
    }
  }
}
