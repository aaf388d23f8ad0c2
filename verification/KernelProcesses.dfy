/** Processes that exit, fork and get a memory map, and the clock. */
module KernelProcesses {
  import opened KernelEvents
  import opened KernelInvariant
  import opened KernelSpec
  import opened KernelSteps
  import opened Options
  import opened Queues

  // ---- Exit ----

  lemma TablesExit(k: Kernel, p: nat)
    requires Tables(k) && IsUser(k, p) && !k.procs[p].sending
    ensures Tables(Put(k, p, Cleared(k.procs[p]), 0))
  {
    assert SlotOk(k.cfg, p, k.procs[p], k.handed[p]);
    TablesPut(k, p, Cleared(k.procs[p]), 0);
  }

  /** Where the exiting process waits to send, it is struck off the queue; nobody else notices. */
  lemma TablesExitSender(k: Kernel, p: nat)
    requires Tables(k) && IsUser(k, p) && k.procs[p].sending
    ensures var c := k.procs[p].sendto;
      Tables(Put(k, p, Cleared(k.procs[p]), 0).(callers := k.callers[c := Remove(k.callers[c], p)]))
  {
    var proc := k.procs[p].(sending := false, receiving := false);
    assert SlotOk(k.cfg, p, k.procs[p], k.handed[p]);
    TablesUnblock(k, p, proc);
    var c := k.procs[p].sendto;
    var k1 := SetProc(k, p, proc).(callers := k.callers[c := Remove(k.callers[c], p)]);
    TablesPut(k1, p, Cleared(k.procs[p]), 0);
    assert k.procs[p := proc][p := Cleared(k.procs[p])] == k.procs[p := Cleared(k.procs[p])];
  }

  lemma ExitLines(k: Kernel, p: nat)
    requires Core(k) && IsUser(k, p)
    ensures LinesOk(k.cfg, k.procs[p := Cleared(k.procs[p])], UnreadyIfRunnable(k, p).rq)
  {
    assert SlotOk(k.cfg, p, k.procs[p], k.handed[p]);
    if k.procs[p].Runnable() {
      LinesUnready(k, p, Cleared(k.procs[p]));
    } else {
      LinesSame(k.cfg, k.procs, k.rq, p, Cleared(k.procs[p]));
    }
  }

  /** A process may exit in whatever state it is. */
  lemma XitKeeps(k: Kernel, p: nat)
    requires Inv(k) && IsUser(k, p)
    ensures Inv(DoXit(k, p))
  {
    if k.procs[p].sending {
      TablesExitSender(k, p);
    } else {
      TablesExit(k, p);
    }
    ExitLines(k, p);
    if k.procs[p].Runnable() {
      UnreadySettled(k, p);
    }
    ExitTold(k, p);
  }

  lemma ExitTold(k: Kernel, p: nat)
    requires Inv(k) && IsUser(k, p)
    ensures Told(DoXit(k, p))
  {
    assert p != k.cfg.Mm() by {
      assert SlotOk(k.cfg, p, k.procs[p], k.handed[p]);
    }
    if k.procs[p].pending {
      PendingSome(k.procs, p);
    }
  }

  /** After its exit a process is on no queue at all. */
  lemma ExitedIsGone(k: Kernel, p: nat)
    requires Inv(k) && IsUser(k, p)
    ensures var k' := DoXit(k, p);
      && (forall d | 0 <= d < |k'.callers| :: p !in k'.callers[d])
      && (forall i | 0 <= i < 3 :: p !in k'.rq[i]) && k'.cur != p
  {
    XitKeeps(k, p);
    var k' := DoXit(k, p);
    forall d | 0 <= d < |k'.callers|
      ensures p !in k'.callers[d]
    {
      assert CallersAt(k'.procs, k'.callers[d], d);
    }
    forall i | 0 <= i < 3
      ensures p !in k'.rq[i]
    {
      assert LineAt(k'.cfg, k'.procs, k'.rq[i], i);
    }
  }

  // ---- Fork ----

  /** What fork relies on: the parent waits to send to nobody, and nobody waits to send to
      the parent or to the slot of the child. */
  predicate CleanFork(k: Kernel, parent: nat, child: nat)
    requires parent < |k.procs| && parent < |k.callers| && child < |k.callers|
  {
    !k.procs[parent].sending && k.callers[parent] == [] && k.callers[child] == []
  }

  predicate CanFork(k: Kernel, parent: nat, child: nat) {
    IsUser(k, parent) && child < |k.procs| && k.procs[child].prio.Unused?
  }

  lemma ForkKeeps(k: Kernel, parent: nat, child: nat, pid: int)
    requires Inv(k) && CanFork(k, parent, child) && CleanFork(k, parent, child)
    ensures Inv(DoFork(k, parent, child, pid))
  {
    assert SlotOk(k.cfg, parent, k.procs[parent], k.handed[parent]);
    assert SlotOk(k.cfg, child, k.procs[child], k.handed[child]);
    var proc := DoFork(k, parent, child, pid).procs[child];
    assert k.callers[child := k.callers[parent]] == k.callers;
    CoreSet(k, child, proc);
  }

  /** The child's copy of the parent's place in a queue is not in the queue. */
  lemma ForkedSender(k: Kernel, parent: nat, child: nat, pid: int)
    requires Inv(k) && CanFork(k, parent, child) && k.procs[parent].sending
    ensures !CallersOk(DoFork(k, parent, child, pid).procs, DoFork(k, parent, child, pid).callers)
  {
    var d, k' := k.procs[parent].sendto, DoFork(k, parent, child, pid);
    assert SlotOk(k.cfg, child, k.procs[child], k.handed[child]);
    assert CallersAt(k.procs, k.callers[d], d) && CallersAt(k.procs, k.callers[parent], parent);
    assert child !in k'.callers[d] && k'.procs[child].Edge() == Some(d);
    assert !CallersAt(k'.procs, k'.callers[d], d);
  }

  /** Whoever waits for the parent would wait for the child as well. */
  lemma ForkedReceiver(k: Kernel, parent: nat, child: nat, pid: int)
    requires Inv(k) && CanFork(k, parent, child) && k.callers[parent] != []
    ensures !CallersOk(DoFork(k, parent, child, pid).procs, DoFork(k, parent, child, pid).callers)
  {
    var x, k' := k.callers[parent][0], DoFork(k, parent, child, pid);
    assert SlotOk(k.cfg, child, k.procs[child], k.handed[child]);
    assert CallersAt(k.procs, k.callers[parent], parent) && x in k.callers[parent];
    assert x in k'.callers[child] && k'.procs[x].Edge() == Some(parent);
    assert !CallersAt(k'.procs, k'.callers[child], child);
  }

  /** Whoever waits for the former owner of the child's slot would be forgotten. */
  lemma ForkedOver(k: Kernel, parent: nat, child: nat, pid: int)
    requires Inv(k) && CanFork(k, parent, child) && k.callers[parent] == [] && k.callers[child] != []
    ensures !CallersOk(DoFork(k, parent, child, pid).procs, DoFork(k, parent, child, pid).callers)
  {
    var x, k' := k.callers[child][0], DoFork(k, parent, child, pid);
    assert SlotOk(k.cfg, child, k.procs[child], k.handed[child]);
    assert CallersAt(k.procs, k.callers[child], child) && x in k.callers[child];
    assert x !in k'.callers[child] && k'.procs[x].Edge() == Some(child);
    assert !CallersAt(k'.procs, k'.callers[child], child);
  }

  /** The caller queues survive a fork exactly when nobody is queued on or from the parent or
      the child's slot: the child's copy of the parent's fields is not an entry of its own. */
  lemma ForkExact(k: Kernel, parent: nat, child: nat, pid: int)
    requires Inv(k) && CanFork(k, parent, child)
    ensures Inv(DoFork(k, parent, child, pid)) <==> CleanFork(k, parent, child)
  {
    if CleanFork(k, parent, child) {
      ForkKeeps(k, parent, child, pid);
    } else if k.procs[parent].sending {
      ForkedSender(k, parent, child, pid);
    } else if k.callers[parent] != [] {
      ForkedReceiver(k, parent, child, pid);
    } else {
      ForkedOver(k, parent, child, pid);
    }
  }

  /** A forked process is held back until it has its memory map. */
  lemma NewmapKeeps(k: Kernel, p: nat)
    requires Inv(k) && p < |k.procs| && k.rq[TASK_Q] != []
    ensures Inv(DoNewmap(k, p))
  {
    var proc := k.procs[p].(noMap := false);
    assert SlotOk(k.cfg, p, k.procs[p], k.handed[p]);
    PutSame(k, p, proc);
    if !k.procs[p].Runnable() && proc.Runnable() {
      CoreReady(k, p, proc, k.handed[p]);
      ReadySettled(SetProc(k, p, proc), p);
    } else {
      CorePut(k, p, proc, k.handed[p]);
    }
  }

  // ---- Priorities and the clock ----

  lemma {:induction false} FirstPidMeaning(procs: seq<Proc>, pid: int, p: nat)
    ensures var found := FirstPid(procs, pid, p);
      && (found.Some? ==> p <= found.value < |procs| && procs[found.value].pid == pid
                          && forall x | p <= x < found.value :: procs[x].pid != pid)
      && (found.None? ==> forall x | p <= x < |procs| :: procs[x].pid != pid)
    decreases |procs| - p
  {
    if p < |procs| && procs[p].pid != pid {
      FirstPidMeaning(procs, pid, p + 1);
    }
  }

  lemma {:induction false} FirstPidUnmoved(procs: seq<Proc>, procs': seq<Proc>, pid: int, p: nat)
    requires |procs'| == |procs| && forall x | 0 <= x < |procs| :: procs'[x].pid == procs[x].pid
    ensures FirstPid(procs', pid, p) == FirstPid(procs, pid, p)
    decreases |procs| - p
  {
    if p < |procs| && procs[p].pid != pid {
      FirstPidUnmoved(procs, procs', pid, p + 1);
    }
  }

  lemma SetpriKeeps(k: Kernel, pid: int, priority: int)
    requires Inv(k)
    ensures Inv(DoSetpri(k, pid, priority))
  {
    var found := FirstPid(k.procs, pid, k.cfg.LowUser());
    if found.Some? && found.value < |k.procs| {
      FirstPidMeaning(k.procs, pid, k.cfg.LowUser());
      assert SlotOk(k.cfg, found.value, k.procs[found.value], k.handed[found.value]);
      CoreSet(k, found.value, DoSetpri(k, pid, priority).procs[found.value]);
    }
  }

  /** The priority that was set is read back, or 15 when it was out of range, and nobody
      else's changes; 0 stands for a process that does not exist. */
  lemma SetpriGetpri(k: Kernel, pid: int, priority: int, other: int)
    requires k.cfg.LowUser() <= |k.procs|
    ensures DoGetpri(DoSetpri(k, pid, priority), pid)
         == if exists p: nat :: k.cfg.LowUser() <= p < |k.procs| && k.procs[p].pid == pid
            then if 0 < priority <= 100 then priority else 15 else 0
    ensures other != pid ==> DoGetpri(DoSetpri(k, pid, priority), other) == DoGetpri(k, other)
  {
    var k' := DoSetpri(k, pid, priority);
    FirstPidMeaning(k.procs, pid, k.cfg.LowUser());
    FirstPidMeaning(k.procs, other, k.cfg.LowUser());
    FirstPidUnmoved(k.procs, k'.procs, pid, k.cfg.LowUser());
    FirstPidUnmoved(k.procs, k'.procs, other, k.cfg.LowUser());
  }

  lemma RotateLine(cfg: Config, procs: seq<Proc>, q: seq<nat>, i: nat)
    requires LineAt(cfg, procs, q, i) && q != []
    ensures LineAt(cfg, procs, q[1..] + [q[0]], i)
  {
    assert forall p :: p in q <==> p == q[0] || p in q[1..];
    assert q[0] !in q[1..];
    AppendDistinct(q[1..], q[0]);
  }

  lemma QuantumKeeps(k: Kernel, p: nat, counter: int)
    requires Core(k) && p < |k.procs|
    ensures Core(SetProc(k, p, k.procs[p].(timeCounter := counter)))
  {
    assert SlotOk(k.cfg, p, k.procs[p], k.handed[p]);
    CoreSet(k, p, k.procs[p].(timeCounter := counter));
  }

  lemma RotateKeeps(k: Kernel)
    requires Core(k) && k.rq[USER_Q] != []
    ensures var q := k.rq[USER_Q]; Core(PickProc(k.(rq := k.rq[USER_Q := q[1..] + [q[0]]])))
  {
    RotateLine(k.cfg, k.procs, k.rq[USER_Q], USER_Q);
  }

  lemma SchedKeeps(k: Kernel)
    requires Inv(k)
    ensures k.rq[USER_Q] != [] ==> k.rq[USER_Q][0] < |k.procs|
    ensures Inv(Sched(k))
  {
    var q := k.rq[USER_Q];
    if q != [] {
      assert q[0] in q;
      var head := k.procs[q[0]];
      if head.timeCounter != head.userPriority {
        QuantumKeeps(k, q[0], head.timeCounter + 1);
      } else {
        QuantumKeeps(k, q[0], 0);
        RotateKeeps(SetProc(k, q[0], head.(timeCounter := 0)));
      }
    }
  }
}
