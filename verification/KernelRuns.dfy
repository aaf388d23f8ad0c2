/** All runs of the kernel: whatever is called, interrupted, signalled, forked or ended, in
    whatever order, the process table stays in order. */
module KernelRuns {
  import opened KernelCalls
  import opened KernelEvents
  import opened KernelInvariant
  import opened KernelProcesses
  import opened KernelSpec
  import opened Options
  import opened Queues
  import opened WaitFor

  /** One entry into the kernel. */
  datatype Op =
    | Call(f: Function, src: Source, body: Body, inside: bool)
    | Irq(t: nat, busy: bool)
    | Unhold
    | Tick
    | Signal(p: nat, sig: nat)
    | EndSignal(p: nat)
    | Fork(parent: nat, child: nat, pid: int)
    | Exit(p: nat)
    | NewMap(p: nat)
    | SetPriority(pid: int, priority: int)

  /** What the kernel leaves to its callers to see to. Signals are ended and maps installed
      by a task, so a task is then ready. */
  predicate Legal(k: Kernel, op: Op)
    requires Shape(k)
  {
    match op
    case Call(f, src, _, _) => k.cur < |k.procs| && k.cur != k.cfg.idle && Trusted(k, f, src)
    case Irq(t, _) => HasInterrupts(k, t)
    case Unhold => k.held != [] && k.held[0] < |k.procs|
    case Tick => k.rq[USER_Q] != [] ==> k.rq[USER_Q][0] < |k.procs|
    case Signal(p, _) => IsUser(k, p)
    case EndSignal(p) => Endable(k, p) && k.rq[TASK_Q] != []
    case Fork(parent, child, _) => CanFork(k, parent, child) && CleanFork(k, parent, child)
    case Exit(p) => IsUser(k, p)
    case NewMap(p) => p < |k.procs| && k.rq[TASK_Q] != []
    case SetPriority(_, _) => true
  }

  ghost function Step(k: Kernel, op: Op): Kernel
    requires Shape(k) && Legal(k, op)
  {
    match op
    case Call(f, src, body, inside) => SysCall(k, f, src, body, inside).0
    case Irq(t, busy) => Interrupt(k, t, busy)
    case Unhold => UnholdOne(k)
    case Tick => Sched(k)
    case Signal(p, sig) => CauseSig(k, p, sig)
    case EndSignal(p) => DoEndsig(k, p).0
    case Fork(parent, child, pid) => DoFork(k, parent, child, pid)
    case Exit(p) => DoXit(k, p)
    case NewMap(p) => DoNewmap(k, p)
    case SetPriority(pid, priority) => DoSetpri(k, pid, priority)
  }

  lemma StepKeeps(k: Kernel, op: Op)
    requires Inv(k) && Legal(k, op)
    ensures Inv(Step(k, op))
  {
    match op
    case Call(f, src, body, inside) => SysCallKeeps(k, f, src, body, inside);
    case Irq(t, busy) => InterruptKeeps(k, t, busy);
    case Unhold => UnholdOneKeeps(k);
    case Tick => SchedKeeps(k);
    case Signal(p, sig) => CauseSigKeeps(k, p, sig);
    case EndSignal(p) => EndsigKeeps(k, p);
    case Fork(parent, child, pid) => ForkKeeps(k, parent, child, pid);
    case Exit(p) => XitKeeps(k, p);
    case NewMap(p) => NewmapKeeps(k, p);
    case SetPriority(pid, priority) => SetpriKeeps(k, pid, priority);
  }

  ghost predicate LegalRun(k: Kernel, ops: seq<Op>)
    requires Inv(k)
    decreases |ops|
  {
    ops == [] || (Legal(k, ops[0]) && (StepKeeps(k, ops[0]); LegalRun(Step(k, ops[0]), ops[1..])))
  }

  /** Whatever legal run there is, it keeps the invariant. */
  ghost function Run(k: Kernel, ops: seq<Op>): (k': Kernel)
    requires Inv(k) && LegalRun(k, ops)
    ensures Inv(k')
    decreases |ops|
  {
    if ops == [] then k else StepKeeps(k, ops[0]); Run(Step(k, ops[0]), ops[1..])
  }

  /** The table as the kernel boots: nobody is blocked, every live process is on the ready
      queue of its class, the first task runs. */
  ghost predicate Boot(k: Kernel) {
    && Shape(k) && LinesOk(k.cfg, k.procs, k.rq) && Settled(k) && k.held == [] && k.sigProcs == 0 && !k.panicked
    && (forall p | 0 <= p < |k.procs| :: IdleSlot(k, p))
  }

  predicate IdleSlot(k: Kernel, p: nat)
    requires Shape(k) && p < |k.procs|
  {
    var proc := k.procs[p];
    && ClassOk(k.cfg, p, proc.prio) && proc.Runnable() && !proc.intBlocked && !proc.intHeld
    && proc.signals == {} && proc.pendcount == 0 && k.handed[p] == 0 && k.callers[p] == []
  }

  /** The smallest table there is: one task, MM and FS, and no user yet. */
  function SmallestTable(): Kernel {
    var task := Proc(Task, false, false, false, false, false, false, Any, 0, Message(0, Plain(0)),
                     false, false, {}, 0, 0, 0, 0);
    var idle, server := task.(prio := Idle), task.(prio := Server);
    Kernel(Config(3, 0, 1), [idle, task, task, server, server], [[], [], [], [], []], [[2], [3, 4], []], [],
           2, 0, 0, 50, false, [0, 0, 0, 0, 0])
  }

  lemma SmallestBoots()
    ensures Boot(SmallestTable())
  {
    var k := SmallestTable();
    assert forall p | 0 <= p < |k.procs| :: IdleSlot(k, p);
    assert LineAt(k.cfg, k.procs, [2], TASK_Q) && LineAt(k.cfg, k.procs, [3, 4], SERVER_Q)
      && LineAt(k.cfg, k.procs, [], USER_Q);
  }

  lemma BootInv(k: Kernel)
    requires Boot(k)
    ensures Inv(k)
  {
    forall p | 0 <= p < |k.procs|
      ensures SlotOk(k.cfg, p, k.procs[p], k.handed[p]) && CallersAt(k.procs, k.callers[p], p)
        && Terminates(Edges(k.procs), p)
    {
      assert IdleSlot(k, p);
      assert Edges(k.procs)[p].None? && Stops(Edges(k.procs), p, 0);
      forall x: nat | x < |k.procs|
        ensures k.procs[x].Edge() != Some(p)
      {
        assert IdleSlot(k, x);
      }
    }
    forall p: nat | p < |k.procs|
      ensures !k.procs[p].intHeld && !k.procs[p].pending
    {
      assert IdleSlot(k, p);
    }
    if 0 < PendingCount(k.procs) {
      PendingNone(k.procs);
    }
  }

  /** The invariant in the words of the kernel: caller queues, ready queues, the process that
      runs, the deadlock check, the signals and the held interrupts are all in order. */
  ghost predicate InOrder(k: Kernel)
    requires Shape(k)
  {
    && !k.panicked
    && Acyclic(Edges(k.procs))
    && (forall p, d | 0 <= p < |k.procs| && 0 <= d < |k.procs| :: Queued(k, p, d))
    && (forall p, i | 0 <= p < |k.procs| && 0 <= i < 3 :: Lined(k, p, i))
    && (k.cur != k.cfg.idle ==> k.cur < |k.procs| && k.procs[k.cur].Runnable() && !k.procs[k.cur].prio.Unused?)
    && (MmIdle(k) ==> forall p | 0 <= p < |k.procs| :: k.procs[p].signals == {})
    && (forall p | 0 <= p < |k.procs| :: k.procs[p].intHeld <==> multiset(k.held)[p] == 1)
    && k.sigProcs == PendingCount(k.procs)
    && (forall p | 0 <= p < |k.procs| :: SignalsOk(k.procs[p], k.handed[p]) && InterruptsOk(k.cfg, p, k.procs[p]))
  }

  ghost predicate Queued(k: Kernel, p: nat, d: nat)
    requires Shape(k) && p < |k.procs| && d < |k.procs|
  {
    multiset(k.callers[d])[p] == if k.procs[p].sending && k.procs[p].sendto == d then 1 else 0
  }

  ghost predicate Lined(k: Kernel, p: nat, i: nat)
    requires Shape(k) && p < |k.procs| && i < 3
  {
    multiset(k.rq[i])[p] == if Runs(k.cfg, p, k.procs[p]) && QueueOf(k.procs[p].prio) == i then 1 else 0
  }

  lemma InvInOrder(k: Kernel)
    requires Inv(k)
    ensures InOrder(k)
  {
    forall p, d | 0 <= p < |k.procs| && 0 <= d < |k.procs|
      ensures Queued(k, p, d)
    {
      assert CallersAt(k.procs, k.callers[d], d);
      OnceOnly(k.callers[d], p);
    }
    forall p, i | 0 <= p < |k.procs| && 0 <= i < 3
      ensures Lined(k, p, i)
    {
      assert LineAt(k.cfg, k.procs, k.rq[i], i);
      OnceOnly(k.rq[i], p);
    }
    forall p | 0 <= p < |k.procs|
      ensures k.procs[p].intHeld <==> multiset(k.held)[p] == 1
    {
      OnceOnly(k.held, p);
    }
    forall p | 0 <= p < |k.procs|
      ensures SignalsOk(k.procs[p], k.handed[p]) && InterruptsOk(k.cfg, p, k.procs[p])
    {
      assert SlotOk(k.cfg, p, k.procs[p], k.handed[p]);
    }
    if k.cur != k.cfg.idle {
      CurrentRuns(k);
    }
    if MmIdle(k) {
      forall p | 0 <= p < |k.procs|
        ensures k.procs[p].signals == {}
      {
        assert SlotOk(k.cfg, p, k.procs[p], k.handed[p]);
        if k.procs[p].pending {
          PendingSome(k.procs, p);
        }
      }
    }
  }

  /** After every legal run from a table in order, such as the one the kernel boots with. */
  lemma RunInOrder(k: Kernel, ops: seq<Op>)
    requires Inv(k) && LegalRun(k, ops)
    ensures InOrder(Run(k, ops))
  {
    InvInOrder(Run(k, ops));
  }
}
