/** Turns over all runs of the kernel: nobody overruns, so everybody's turn comes; and what
    happens for good when a priority is set below what has been used. */
module KernelTurns {
  import opened KernelFrames
  import opened KernelInvariant
  import opened KernelRuns
  import opened KernelSpec
  import opened RoundRobin

  /** Whoever is ready in the user queue is a user process, once. */
  lemma UserQueue(k: Kernel)
    requires Inv(k)
    ensures UserQueueOk(k) && forall i | 0 <= i < |k.rq[USER_Q]| :: k.procs[k.rq[USER_Q][i]].prio.User?
  {
    var q := k.rq[USER_Q];
    forall i | 0 <= i < |q|
      ensures q[i] < |k.procs| && k.procs[q[i]].prio.User?
    {
      assert q[i] in q;
      assert SlotOk(k.cfg, q[i], k.procs[q[i]], k.handed[q[i]]);
    }
  }

  lemma QueuePatient(k: Kernel)
    requires Inv(k) && AllInTurn(k)
    ensures UserQueueOk(k) && Patient(k, k.rq[USER_Q])
  {
    UserQueue(k);
    forall i | 0 <= i < |k.rq[USER_Q]|
      ensures InTurn(k.procs[k.rq[USER_Q][i]])
    {
    }
  }

  // ---- Nobody overruns ----

  lemma TickInTurn(k: Kernel)
    requires Inv(k) && AllInTurn(k)
    ensures k.rq[USER_Q] != [] ==> k.rq[USER_Q][0] < |k.procs|
    ensures AllInTurn(Sched(k))
  {
    UserQueue(k);
    if k.rq[USER_Q] != [] {
      var p := k.rq[USER_Q][0];
      assert InTurn(k.procs[p]);
      forall x | 0 <= x < |k.procs|
        ensures InTurn(Sched(k).procs[x])
      {
        assert InTurn(k.procs[x]);
      }
    }
  }

  lemma ReplacedInTurn(k: Kernel, op: Op, p: nat)
    requires Inv(k) && Legal(k, op) && Replaces(op, p) && p < |k.procs|
    ensures |Step(k, op).procs| == |k.procs| && InTurn(Step(k, op).procs[p])
  {
  }

  /** What an entry may not do: set a priority below what has been used already. */
  predicate Fair(k: Kernel, op: Op) {
    op.SetPriority? ==> Grantable(k, op.pid, op.priority)
  }

  /** Of all entries only such a request makes a process overrun its turn. */
  lemma StepInTurn(k: Kernel, op: Op)
    requires Inv(k) && Legal(k, op) && AllInTurn(k)
    ensures AllInTurn(Step(k, op)) <==> Fair(k, op)
  {
    if op.SetPriority? {
      SetpriExact(k, op.pid, op.priority);
    } else if op.Tick? {
      TickInTurn(k);
    } else {
      StepSame(k, op);
      forall p | 0 <= p < |k.procs|
        ensures InTurn(Step(k, op).procs[p])
      {
        assert InTurn(k.procs[p]);
        if Replaces(op, p) {
          ReplacedInTurn(k, op, p);
        } else {
          StepDelivers(k, op, p);
        }
      }
    }
  }

  ghost predicate FairRun(k: Kernel, ops: seq<Op>)
    requires Inv(k) && LegalRun(k, ops)
    decreases |ops|
  {
    ops == [] || (Fair(k, ops[0]) && (StepKeeps(k, ops[0]); FairRun(Step(k, ops[0]), ops[1..])))
  }

  lemma {:induction false} RunInTurn(k: Kernel, ops: seq<Op>)
    requires Inv(k) && LegalRun(k, ops) && FairRun(k, ops) && AllInTurn(k)
    ensures AllInTurn(Run(k, ops))
    decreases |ops|
  {
    if ops != [] {
      StepInTurn(k, ops[0]);
      StepKeeps(k, ops[0]);
      RunInTurn(Step(k, ops[0]), ops[1..]);
    }
  }

  /** After every fair run, the process at position `i` of the user queue is at its head after
      exactly the turns of those in front of it, for as long as its own turn lasts. */
  lemma EverybodysTurn(k: Kernel, ops: seq<Op>, i: nat, m: nat)
    requires Inv(k) && LegalRun(k, ops) && FairRun(k, ops) && AllInTurn(k)
    requires i < |Run(k, ops).rq[USER_Q]| && Run(k, ops).rq[USER_Q][i] < |Run(k, ops).procs|
    requires m < Turn(Run(k, ops).procs[Run(k, ops).rq[USER_Q][i]])
    ensures var k' := Run(k, ops);
      var q := k'.rq[USER_Q];
      && UserQueueOk(k') && Patient(k', q)
      && Ticks(k', CallsBefore(k', i) + m).rq[USER_Q] == q[i..] + q[..i]
  {
    RunInTurn(k, ops);
    QueuePatient(Run(k, ops));
    TurnComes(Run(k, ops), i, m);
  }

  // ---- Somebody has overrun ----

  predicate Overrun(k: Kernel, p: nat) {
    p < |k.procs| && k.procs[p].prio.User? && k.procs[p].userPriority < k.procs[p].timeCounter
  }

  /** Only its exit or another priority helps a process that has overrun its turn. */
  predicate Helps(op: Op, p: nat) {
    op == Exit(p) || op.SetPriority?
  }

  lemma OverrunStays(k: Kernel, op: Op, p: nat)
    requires Inv(k) && Legal(k, op) && Overrun(k, p) && !Helps(op, p)
    ensures Overrun(Step(k, op), p)
  {
    if op.Tick? {
      UserQueue(k);
    } else {
      StepDelivers(k, op, p);
    }
  }

  lemma {:induction false} RunOverrun(k: Kernel, ops: seq<Op>, p: nat)
    requires Inv(k) && LegalRun(k, ops) && Overrun(k, p) && forall op | op in ops :: !Helps(op, p)
    ensures Overrun(Run(k, ops), p)
    decreases |ops|
  {
    if ops != [] {
      OverrunStays(k, ops[0], p);
      StepKeeps(k, ops[0]);
      assert forall op | op in ops[1..] :: op in ops;
      RunOverrun(Step(k, ops[0]), ops[1..], p);
    }
  }

  /** The priority of a process, ready or not, is set below what it has used: whenever it gets
      to the head of the user queue, the clock never takes it away from there again. */
  lemma LoweredStarvesOthers(k: Kernel, pid: int, priority: int, ops: seq<Op>, m: nat)
    requires Inv(k) && !Grantable(k, pid, priority)
    requires Inv(DoSetpri(k, pid, priority)) && LegalRun(DoSetpri(k, pid, priority), ops)
    requires forall op | op in ops :: !Helps(op, FirstPid(k.procs, pid, k.cfg.LowUser()).value)
    ensures var k', p := Run(DoSetpri(k, pid, priority), ops), FirstPid(k.procs, pid, k.cfg.LowUser()).value;
      && Overrun(k', p)
      && (k'.rq[USER_Q] != [] && k'.rq[USER_Q][0] == p ==> UserQueueOk(k') && Ticks(k', m).rq == k'.rq)
  {
    var p := FirstPid(k.procs, pid, k.cfg.LowUser()).value;
    var k1 := DoSetpri(k, pid, priority);
    RunOverrun(k1, ops, p);
    var k' := Run(k1, ops);
    if k'.rq[USER_Q] != [] && k'.rq[USER_Q][0] == p {
      UserQueue(k');
      TurnNeverEnds(k', m);
    }
  }
}
