/** Signals over runs of the kernel: none is dropped between the one who causes it and MM. */
module KernelSignals {
  import opened KernelAnswers
  import opened KernelEvents
  import opened KernelFrames
  import opened KernelInvariant
  import opened KernelRuns
  import opened KernelSpec

  /** In this entry a receive of MM returns with signals of the process, this one among them. */
  ghost predicate TellsSignal(k: Kernel, op: Op, p: nat, sig: nat)
    requires Shape(k) && Legal(k, op)
  {
    exists all: set<nat> :: sig in all && Tells(k, Step(k, op), Receiver(k, op), p, all)
  }

  predicate Recorded(k: Kernel, p: nat, sig: nat) {
    p < |k.procs| && sig in k.procs[p].signals
  }

  /** A signal is told to MM or stays with its process, unless the process exits. */
  lemma SignalKept(k: Kernel, op: Op, p: nat, sig: nat)
    requires Inv(k) && Legal(k, op) && Recorded(k, p, sig) && op != Exit(p)
    ensures Recorded(Step(k, op), p, sig) || TellsSignal(k, op, p, sig)
  {
    StepSame(k, op);
    assert SlotOk(k.cfg, p, k.procs[p], k.handed[p]);
    if About(op, p) {
      match op
      case Signal(_, sig') =>
        CauseExact(k, p, sig');
        assert Tells(k, Step(k, op), Receiver(k, op), p, k.procs[p].signals + {sig'})
          || sig in Step(k, op).procs[p].signals;
      case EndSignal(_) =>
        if k.procs[p].prio.Unused? || k.procs[p].pendcount == 0 {
          EndsigNothing(k, p);
        } else {
          EndsigCounts(k, p);
        }
      case NewMap(_) => NewmapProcs(k, p);
      case Fork(_, _, _) =>
    } else {
      StepWhole(k, op, p);
      assert Tells(k, Step(k, op), Receiver(k, op), p, k.procs[p].signals) || Recorded(Step(k, op), p, sig);
    }
  }

  ghost predicate ToldDuring(k: Kernel, ops: seq<Op>, p: nat, sig: nat)
    requires Inv(k) && LegalRun(k, ops)
    decreases |ops|
  {
    ops != [] && (TellsSignal(k, ops[0], p, sig)
      || (StepKeeps(k, ops[0]); ToldDuring(Step(k, ops[0]), ops[1..], p, sig)))
  }

  lemma {:induction false} RecordedComes(k: Kernel, ops: seq<Op>, p: nat, sig: nat)
    requires Inv(k) && LegalRun(k, ops) && Recorded(k, p, sig)
    ensures ToldDuring(k, ops, p, sig) || Exit(p) in ops || Recorded(Run(k, ops), p, sig)
    decreases |ops|
  {
    if ops != [] && ops[0] != Exit(p) {
      SignalKept(k, ops[0], p, sig);
      StepKeeps(k, ops[0]);
      if Recorded(Step(k, ops[0]), p, sig) {
        RecordedComes(Step(k, ops[0]), ops[1..], p, sig);
        assert forall op | op in ops[1..] :: op in ops;
      }
    }
  }

  /** Over every legal run that begins with a signal MM is told of it, or it still waits at the
      end, or the process has exited. */
  lemma SignalComes(k: Kernel, p: nat, sig: nat, ops: seq<Op>)
    requires Inv(k) && Legal(k, Signal(p, sig)) && LegalRun(k, [Signal(p, sig)] + ops)
    ensures var all := [Signal(p, sig)] + ops;
      ToldDuring(k, all, p, sig) || Exit(p) in ops || Recorded(Run(k, all), p, sig)
  {
    var op := Signal(p, sig);
    assert ([op] + ops)[0] == op && ([op] + ops)[1..] == ops;
    StepKeeps(k, op);
    StepSame(k, op);
    CauseExact(k, p, sig);
    assert Tells(k, Step(k, op), Receiver(k, op), p, k.procs[p].signals + {sig}) || Recorded(Step(k, op), p, sig);
    if Recorded(Step(k, op), p, sig) {
      RecordedComes(Step(k, op), ops, p, sig);
    }
  }

  /** The count of a process goes up by one for each new signal and down by one for each that is
      ended, and does not change otherwise while the process lives. */
  lemma CountExact(k: Kernel, op: Op, p: nat)
    requires Inv(k) && Legal(k, op) && IsUser(k, p) && op != Exit(p)
    ensures |Step(k, op).procs| == |k.procs|
    ensures Step(k, op).procs[p].pendcount == k.procs[p].pendcount
      + (if op.Signal? && op.p == p && op.sig !in k.procs[p].signals then 1 else 0)
      - (if op == EndSignal(p) && 0 < k.procs[p].pendcount then 1 else 0)
  {
    StepSame(k, op);
    if About(op, p) {
      match op
      case Signal(_, sig) => CauseExact(k, p, sig);
      case EndSignal(_) =>
        if k.procs[p].pendcount == 0 {
          EndsigNothing(k, p);
        } else {
          EndsigCounts(k, p);
        }
      case NewMap(_) => NewmapProcs(k, p);
    } else {
      StepWhole(k, op, p);
    }
  }
}
