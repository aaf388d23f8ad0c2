/** What holds of the process table and the queues between two kernel entries. */
module KernelInvariant {
  import opened KernelSpec
  import opened Options
  import opened Queues
  import opened WaitFor

  // ---- Slot by slot ----

  /** Tasks, servers and users each have their part of the table. */
  predicate ClassOk(cfg: Config, p: nat, prio: Class) {
    if p == cfg.idle then prio.Idle?
    else if p < cfg.nrTasks then prio.Task?
    else if p < cfg.LowUser() then prio.Server?
    else prio.User? || prio.Unused?
  }

  /** The pseudo processes that never run by way of the ready queues. */
  predicate Pseudo(cfg: Config, p: nat) {
    p == cfg.idle || p == cfg.hardware
  }

  predicate FlagsOk(cfg: Config, p: nat, proc: Proc) {
    && (p < cfg.LowUser() ==> !proc.noMap && !proc.pending && !proc.sigPending && !proc.stopped)
    && (Pseudo(cfg, p) || proc.prio.Unused? ==> proc.Runnable())
    && (proc.sending && proc.receiving ==> proc.getfrom == From(proc.sendto))
    && (proc.sending && proc.prio.User? ==> proc.sendto == cfg.Mm() || proc.sendto == cfg.Fs())
  }

  /** Signals not told to MM are marked by PENDING, those and the ones MM still works on are
      counted, and SIG_PENDING keeps the process from running until none is left. */
  predicate SignalsOk(proc: Proc, handed: nat) {
    && (proc.pending <==> proc.signals != {})
    && proc.pendcount == |proc.signals| + handed
    && (proc.sigPending <==> 0 < proc.pendcount)
  }

  /** Only tasks have interrupts, and a task waiting for one has none stored. */
  predicate InterruptsOk(cfg: Config, p: nat, proc: Proc) {
    && (proc.intHeld ==> proc.prio.Task? && !Pseudo(cfg, p))
    && (proc.receiving && !proc.sending && RxHardware(cfg, proc.getfrom) ==> !proc.intBlocked)
  }

  predicate SlotOk(cfg: Config, p: nat, proc: Proc, handed: nat) {
    ClassOk(cfg, p, proc.prio) && FlagsOk(cfg, p, proc) && SignalsOk(proc, handed) && InterruptsOk(cfg, p, proc)
  }

  predicate SlotsOk(k: Kernel)
    requires Shape(k)
  {
    forall p | 0 <= p < |k.procs| :: SlotOk(k.cfg, p, k.procs[p], k.handed[p])
  }

  // ---- Queues ----

  ghost predicate CallersAt(procs: seq<Proc>, q: seq<nat>, d: nat) {
    Distinct(q) && forall p: nat :: p in q <==> p < |procs| && procs[p].Edge() == Some(d)
  }

  /** A process is on the caller queue of exactly the one it is blocked sending to, once. */
  ghost predicate CallersOk(procs: seq<Proc>, callers: seq<seq<nat>>) {
    |callers| == |procs| && forall d | 0 <= d < |procs| :: CallersAt(procs, callers[d], d)
  }

  predicate Runs(cfg: Config, p: nat, proc: Proc) {
    !Pseudo(cfg, p) && !proc.prio.Unused? && proc.Runnable()
  }

  ghost predicate LineAt(cfg: Config, procs: seq<Proc>, q: seq<nat>, i: nat) {
    Distinct(q) && forall p: nat :: p in q <==> p < |procs| && Runs(cfg, p, procs[p]) && QueueOf(procs[p].prio) == i
  }

  /** A live process is on the ready queue of its class, once, exactly when no flag is set. */
  ghost predicate LinesOk(cfg: Config, procs: seq<Proc>, rq: seq<seq<nat>>) {
    |rq| == 3 && LineAt(cfg, procs, rq[TASK_Q], TASK_Q) && LineAt(cfg, procs, rq[SERVER_Q], SERVER_Q)
    && LineAt(cfg, procs, rq[USER_Q], USER_Q)
  }

  /** A task is on the held queue, once, exactly when it is marked so. */
  ghost predicate HeldOk(procs: seq<Proc>, held: seq<nat>) {
    Distinct(held) && forall p: nat :: p in held <==> p < |procs| && procs[p].intHeld
  }

  function PendingCount(procs: seq<Proc>): nat {
    if procs == [] then 0 else (if procs[0].pending then 1 else 0) + PendingCount(procs[1..])
  }

  /** Everything about the table but the ready queues. */
  ghost predicate Tables(k: Kernel) {
    && Shape(k) && SlotsOk(k) && CallersOk(k.procs, k.callers) && Acyclic(Edges(k.procs))
    && HeldOk(k.procs, k.held) && k.sigProcs == PendingCount(k.procs) && !k.panicked
  }

  ghost predicate Core(k: Kernel) {
    Tables(k) && LinesOk(k.cfg, k.procs, k.rq)
  }

  /** The head of the first ready queue that is not empty runs, or else the idle process. */
  predicate Settled(k: Kernel) {
    |k.rq| == 3 && k.cur == Pick(k.cfg, k.rq)
  }

  /** MM does not wait for any message while there is a signal it has not been told of. */
  predicate Told(k: Kernel)
    requires k.cfg.Mm() < |k.procs|
  {
    MmIdle(k) ==> k.sigProcs == 0
  }

  ghost predicate Inv(k: Kernel) {
    Core(k) && Settled(k) && Told(k)
  }

  // ---- Counting ----

  lemma {:induction false} PendingUpdate(procs: seq<Proc>, p: nat, proc: Proc)
    requires p < |procs|
    ensures PendingCount(procs[p := proc])
         == PendingCount(procs) - (if procs[p].pending then 1 else 0) + (if proc.pending then 1 else 0)
  {
    if p == 0 {
      assert procs[p := proc][1..] == procs[1..];
    } else {
      assert procs[p := proc][1..] == procs[1..][p - 1 := proc];
      PendingUpdate(procs[1..], p - 1, proc);
    }
  }

  lemma {:induction false} PendingSome(procs: seq<Proc>, p: nat)
    requires p < |procs| && procs[p].pending
    ensures 0 < PendingCount(procs)
  {
    if 0 < p {
      PendingSome(procs[1..], p - 1);
    }
  }

  lemma {:induction false} PendingNone(procs: seq<Proc>)
    requires 0 < PendingCount(procs)
    ensures exists p: nat :: p < |procs| && procs[p].pending
  {
    if !procs[0].pending {
      PendingNone(procs[1..]);
      var p: nat :| p < |procs[1..]| && procs[1..][p].pending;
      assert procs[p + 1].pending;
    }
  }

  lemma {:induction false} FirstPendingMeaning(procs: seq<Proc>, p: nat)
    ensures var found := FirstPending(procs, p);
      && (found.Some? ==> p <= found.value < |procs| && procs[found.value].pending)
      && (found.None? ==> forall x | p <= x < |procs| :: !procs[x].pending)
    decreases |procs| - p
  {
    if p < |procs| && !procs[p].pending {
      FirstPendingMeaning(procs, p + 1);
    }
  }

  // ---- One slot changes ----

  lemma EdgesUpdate(procs: seq<Proc>, p: nat, proc: Proc)
    requires p < |procs|
    ensures Edges(procs[p := proc]) == Edges(procs)[p := proc.Edge()]
  {
  }

  lemma CallersSame(procs: seq<Proc>, callers: seq<seq<nat>>, p: nat, proc: Proc)
    requires CallersOk(procs, callers) && p < |procs| && proc.Edge() == procs[p].Edge()
    ensures CallersOk(procs[p := proc], callers)
  {
    var procs' := procs[p := proc];
    forall d | 0 <= d < |procs|
      ensures CallersAt(procs', callers[d], d)
    {
      assert CallersAt(procs, callers[d], d);
    }
  }

  lemma CallersJoin(procs: seq<Proc>, callers: seq<seq<nat>>, c: nat, d: nat, proc: Proc)
    requires CallersOk(procs, callers) && c < |procs| && d < |procs|
    requires procs[c].Edge().None? && proc.Edge() == Some(d)
    ensures CallersOk(procs[c := proc], callers[d := callers[d] + [c]])
  {
    var procs', callers' := procs[c := proc], callers[d := callers[d] + [c]];
    forall e | 0 <= e < |procs|
      ensures CallersAt(procs', callers'[e], e)
    {
      assert CallersAt(procs, callers[e], e);
      AppendDistinct(callers[e], c);
    }
  }

  lemma CallersLeave(procs: seq<Proc>, callers: seq<seq<nat>>, s: nat, c: nat, proc: Proc)
    requires CallersOk(procs, callers) && s < |procs| && c < |procs|
    requires procs[s].Edge() == Some(c) && proc.Edge().None?
    ensures CallersOk(procs[s := proc], callers[c := Remove(callers[c], s)])
  {
    var procs', callers' := procs[s := proc], callers[c := Remove(callers[c], s)];
    forall e | 0 <= e < |procs|
      ensures CallersAt(procs', callers'[e], e)
    {
      assert CallersAt(procs, callers[e], e);
      RemoveMeaning(callers[e], s);
    }
  }

  lemma HeldSame(procs: seq<Proc>, held: seq<nat>, p: nat, proc: Proc)
    requires HeldOk(procs, held) && p < |procs| && proc.intHeld == procs[p].intHeld
    ensures HeldOk(procs[p := proc], held)
  {
  }

  lemma LineSame(cfg: Config, procs: seq<Proc>, q: seq<nat>, i: nat, p: nat, proc: Proc)
    requires LineAt(cfg, procs, q, i) && p < |procs|
    requires (Runs(cfg, p, proc) && QueueOf(proc.prio) == i) == (Runs(cfg, p, procs[p]) && QueueOf(procs[p].prio) == i)
    ensures LineAt(cfg, procs[p := proc], q, i)
  {
  }

  lemma LineJoins(cfg: Config, procs: seq<Proc>, q: seq<nat>, i: nat, p: nat, proc: Proc)
    requires LineAt(cfg, procs, q, i) && p < |procs|
    requires !Runs(cfg, p, procs[p]) && Runs(cfg, p, proc) && QueueOf(proc.prio) == i
    ensures LineAt(cfg, procs[p := proc], q + [p], i) && LineAt(cfg, procs[p := proc], [p] + q, i)
  {
    AppendDistinct(q, p);
  }

  lemma LineLeaves(cfg: Config, procs: seq<Proc>, q: seq<nat>, i: nat, p: nat, proc: Proc)
    requires LineAt(cfg, procs, q, i) && p < |procs| && !Runs(cfg, p, proc)
    ensures LineAt(cfg, procs[p := proc], Remove(q, p), i)
  {
    RemoveMeaning(q, p);
  }

  lemma LinesSame(cfg: Config, procs: seq<Proc>, rq: seq<seq<nat>>, p: nat, proc: Proc)
    requires LinesOk(cfg, procs, rq) && p < |procs|
    requires Runs(cfg, p, proc) == Runs(cfg, p, procs[p])
    requires Runs(cfg, p, proc) ==> QueueOf(proc.prio) == QueueOf(procs[p].prio)
    ensures LinesOk(cfg, procs[p := proc], rq)
  {
    LineSame(cfg, procs, rq[0], 0, p, proc);
    LineSame(cfg, procs, rq[1], 1, p, proc);
    LineSame(cfg, procs, rq[2], 2, p, proc);
  }

  lemma LinesReady(k: Kernel, p: nat, proc: Proc)
    requires LinesOk(k.cfg, k.procs, k.rq) && p < |k.procs|
    requires !Runs(k.cfg, p, k.procs[p]) && Runs(k.cfg, p, proc)
    ensures LinesOk(k.cfg, k.procs[p := proc], Ready(SetProc(k, p, proc), p).rq)
  {
    var procs', rq' := k.procs[p := proc], Ready(SetProc(k, p, proc), p).rq;
    forall i | 0 <= i < 3
      ensures LineAt(k.cfg, procs', rq'[i], i)
    {
      assert LineAt(k.cfg, k.procs, k.rq[i], i);
      if i == QueueOf(proc.prio) {
        LineJoins(k.cfg, k.procs, k.rq[i], i, p, proc);
      } else {
        LineSame(k.cfg, k.procs, k.rq[i], i, p, proc);
      }
    }
  }

  lemma LinesUnready(k: Kernel, p: nat, proc: Proc)
    requires LinesOk(k.cfg, k.procs, k.rq) && p < |k.procs|
    requires Runs(k.cfg, p, k.procs[p]) && !Runs(k.cfg, p, proc)
    ensures LinesOk(k.cfg, k.procs[p := proc], Unready(k, p).rq)
  {
    var procs', rq' := k.procs[p := proc], Unready(k, p).rq;
    forall i | 0 <= i < 3
      ensures LineAt(k.cfg, procs', rq'[i], i)
    {
      assert LineAt(k.cfg, k.procs, k.rq[i], i);
      if i == QueueOf(k.procs[p].prio) {
        LineLeaves(k.cfg, k.procs, k.rq[i], i, p, proc);
      } else {
        LineSame(k.cfg, k.procs, k.rq[i], i, p, proc);
      }
    }
  }

  // ---- Who runs ----

  lemma ReadySettled(k: Kernel, p: nat)
    requires Settled(k) && p < |k.procs|
    requires k.procs[p].prio.Task? || k.rq[TASK_Q] != [] || k.rq[SERVER_Q] != []
    ensures Settled(Ready(k, p))
  {
  }

  lemma UnreadySettled(k: Kernel, p: nat)
    requires Settled(k) && p < |k.procs|
    ensures Settled(Unready(k, p))
  {
    var q := QueueOf(k.procs[p].prio);
    var line := k.rq[q];
    if line != [] && line[0] != p {
      assert Remove(line, p) != [] && Remove(line, p)[0] == line[0];
    }
  }

  // ---- A slot changes and everything else goes on as before ----

  function Bit(b: bool): int {
    if b then 1 else 0
  }

  /** A slot gets a new content, and its signals are counted anew. */
  function Put(k: Kernel, p: nat, proc: Proc, handed: nat): Kernel
    requires p < |k.procs| && p < |k.handed|
  {
    SetProc(k, p, proc).(handed := k.handed[p := handed],
                         sigProcs := k.sigProcs - Bit(k.procs[p].pending) + Bit(proc.pending))
  }

  lemma PutSame(k: Kernel, p: nat, proc: Proc)
    requires p < |k.procs| && p < |k.handed| && proc.pending == k.procs[p].pending
    ensures Put(k, p, proc, k.handed[p]) == SetProc(k, p, proc)
  {
    assert k.handed[p := k.handed[p]] == k.handed;
  }

  /** The change of a slot that moves no edge. */
  lemma TablesPut(k: Kernel, p: nat, proc: Proc, handed: nat)
    requires Tables(k) && p < |k.procs| && SlotOk(k.cfg, p, proc, handed)
    requires proc.Edge() == k.procs[p].Edge() && proc.intHeld == k.procs[p].intHeld
    ensures Tables(Put(k, p, proc, handed))
  {
    EdgesUpdate(k.procs, p, proc);
    assert Edges(k.procs)[p := proc.Edge()] == Edges(k.procs);
    CallersSame(k.procs, k.callers, p, proc);
    HeldSame(k.procs, k.held, p, proc);
    PendingUpdate(k.procs, p, proc);
  }

  lemma CorePut(k: Kernel, p: nat, proc: Proc, handed: nat)
    requires Core(k) && p < |k.procs| && SlotOk(k.cfg, p, proc, handed)
    requires proc.Edge() == k.procs[p].Edge() && proc.intHeld == k.procs[p].intHeld
    requires Runs(k.cfg, p, proc) == Runs(k.cfg, p, k.procs[p])
    requires Runs(k.cfg, p, proc) ==> QueueOf(proc.prio) == QueueOf(k.procs[p].prio)
    ensures Core(Put(k, p, proc, handed))
  {
    TablesPut(k, p, proc, handed);
    LinesSame(k.cfg, k.procs, k.rq, p, proc);
  }

  /** The change of a slot that concerns its owner only. */
  lemma CoreSet(k: Kernel, p: nat, proc: Proc)
    requires Core(k) && p < |k.procs| && SlotOk(k.cfg, p, proc, k.handed[p])
    requires proc.Edge() == k.procs[p].Edge() && proc.intHeld == k.procs[p].intHeld
      && proc.pending == k.procs[p].pending
    requires Runs(k.cfg, p, proc) == Runs(k.cfg, p, k.procs[p])
    requires Runs(k.cfg, p, proc) ==> QueueOf(proc.prio) == QueueOf(k.procs[p].prio)
    ensures Core(SetProc(k, p, proc))
  {
    CorePut(k, p, proc, k.handed[p]);
    PutSame(k, p, proc);
  }

  /** The process is blocked no longer: it joins its ready queue. */
  lemma CoreReady(k: Kernel, p: nat, proc: Proc, handed: nat)
    requires Core(k) && p < |k.procs| && SlotOk(k.cfg, p, proc, handed)
    requires proc.Edge() == k.procs[p].Edge() && proc.intHeld == k.procs[p].intHeld
    requires !Runs(k.cfg, p, k.procs[p]) && Runs(k.cfg, p, proc)
    ensures Core(Ready(Put(k, p, proc, handed), p))
  {
    TablesPut(k, p, proc, handed);
    LinesReady(k, p, proc);
  }

  /** The process blocks: it leaves its ready queue. */
  lemma CoreUnready(k: Kernel, p: nat, proc: Proc, handed: nat)
    requires Core(k) && p < |k.procs| && SlotOk(k.cfg, p, proc, handed)
    requires proc.Edge() == k.procs[p].Edge() && proc.intHeld == k.procs[p].intHeld
    requires Runs(k.cfg, p, k.procs[p]) && !Runs(k.cfg, p, proc)
    ensures Core(Put(Unready(k, p), p, proc, handed))
  {
    TablesPut(k, p, proc, handed);
    LinesUnready(k, p, proc);
  }
}
