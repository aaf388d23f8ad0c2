/** The process table of the kernel with the queues its links stand for, and what each
    kernel entry does to it. Processes are named by their slot in the table. */
module KernelSpec {
  import opened Options
  import opened Queues
  import opened WaitFor

  datatype Class = Unused | Task | Server | User | Idle

  /** From whom to receive; what the caller names need not be a slot of the table. */
  datatype Source = Any | From(p: int)

  datatype Function = Send | Receive | Both

  datatype Reply = OK | BadSource | NoPermission | BadDestination | BadAddress | Deadlock

  datatype Body = Plain(value: int) | HardInt | KernelSignals(to: nat, signals: set<nat>)

  datatype Message = Message(source: nat, body: Body)

  datatype Proc = Proc(
    prio: Class,
    // p_flags
    noMap: bool, sending: bool, receiving: bool, pending: bool, sigPending: bool, stopped: bool,
    getfrom: Source, sendto: nat,
    buf: Message,                     // what the message buffer of the call holds
    intBlocked: bool, intHeld: bool,
    signals: set<nat>, pendcount: nat,
    pid: int, userPriority: int, timeCounter: int)
  {
    predicate Runnable() {
      !noMap && !sending && !receiving && !pending && !sigPending && !stopped
    }

    /** Is it waiting for a message that a process `c` may send? */
    predicate Accepts(c: nat) {
      receiving && !sending && (getfrom == Any || getfrom == From(c))
    }

    function Edge(): Option<nat> {
      if sending then Some(sendto) else None
    }
  }

  /** Where the special slots are. MM is the first slot behind the tasks, FS the next one. */
  datatype Config = Config(nrTasks: nat, idle: nat, hardware: nat) {
    function Mm(): nat { nrTasks }
    function Fs(): nat { nrTasks + 1 }
    function LowUser(): nat { nrTasks + 2 }
  }

  datatype Kernel = Kernel(
    cfg: Config,
    procs: seq<Proc>,
    callers: seq<seq<nat>>,           // who waits to send to each process, in order of arrival
    rq: seq<seq<nat>>,                // the ready queues
    held: seq<nat>,                   // tasks whose interrupts are held up
    cur: nat, bill: nat,
    sigProcs: int, lastPriority: int,
    panicked: bool,
    handed: seq<nat>)                 // signals of each process told to MM and not yet ended

  const TASK_Q := 0
  const SERVER_Q := 1
  const USER_Q := 2

  function QueueOf(c: Class): nat {
    if c.Task? then TASK_Q else if c.Server? then SERVER_Q else USER_Q
  }

  predicate Shape(k: Kernel) {
    && k.cfg.LowUser() <= |k.procs| && k.cfg.idle < k.cfg.nrTasks && k.cfg.hardware < k.cfg.nrTasks
    && |k.callers| == |k.procs| && |k.handed| == |k.procs| && |k.rq| == 3
    && EdgesInTable(k.procs)
  }

  predicate EdgesInTable(procs: seq<Proc>) {
    forall p | 0 <= p < |procs| :: procs[p].sending ==> procs[p].sendto < |procs|
  }

  function Edges(procs: seq<Proc>): (next: Graph)
    ensures |next| == |procs| && forall p | 0 <= p < |procs| :: next[p] == procs[p].Edge()
  {
    seq(|procs|, p requires 0 <= p < |procs| => procs[p].Edge())
  }

  function Pick(cfg: Config, rq: seq<seq<nat>>): nat
    requires |rq| == 3
  {
    if rq[TASK_Q] != [] then rq[TASK_Q][0]
    else if rq[SERVER_Q] != [] then rq[SERVER_Q][0]
    else if rq[USER_Q] != [] then rq[USER_Q][0]
    else cfg.idle
  }

  function PickProc(k: Kernel): Kernel
    requires |k.rq| == 3
  {
    var p := Pick(k.cfg, k.rq);
    k.(cur := p, bill := if k.rq[TASK_Q] == [] && k.rq[SERVER_Q] == [] then p else k.bill)
  }

  /** Tasks and servers join at the end of their queue, user processes at the front; the
      first task to become ready runs at once. */
  function Ready(k: Kernel, p: nat): Kernel
    requires |k.rq| == 3 && p < |k.procs|
  {
    var q := QueueOf(k.procs[p].prio);
    k.(rq := k.rq[q := if q == USER_Q then [p] + k.rq[q] else k.rq[q] + [p]],
       cur := if q == TASK_Q && k.rq[q] == [] then p else k.cur)
  }

  /** Taking away the head of a queue makes another process run; a task only when it was running. */
  function Unready(k: Kernel, p: nat): Kernel
    requires |k.rq| == 3 && p < |k.procs|
  {
    var q := QueueOf(k.procs[p].prio);
    var k' := k.(rq := k.rq[q := Remove(k.rq[q], p)]);
    if k.rq[q] != [] && k.rq[q][0] == p && (q == TASK_Q ==> k.cur == p) then PickProc(k') else k'
  }

  function SetProc(k: Kernel, p: nat, proc: Proc): Kernel
    requires p < |k.procs|
  {
    k.(procs := k.procs[p := proc])
  }

  function ReadyIfRunnable(k: Kernel, p: nat): Kernel
    requires |k.rq| == 3 && p < |k.procs|
  {
    if k.procs[p].Runnable() then Ready(k, p) else k
  }

  function UnreadyIfRunnable(k: Kernel, p: nat): (k': Kernel)
    requires |k.rq| == 3 && p < |k.procs|
    ensures k' == k.(rq := k'.rq, cur := k'.cur, bill := k'.bill) && |k'.rq| == 3
  {
    if k.procs[p].Runnable() then Unready(k, p) else k
  }

  // ---- Sending and receiving ----

  /** The receiver gets the message and goes on. */
  function Deliver(k: Kernel, c: nat, d: nat, body: Body): (k': Kernel)
    requires |k.rq| == 3 && d < |k.procs|
    ensures Shape(k) ==> Shape(k') && |k'.procs| == |k.procs|
  {
    ReadyIfRunnable(SetProc(k, d, k.procs[d].(buf := Message(c, body), receiving := false)), d)
  }

  /** The sender waits at the end of the receiver's queue. */
  function BlockSender(k: Kernel, c: nat, d: nat, body: Body): (k': Kernel)
    requires |k.rq| == 3 && c < |k.procs| && d < |k.callers|
    ensures Shape(k) ==> Shape(k') && |k'.procs| == |k.procs|
  {
    var k1 := UnreadyIfRunnable(k, c);
    SetProc(k1, c, k1.procs[c].(buf := Message(c, body), sending := true, sendto := d))
      .(callers := k1.callers[d := k1.callers[d] + [c]])
  }

  /** Does the chain of blocked senders that begins behind a blocked destination lead to the caller? */
  ghost predicate ClosesCycle(procs: seq<Proc>, c: nat, d: nat)
    requires EdgesInTable(procs) && d < |procs|
  {
    procs[d].sending && LeadsTo(Edges(procs), procs[d].sendto, c)
  }

  /** `inside`: the message lies in the caller's memory. */
  ghost function MiniSend(k: Kernel, c: nat, d: nat, body: Body, inside: bool): (r: (Kernel, Reply))
    requires Shape(k) && c < |k.procs| && d < |k.procs|
    ensures Shape(r.0) && |r.0.procs| == |k.procs|
  {
    if k.procs[c].prio.User? && d != k.cfg.Mm() && d != k.cfg.Fs() then (k, BadDestination)
    else if k.procs[d].prio.Unused? then (k, BadDestination)
    else if !inside then (k, BadAddress)
    else if ClosesCycle(k.procs, c, d) then (k, Deadlock)
    else if k.procs[d].Accepts(c) then (Deliver(k, c, d, body), OK)
    else (BlockSender(k, c, d, body), OK)
  }

  /** The first waiting sender the receiver wants. */
  function Wanted(q: seq<nat>, src: Source): Option<nat> {
    if q == [] then None
    else if src == Any || src == From(q[0]) then Some(q[0])
    else Wanted(q[1..], src)
  }

  function RxHardware(cfg: Config, src: Source): bool {
    src == Any || src == From(cfg.hardware)
  }

  /** The message of a waiting sender is taken and the sender goes on. */
  function Accept(k: Kernel, c: nat, s: nat): Kernel
    requires |k.rq| == 3 && c < |k.procs| && |k.callers| == |k.procs|
  {
    if s < |k.procs| then
      var k1 := SetProc(k, c, k.procs[c].(buf := Message(s, k.procs[s].buf.body)));
      var k2 := SetProc(k1, s, k1.procs[s].(sending := false)).(callers := k.callers[c := Remove(k.callers[c], s)]);
      ReadyIfRunnable(k2, s)
    else k
  }

  function TakeInterrupt(k: Kernel, c: nat): Kernel
    requires c < |k.procs|
  {
    SetProc(k, c, k.procs[c].(buf := Message(k.cfg.hardware, HardInt), intBlocked := false))
  }

  function BlockReceiver(k: Kernel, c: nat, src: Source): (k': Kernel)
    requires |k.rq| == 3 && c < |k.procs|
    ensures Shape(k) ==> Shape(k') && |k'.procs| == |k.procs|
  {
    var k1 := UnreadyIfRunnable(k, c);
    SetProc(k1, c, k1.procs[c].(getfrom := src, receiving := true))
  }

  ghost function MiniRec(k: Kernel, c: nat, src: Source): Kernel
    requires Shape(k) && c < |k.procs|
  {
    var wanted := if k.procs[c].sending then None else Wanted(k.callers[c], src);
    if wanted.Some? then Accept(k, c, wanted.value)
    else if !k.procs[c].sending && k.procs[c].intBlocked && RxHardware(k.cfg, src) then TakeInterrupt(k, c)
    else
      var k' := BlockReceiver(k, c, src);
      if 0 < k.sigProcs && c == k.cfg.Mm() && src == Any then Inform(k') else k'
  }

  predicate OkSource(k: Kernel, src: Source) {
    src.From? ==> 0 <= src.p < |k.procs|
  }

  /** The call of the running process. The kernel trusts tasks and servers not to send to `Any`. */
  ghost function SysCall(k: Kernel, f: Function, src: Source, body: Body, inside: bool): (Kernel, Reply)
    requires Shape(k) && k.cur < |k.procs|
    requires src == Any && f != Receive ==> k.procs[k.cur].prio.User?
  {
    var user := k.procs[k.cur].prio.User?;
    if !OkSource(k, src) then (k, BadSource)
    else if user && f != Both then (k, NoPermission)
    else if f == Receive then (MiniRec(k, k.cur, src), OK)
    else if src == Any then (k, BadDestination)
    else
      var (k', n) := MiniSend(k, k.cur, src.p, body, inside);
      if f == Send || n != OK then (k', n) else (MiniRec(k', k.cur, src), OK)
  }

  // ---- Interrupts ----

  /** An interrupt for a task. `busy`: other process switching is going on. */
  function Interrupt(k: Kernel, t: nat, busy: bool): Kernel
    requires |k.rq| == 3 && t < |k.procs|
  {
    var proc := k.procs[t];
    if busy then
      if proc.intHeld then k else SetProc(k, t, proc.(intHeld := true)).(held := k.held + [t])
    else if !proc.receiving || proc.sending || !RxHardware(k.cfg, proc.getfrom) then
      SetProc(k, t, proc.(intBlocked := true))
    else
      Ready(SetProc(k, t, proc.(buf := Message(k.cfg.hardware, HardInt), receiving := false, intBlocked := false)), t)
  }

  /** The first held-up interrupt is repeated. */
  function UnholdOne(k: Kernel): Kernel
    requires |k.rq| == 3 && k.held != [] && k.held[0] < |k.procs|
  {
    var t := k.held[0];
    Interrupt(SetProc(k, t, k.procs[t].(intHeld := false)).(held := k.held[1..]), t, false)
  }

  // ---- Signals ----

  /** The first slot from `p` on with a signal MM does not know of. */
  function FirstPending(procs: seq<Proc>, p: nat): Option<nat>
    decreases |procs| - p
  {
    if |procs| <= p then None else if procs[p].pending then Some(p) else FirstPending(procs, p + 1)
  }

  /** A process stays inhibited while MM works on its signals. */
  function HandOver(k: Kernel, p: nat, told: nat): Kernel
    requires Shape(k) && p < |k.procs|
  {
    PickProc(SetProc(k, p, k.procs[p].(signals := {}, pending := false)).(handed := k.handed[p := k.handed[p] + told]))
  }

  /** The message to MM about the signals of process `p`. */
  ghost function SendSignals(k: Kernel, p: nat): (r: (Kernel, Reply))
    requires Shape(k) && p < |k.procs|
    ensures Shape(r.0) && |r.0.procs| == |k.procs|
  {
    MiniSend(k.(sigProcs := k.sigProcs - 1), k.cfg.hardware, k.cfg.Mm(), KernelSignals(p, k.procs[p].signals), true)
  }

  ghost function Tell(k: Kernel, p: nat): Kernel
    requires Shape(k) && p < |k.procs|
  {
    var (k', n) := SendSignals(k, p);
    if n != OK then k'.(panicked := true) else HandOver(k', p, |k.procs[p].signals|)
  }

  ghost function Inform(k: Kernel): Kernel
    requires Shape(k)
  {
    var found := FirstPending(k.procs, k.cfg.nrTasks);
    if found.Some? && found.value < |k.procs| then Tell(k, found.value) else k
  }

  predicate MmIdle(k: Kernel)
    requires k.cfg.Mm() < |k.procs|
  {
    k.procs[k.cfg.Mm()].receiving && k.procs[k.cfg.Mm()].getfrom == Any
  }

  function Noted(proc: Proc, sig: nat): Proc {
    proc.(signals := proc.signals + {sig}, pendcount := proc.pendcount + 1)
  }

  /** The first signal MM does not know of stops the process. */
  function Stopped(k: Kernel, p: nat, noted: Proc): (k': Kernel)
    requires |k.rq| == 3 && p < |k.procs|
    ensures Shape(k) && noted.Edge() == k.procs[p].Edge() ==> Shape(k') && |k'.procs| == |k.procs|
  {
    var k1 := UnreadyIfRunnable(SetProc(k, p, noted), p);
    SetProc(k1, p, noted.(pending := true, sigPending := true)).(sigProcs := k.sigProcs + 1)
  }

  ghost function CauseSig(k: Kernel, p: nat, sig: nat): Kernel
    requires Shape(k) && p < |k.procs|
  {
    var proc := k.procs[p];
    if sig in proc.signals then k
    else if proc.pending then SetProc(k, p, Noted(proc, sig))
    else
      var k' := Stopped(k, p, Noted(proc, sig));
      if MmIdle(k') then Inform(k') else k'
  }

  function Ended(proc: Proc): Proc
    requires 0 < proc.pendcount
  {
    proc.(pendcount := proc.pendcount - 1, sigPending := proc.sigPending && proc.pendcount != 1)
  }

  /** MM has finished one signal. */
  function DoEndsig(k: Kernel, p: nat): (Kernel, bool)
    requires Shape(k) && p < |k.procs|
  {
    var proc := k.procs[p];
    if proc.prio.Unused? then (k, false)
    else if proc.pendcount == 0 then (k, true)
    else
      var k' := SetProc(k, p, Ended(proc)).(handed := k.handed[p := if k.handed[p] == 0 then 0 else k.handed[p] - 1]);
      (if proc.pendcount == 1 && Ended(proc).Runnable() then Ready(k', p) else k', true)
  }

  // ---- Processes come and go ----

  function Cleared(proc: Proc): Proc {
    proc.(noMap := false, sending := false, receiving := false, pending := false, sigPending := false,
          stopped := false, signals := {}, pendcount := 0, prio := Unused)
  }

  /** A process is taken out of the queues and its slot is freed. */
  function DoXit(k: Kernel, p: nat): Kernel
    requires Shape(k) && p < |k.procs|
  {
    var k1 := UnreadyIfRunnable(k, p);
    var proc := k.procs[p];
    var callers' := if proc.sending then k.callers[proc.sendto := Remove(k.callers[proc.sendto], p)] else k.callers;
    SetProc(k1, p, Cleared(proc)).(callers := callers', handed := k.handed[p := 0],
      sigProcs := if proc.pending then k.sigProcs - 1 else k.sigProcs)
  }

  /** The child starts as a copy of its parent, caller queue included, that may not run yet. */
  function DoFork(k: Kernel, parent: nat, child: nat, pid: int): Kernel
    requires Shape(k) && parent < |k.procs| && child < |k.procs|
  {
    var prio := if k.lastPriority == 50 then 10 else 50;
    SetProc(k, child, k.procs[parent].(noMap := true, pending := false, sigPending := false, stopped := false,
                      signals := {}, pendcount := 0, pid := pid, timeCounter := 0, userPriority := prio))
      .(callers := k.callers[child := k.callers[parent]], lastPriority := prio)
  }

  /** The process has its memory map and may run. */
  function DoNewmap(k: Kernel, p: nat): Kernel
    requires |k.rq| == 3 && p < |k.procs|
  {
    var k' := SetProc(k, p, k.procs[p].(noMap := false));
    if k.procs[p].Runnable() then k' else ReadyIfRunnable(k', p)
  }

  // ---- Priorities ----

  /** The first user slot with this process identifier, whether in use or not. */
  function FirstPid(procs: seq<Proc>, pid: int, p: nat): Option<nat>
    decreases |procs| - p
  {
    if |procs| <= p then None else if procs[p].pid == pid then Some(p) else FirstPid(procs, pid, p + 1)
  }

  function DoGetpri(k: Kernel, pid: int): int {
    var found := FirstPid(k.procs, pid, k.cfg.LowUser());
    if found.Some? && found.value < |k.procs| then k.procs[found.value].userPriority else 0
  }

  /** The priority a request sets: 15 when it asks for one out of range. */
  function Granted(priority: int): int {
    if priority <= 0 || priority > 100 then 15 else priority
  }

  function DoSetpri(k: Kernel, pid: int, priority: int): Kernel {
    var found := FirstPid(k.procs, pid, k.cfg.LowUser());
    if found.Some? && found.value < |k.procs| then
      SetProc(k, found.value, k.procs[found.value].(userPriority := Granted(priority)))
    else k
  }

  /** The clock: the process at the head of the user queue has run for another quantum. */
  function Sched(k: Kernel): Kernel
    requires |k.rq| == 3 && (k.rq[USER_Q] != [] ==> k.rq[USER_Q][0] < |k.procs|)
  {
    var q := k.rq[USER_Q];
    if q == [] then k
    else
      var head := k.procs[q[0]];
      if head.timeCounter != head.userPriority then SetProc(k, q[0], head.(timeCounter := head.timeCounter + 1))
      else PickProc(SetProc(k, q[0], head.(timeCounter := 0)).(rq := k.rq[USER_Q := q[1..] + [q[0]]]))
  }
}
