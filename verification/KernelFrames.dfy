/** What one kernel entry after the other leaves to a process: the message it waits to send,
    the interrupt it has not taken yet, and its turn. */
module KernelFrames {
  import opened KernelCalls
  import opened KernelEvents
  import opened KernelInvariant
  import opened KernelProcesses
  import opened KernelRuns
  import opened KernelSpec
  import opened KernelSteps

  /** Process `p` waits to send this message to `d`. */
  predicate Waits(k: Kernel, p: nat, d: nat, body: Body) {
    p < |k.procs| && k.procs[p].sending && k.procs[p].sendto == d && k.procs[p].buf.body == body
  }

  /** A blocked sender goes on waiting with the same message for the same process, or that
      process is the one that receives, `c`, and returns from its call with the message. */
  predicate LetterKept(k: Kernel, k': Kernel, c: nat, p: nat)
    requires p < |k.procs| && p < |k'.procs|
  {
    var before, after := k.procs[p], k'.procs[p];
    before.sending ==>
      if after.sending then after.buf == before.buf && after.sendto == before.sendto
      else before.sendto == c && Returned(k', c, Message(p, before.buf.body))
  }

  /** A process waits for no message any more, and has this one. */
  predicate Returned(k: Kernel, p: nat, m: Message) {
    p < |k.procs| && !k.procs[p].receiving && k.procs[p].buf == m
  }

  predicate HasInterrupt(proc: Proc) {
    proc.intBlocked || proc.intHeld
  }

  /** The answer a task gets to a receive is its interrupt. */
  predicate Takes(k: Kernel, k': Kernel, c: nat, t: nat)
    requires t < |k.procs|
  {
    (k.procs[t].receiving || t == c) && Returned(k', t, Message(k.cfg.hardware, HardInt))
  }

  /** An interrupt that is stored or held up stays so until a receive of its task is answered
      with it, be it one that waits already or one of the process that receives, `c`. */
  predicate InterruptKept(k: Kernel, k': Kernel, c: nat, t: nat)
    requires t < |k.procs| && t < |k'.procs|
  {
    HasInterrupt(k.procs[t]) ==> HasInterrupt(k'.procs[t]) || Takes(k, k', c, t)
  }

  predicate SameTurn(before: Proc, after: Proc) {
    && after.prio == before.prio && after.pid == before.pid
    && after.timeCounter == before.timeCounter && after.userPriority == before.userPriority
  }

  predicate SameMessages(k: Kernel, k': Kernel, c: nat, p: nat) {
    && k'.cfg == k.cfg && |k'.procs| == |k.procs| && p < |k.procs|
    && LetterKept(k, k', c, p) && InterruptKept(k, k', c, p) && k'.procs[p].prio == k.procs[p].prio
  }

  predicate Fate(k: Kernel, k': Kernel, c: nat, p: nat) {
    SameMessages(k, k', c, p) && SameTurn(k.procs[p], k'.procs[p])
  }

  /** Nothing that waits is delivered; at most the process that receives begins to wait. */
  predicate Quiet(k: Kernel, k': Kernel, c: nat, p: nat) {
    && k'.cfg == k.cfg && |k'.procs| == |k.procs| && p < |k.procs|
    && (k.procs[p].sending ==>
          k'.procs[p].sending && k'.procs[p].buf == k.procs[p].buf && k'.procs[p].sendto == k.procs[p].sendto)
    && (HasInterrupt(k.procs[p]) ==> HasInterrupt(k'.procs[p]))
    && (k'.procs[p].receiving ==> k.procs[p].receiving || p == c)
    && SameTurn(k.procs[p], k'.procs[p])
  }

  /** Who may receive by the call that is made; out of the table for entries that are none. */
  function Receiver(k: Kernel, op: Op): nat {
    if op.Call? && op.f != Send then k.cur else |k.procs|
  }

  lemma QuietThen(k: Kernel, k1: Kernel, k2: Kernel, c: nat, p: nat)
    requires Quiet(k, k1, c, p) && Fate(k1, k2, c, p)
    ensures Fate(k, k2, c, p)
  {
  }

  // ---- Sending and receiving ----

  lemma DeliverQuiet(k: Kernel, c: nat, d: nat, body: Body, r: nat, p: nat)
    requires |k.rq| == 3 && d < |k.procs| && p < |k.procs| && k.procs[d].Accepts(c)
    ensures Quiet(k, Deliver(k, c, d, body), r, p)
  {
  }

  lemma BlockSenderQuiet(k: Kernel, c: nat, d: nat, body: Body, r: nat, p: nat)
    requires |k.rq| == 3 && c < |k.procs| && d < |k.callers| && p < |k.procs| && !k.procs[c].sending
    ensures Quiet(k, BlockSender(k, c, d, body), r, p)
  {
  }

  lemma BlockReceiverQuiet(k: Kernel, c: nat, src: Source, p: nat)
    requires |k.rq| == 3 && c < |k.procs| && p < |k.procs|
    ensures Quiet(k, BlockReceiver(k, c, src), c, p)
  {
  }

  lemma AcceptFate(k: Kernel, c: nat, s: nat, p: nat)
    requires |k.rq| == 3 && c < |k.procs| && |k.callers| == |k.procs| && s < |k.procs| && p < |k.procs|
    requires !k.procs[c].sending && !k.procs[c].receiving && k.procs[s].sending && k.procs[s].sendto == c
    ensures Fate(k, Accept(k, c, s), c, p)
  {
  }

  lemma InformQuiet(k: Kernel, c: nat, p: nat)
    requires Tables(k) && MmIdle(k) && 0 < k.sigProcs && p < |k.procs|
    ensures Quiet(k, Inform(k), c, p)
  {
    PendingFound(k);
    InformIs(k, FirstPending(k.procs, k.cfg.nrTasks).value);
    MmTakesAtOnce(k);
  }

  lemma ReceiveFate(k: Kernel, c: nat, src: Source, p: nat)
    requires Inv(k) && c < |k.procs| && p < |k.procs| && Runs(k.cfg, c, k.procs[c]) && !k.procs[c].prio.User?
    ensures Fate(k, MiniRec(k, c, src), c, p)
  {
    WantedIn(k.callers[c], src);
    if Wanted(k.callers[c], src).Some? {
      WaitingSender(k, c, Wanted(k.callers[c], src).value);
      AcceptFate(k, c, Wanted(k.callers[c], src).value, p);
    } else if !(k.procs[c].intBlocked && RxHardware(k.cfg, src)) {
      BlockReceiverQuiet(k, c, src, p);
      if 0 < k.sigProcs && c == k.cfg.Mm() && src == Any {
        BlockReceiverKeeps(k, c, src);
        InformQuiet(BlockReceiver(k, c, src), c, p);
      }
    }
  }

  lemma CallFate(k: Kernel, f: Function, src: Source, body: Body, inside: bool, p: nat)
    requires Inv(k) && Legal(k, Call(f, src, body, inside)) && p < |k.procs|
    ensures Fate(k, SysCall(k, f, src, body, inside).0, Receiver(k, Call(f, src, body, inside)), p)
  {
    CurrentRuns(k);
    var c := k.cur;
    if !OkSource(k, src) || (k.procs[c].prio.User? && f != Both) || (f != Receive && src == Any) {
    } else if f == Receive {
      ReceiveFate(k, c, src, p);
    } else if MiniSend(k, c, src.p, body, inside).1 == OK {
      if f == Both {
        ExchangeFate(k, src.p, body, p);
      } else {
        SendQuiet(k, c, src.p, body, |k.procs|, p);
      }
    }
  }

  lemma SendQuiet(k: Kernel, c: nat, d: nat, body: Body, r: nat, p: nat)
    requires Shape(k) && c < |k.procs| && d < |k.procs| && p < |k.procs| && !k.procs[c].sending
    requires MiniSend(k, c, d, body, true).1 == OK
    ensures Quiet(k, MiniSend(k, c, d, body, true).0, r, p)
  {
    if k.procs[d].Accepts(c) {
      DeliverQuiet(k, c, d, body, r, p);
    } else {
      BlockSenderQuiet(k, c, d, body, r, p);
    }
  }

  lemma AnswerFate(k: Kernel, d: nat, body: Body, p: nat)
    requires Inv(k) && k.cur < |k.procs| && Runs(k.cfg, k.cur, k.procs[k.cur]) && d < |k.procs| && p < |k.procs|
    requires k.procs[d].Accepts(k.cur)
    requires k.procs[k.cur].prio.User? ==> d == k.cfg.Mm() || d == k.cfg.Fs()
    ensures var k1 := Deliver(k, k.cur, d, body); Shape(k1) && Fate(k1, MiniRec(k1, k.cur, From(d)), k.cur, p)
  {
    var c := k.cur;
    if k.procs[c].prio.User? {
      TakenFromUser(k, c, d, body);
      BlockReceiverQuiet(Deliver(k, c, d, body), c, From(d), p);
    } else {
      TakenFromServer(k, c, d, body);
      ReceiveFate(Deliver(k, c, d, body), c, From(d), p);
    }
  }

  /** The answer to a message is waited for with the message itself still under way, or taken. */
  lemma ExchangeFate(k: Kernel, d: nat, body: Body, p: nat)
    requires Inv(k) && k.cur < |k.procs| && Runs(k.cfg, k.cur, k.procs[k.cur])
    requires d < |k.procs| && d != k.cur && p < |k.procs| && MiniSend(k, k.cur, d, body, true).1 == OK
    ensures Fate(k, MiniRec(MiniSend(k, k.cur, d, body, true).0, k.cur, From(d)), k.cur, p)
  {
    var c := k.cur;
    var k1 := MiniSend(k, c, d, body, true).0;
    SendQuiet(k, c, d, body, c, p);
    if k.procs[d].Accepts(c) {
      AnswerFate(k, d, body, p);
    } else {
      BlockReceiverQuiet(k1, c, From(d), p);
    }
    QuietThen(k, k1, MiniRec(k1, c, From(d)), c, p);
  }

  // ---- The other entries ----

  lemma StoppedQuiet(k: Kernel, q: nat, noted: Proc, c: nat, p: nat)
    requires |k.rq| == 3 && q < |k.procs| && p < |k.procs|
    requires noted == k.procs[q].(signals := noted.signals, pendcount := noted.pendcount)
    ensures Quiet(k, Stopped(k, q, noted), c, p)
  {
  }

  lemma SignalFate(k: Kernel, q: nat, sig: nat, c: nat, p: nat)
    requires Inv(k) && IsUser(k, q) && p < |k.procs|
    ensures Fate(k, CauseSig(k, q, sig), c, p)
  {
    if sig !in k.procs[q].signals && !k.procs[q].pending {
      var noted := Noted(k.procs[q], sig);
      var k' := Stopped(k, q, noted);
      StoppedQuiet(k, q, noted, c, p);
      if MmIdle(k') {
        NotedOk(k.cfg, q, k.procs[q], k.handed[q], sig);
        StoppedTables(k, q, noted);
        InformQuiet(k', c, p);
      }
    }
  }

  lemma InterruptFate(k: Kernel, t: nat, busy: bool, c: nat, p: nat)
    requires |k.rq| == 3 && t < |k.procs| && p < |k.procs|
    ensures Fate(k, Interrupt(k, t, busy), c, p)
    ensures HasInterrupt(Interrupt(k, t, busy).procs[t]) || Takes(k, Interrupt(k, t, busy), |k.procs|, t)
  {
  }

  lemma UnholdFate(k: Kernel, c: nat, p: nat)
    requires |k.rq| == 3 && k.held != [] && k.held[0] < |k.procs| && p < |k.procs|
    ensures Fate(k, UnholdOne(k), c, p)
  {
    var t := k.held[0];
    InterruptFate(SetProc(k, t, k.procs[t].(intHeld := false)).(held := k.held[1..]), t, false, c, p);
  }

  lemma EndFate(k: Kernel, q: nat, c: nat, p: nat)
    requires Shape(k) && q < |k.procs| && p < |k.procs|
    ensures Fate(k, DoEndsig(k, q).0, c, p) && Fate(k, DoNewmap(k, q), c, p)
    ensures p != q ==> Fate(k, DoXit(k, q), c, p)
  {
  }

  lemma ForkFate(k: Kernel, parent: nat, child: nat, pid: int, c: nat, p: nat)
    requires Shape(k) && parent < |k.procs| && child < |k.procs| && p < |k.procs| && p != child
    ensures Fate(k, DoFork(k, parent, child, pid), c, p)
  {
  }

  lemma ClockFate(k: Kernel, pid: int, priority: int, c: nat, p: nat)
    requires |k.rq| == 3 && p < |k.procs| && (k.rq[USER_Q] != [] ==> k.rq[USER_Q][0] < |k.procs|)
    ensures SameMessages(k, Sched(k), c, p) && SameMessages(k, DoSetpri(k, pid, priority), c, p)
  {
  }

  /** Does the entry end the life of the process, or begin it? */
  predicate Replaces(op: Op, p: nat) {
    op == Exit(p) || (op.Fork? && op.child == p)
  }

  /** What any entry leaves to a process that it does not end or begin. */
  lemma StepDelivers(k: Kernel, op: Op, p: nat)
    requires Inv(k) && Legal(k, op) && p < |k.procs| && !Replaces(op, p)
    ensures SameMessages(k, Step(k, op), Receiver(k, op), p)
    ensures !op.Tick? && !op.SetPriority? ==> Fate(k, Step(k, op), Receiver(k, op), p)
  {
    var c := Receiver(k, op);
    match op
    case Call(f, src, body, inside) => CallFate(k, f, src, body, inside, p);
    case Irq(t, busy) => InterruptFate(k, t, busy, c, p);
    case Unhold => UnholdFate(k, c, p);
    case Tick => ClockFate(k, 0, 0, c, p);
    case Signal(q, sig) => SignalFate(k, q, sig, c, p);
    case EndSignal(q) => EndFate(k, q, c, p);
    case Fork(parent, child, pid) => ForkFate(k, parent, child, pid, c, p);
    case Exit(q) => EndFate(k, q, c, p);
    case NewMap(q) => EndFate(k, q, c, p);
    case SetPriority(pid, priority) => SchedKeeps(k); ClockFate(k, pid, priority, c, p);
  }

  /** The slots stay where they are. */
  lemma StepSame(k: Kernel, op: Op)
    requires Inv(k) && Legal(k, op)
    ensures Step(k, op).cfg == k.cfg && |Step(k, op).procs| == |k.procs|
  {
    if !op.Exit? && !op.Fork? {
      StepDelivers(k, op, 0);
    }
  }

  /** A blocked sender stops waiting only when it exits, or when the process it waits for calls
      to receive and returns from the call with the message; until then nothing about it changes. */
  lemma LettersKept(k: Kernel, op: Op, p: nat)
    requires Inv(k) && Legal(k, op) && p < |k.procs| && op != Exit(p)
    ensures |Step(k, op).procs| == |k.procs| && LetterKept(k, Step(k, op), Receiver(k, op), p)
  {
    if Replaces(op, p) {
      assert SlotOk(k.cfg, p, k.procs[p], k.handed[p]);
    } else {
      StepDelivers(k, op, p);
    }
  }

  /** A stored or held-up interrupt of a task stays until a receive of the task is answered with it. */
  lemma InterruptsKept(k: Kernel, op: Op, t: nat)
    requires Inv(k) && Legal(k, op) && HasInterrupts(k, t)
    ensures HasInterrupts(Step(k, op), t) && InterruptKept(k, Step(k, op), Receiver(k, op), t)
  {
    StepDelivers(k, op, t);
  }

  // ---- Over whole runs ----

  /** The entry is a call of `d` to receive, and it returns with the message of `p`. */
  ghost predicate Hears(k: Kernel, op: Op, p: nat, d: nat, body: Body)
    requires Shape(k) && Legal(k, op)
  {
    d == Receiver(k, op) && Returned(Step(k, op), d, Message(p, body))
  }

  ghost predicate HeardDuring(k: Kernel, ops: seq<Op>, p: nat, d: nat, body: Body)
    requires Inv(k) && LegalRun(k, ops)
    decreases |ops|
  {
    ops != [] && (Hears(k, ops[0], p, d, body)
      || (StepKeeps(k, ops[0]); HeardDuring(Step(k, ops[0]), ops[1..], p, d, body)))
  }

  /** During any legal run a message that a process waits to send is heard, or it still waits
      unchanged at the end, or the sender has exited. */
  lemma {:induction false} MessageComes(k: Kernel, ops: seq<Op>, p: nat, d: nat, body: Body)
    requires Inv(k) && LegalRun(k, ops) && Waits(k, p, d, body)
    ensures HeardDuring(k, ops, p, d, body) || Exit(p) in ops || Waits(Run(k, ops), p, d, body)
    decreases |ops|
  {
    if ops != [] && ops[0] != Exit(p) {
      LettersKept(k, ops[0], p);
      StepKeeps(k, ops[0]);
      if Waits(Step(k, ops[0]), p, d, body) {
        MessageComes(Step(k, ops[0]), ops[1..], p, d, body);
        assert forall op | op in ops[1..] :: op in ops;
      }
    }
  }

  /** What is sent with a reply of OK is taken by a receiver that waits already, and else in
      the course of whatever happens then, unless it still waits or the sender has exited. */
  lemma SentComes(k: Kernel, f: Function, d: nat, body: Body, inside: bool, ops: seq<Op>)
    requires Inv(k) && f != Receive && Legal(k, Call(f, From(d), body, inside))
    requires SysCall(k, f, From(d), body, inside).1 == OK
    requires var k' := Step(k, Call(f, From(d), body, inside)); Inv(k') && LegalRun(k', ops)
    ensures var k' := Step(k, Call(f, From(d), body, inside));
      || (k.procs[d].receiving && Returned(k', d, Message(k.cur, body)))
      || HeardDuring(k', ops, k.cur, d, body) || Exit(k.cur) in ops || Waits(Run(k', ops), k.cur, d, body)
  {
    var k' := Step(k, Call(f, From(d), body, inside));
    CallSends(k, f, d, body, inside);
    if Waits(k', k.cur, d, body) {
      MessageComes(k', ops, k.cur, d, body);
    }
  }

  lemma CallSends(k: Kernel, f: Function, d: nat, body: Body, inside: bool)
    requires Inv(k) && f != Receive && Legal(k, Call(f, From(d), body, inside))
    requires SysCall(k, f, From(d), body, inside).1 == OK
    ensures d < |k.procs|
    ensures var k' := SysCall(k, f, From(d), body, inside).0;
      if k.procs[d].Accepts(k.cur) then Returned(k', d, Message(k.cur, body)) else Waits(k', k.cur, d, body)
  {
    CurrentRuns(k);
    SendLeaves(k, k.cur, d, body);
    AnswerLeaves(MiniSend(k, k.cur, d, body, true).0, k.cur, d, body, k.procs[d].Accepts(k.cur));
  }

  lemma SendLeaves(k: Kernel, c: nat, d: nat, body: Body)
    requires Shape(k) && c < |k.procs| && d < |k.procs| && d != c && MiniSend(k, c, d, body, true).1 == OK
    ensures var k' := MiniSend(k, c, d, body, true).0;
      if k.procs[d].Accepts(c) then Returned(k', d, Message(c, body)) && !k'.procs[d].sending else Waits(k', c, d, body)
  {
  }

  lemma AnswerLeaves(k: Kernel, c: nat, d: nat, body: Body, taken: bool)
    requires Shape(k) && c < |k.procs| && d < |k.procs| && d != c
    requires if taken then Returned(k, d, Message(c, body)) && !k.procs[d].sending else Waits(k, c, d, body)
    ensures var k' := MiniRec(k, c, From(d)); if taken then Returned(k', d, Message(c, body)) else Waits(k', c, d, body)
  {
    if taken {
      ReceiveKeepsOthers(k, c, d);
    } else {
      BlockReceiverQuiet(k, c, From(d), c);
    }
  }

  lemma ReceiveKeepsOthers(k: Kernel, c: nat, d: nat)
    requires Shape(k) && c < |k.procs| && d < |k.procs| && d != c && !k.procs[d].sending
    ensures MiniRec(k, c, From(d)).procs[d] == k.procs[d]
  {
    WantedIn(k.callers[c], From(d));
  }

  ghost predicate TakesDuring(k: Kernel, ops: seq<Op>, t: nat)
    requires Inv(k) && LegalRun(k, ops) && t < |k.procs|
    decreases |ops|
  {
    ops != [] && (Takes(k, Step(k, ops[0]), Receiver(k, ops[0]), t)
      || (StepKeeps(k, ops[0]); t < |Step(k, ops[0]).procs| && TakesDuring(Step(k, ops[0]), ops[1..], t)))
  }

  /** No interrupt is lost: during any legal run that begins with it a receive of its task is
      answered with it, or at the end it is still stored or held up. */
  lemma InterruptComes(k: Kernel, t: nat, busy: bool, ops: seq<Op>)
    requires Inv(k) && Legal(k, Irq(t, busy)) && LegalRun(k, [Irq(t, busy)] + ops)
    ensures var all := [Irq(t, busy)] + ops;
      TakesDuring(k, all, t) || (t < |Run(k, all).procs| && HasInterrupt(Run(k, all).procs[t]))
  {
    var op := Irq(t, busy);
    assert ([op] + ops)[0] == op && ([op] + ops)[1..] == ops;
    StepKeeps(k, op);
    InterruptsKept(k, op, t);
    InterruptFate(k, t, busy, |k.procs|, t);
    if HasInterrupt(Interrupt(k, t, busy).procs[t]) {
      StoredComes(Interrupt(k, t, busy), ops, t);
    }
  }

  lemma {:induction false} StoredComes(k: Kernel, ops: seq<Op>, t: nat)
    requires Inv(k) && LegalRun(k, ops) && HasInterrupts(k, t) && HasInterrupt(k.procs[t])
    ensures TakesDuring(k, ops, t) || (t < |Run(k, ops).procs| && HasInterrupt(Run(k, ops).procs[t]))
    decreases |ops|
  {
    if ops != [] {
      InterruptsKept(k, ops[0], t);
      StepKeeps(k, ops[0]);
      if HasInterrupt(Step(k, ops[0]).procs[t]) {
        StoredComes(Step(k, ops[0]), ops[1..], t);
      }
    }
  }
}
