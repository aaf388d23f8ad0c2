/** What each call is answered with, and what an entry leaves of everybody's waiting, flags
    and signals. */
module KernelAnswers {
  import opened KernelCalls
  import opened KernelEvents
  import opened KernelFrames
  import opened KernelInvariant
  import opened KernelProcesses
  import opened KernelRuns
  import opened KernelSpec
  import opened KernelSteps
  import opened Options
  import Queues
  import opened WaitFor

  // ---- Replies ----

  /** No message can be sent there: a user may only send to MM and FS, nobody to a free slot. */
  predicate NoSuchDestination(k: Kernel, c: nat, d: nat)
    requires c < |k.procs| && d < |k.procs|
  {
    (k.procs[c].prio.User? && d != k.cfg.nrTasks && d != k.cfg.nrTasks + 1) || k.procs[d].prio.Unused?
  }

  /** The destination waits to send to somebody, who waits to send to somebody, and so on to the caller. */
  ghost predicate WaitsFor(k: Kernel, c: nat, d: nat)
    requires Shape(k) && d < |k.procs|
  {
    k.procs[d].sending && LeadsTo(Edges(k.procs), k.procs[d].sendto, c)
  }

  /** Each reply of a send, exactly; a send that is refused leaves everything as it was. */
  lemma SendReplies(k: Kernel, c: nat, d: nat, body: Body, inside: bool)
    requires Shape(k) && c < |k.procs| && d < |k.procs|
    ensures var (k', r) := MiniSend(k, c, d, body, inside);
      && (r == BadDestination <==> NoSuchDestination(k, c, d))
      && (r == BadAddress <==> !NoSuchDestination(k, c, d) && !inside)
      && (r == Deadlock <==> !NoSuchDestination(k, c, d) && inside && WaitsFor(k, c, d))
      && (r == OK <==> !NoSuchDestination(k, c, d) && inside && !WaitsFor(k, c, d))
      && (r != OK ==> k' == k)
  {
  }

  /** Each reply of a call, exactly; a call that is refused leaves everything as it was. */
  lemma CallReplies(k: Kernel, f: Function, src: Source, body: Body, inside: bool)
    requires Shape(k) && k.cur < |k.procs| && (src == Any && f != Receive ==> k.procs[k.cur].prio.User?)
    ensures var (k', r) := SysCall(k, f, src, body, inside);
      var outside := src.From? && !(0 <= src.p < |k.procs|);
      var denied := !outside && k.procs[k.cur].prio.User? && f != Both;
      var sends := !outside && !denied && f != Receive;
      && (r == BadSource <==> outside)
      && (r == NoPermission <==> denied)
      && (r == BadDestination <==> sends && (src == Any || NoSuchDestination(k, k.cur, src.p)))
      && (r == BadAddress <==> sends && src.From? && !NoSuchDestination(k, k.cur, src.p) && !inside)
      && (r == Deadlock <==>
            sends && src.From? && !NoSuchDestination(k, k.cur, src.p) && inside && WaitsFor(k, k.cur, src.p))
      && (r != OK ==> k' == k)
  {
    if f != Receive && src.From? && 0 <= src.p < |k.procs| {
      SendReplies(k, k.cur, src.p, body, inside);
    }
  }

  // ---- Waiting, flags and signals of one process ----

  predicate Asked(src: Source, from: nat) {
    src == Any || src == From(from)
  }

  /** Who waits for a message goes on waiting for the same one, or has got one it waits for;
      nobody else's buffer changes but that of the process that receives, `c`, and of who begins to send. */
  predicate WaitKept(before: Proc, after: Proc, c: nat, p: nat) {
    && (before.receiving ==>
          if after.receiving then after.getfrom == before.getfrom && after.buf == before.buf
          else Asked(before.getfrom, after.buf.source))
    && (!before.receiving && after.receiving ==> p == c)
    && (!before.receiving && !before.sending && !after.sending && p != c ==> after.buf == before.buf)
  }

  /** Whoever begins to wait for a receiver waits for a living one. */
  predicate SendsToLiving(k: Kernel, k': Kernel, p: nat)
    requires p < |k.procs| && p < |k'.procs|
  {
    !k.procs[p].sending && k'.procs[p].sending ==>
      k'.procs[p].sendto < |k.procs| && !k.procs[k'.procs[p].sendto].prio.Unused?
  }

  predicate SameKind(k: Kernel, k': Kernel) {
    k'.cfg == k.cfg && |k'.procs| == |k.procs| && |k.handed| == |k.procs| && |k'.handed| == |k'.procs|
    && forall x | 0 <= x < |k.procs| :: k'.procs[x].prio == k.procs[x].prio
  }

  predicate SameSignals(k: Kernel, k': Kernel, p: nat)
    requires p < |k.procs| && p < |k'.procs| && p < |k.handed| && p < |k'.handed|
  {
    k'.procs[p].signals == k.procs[p].signals && k'.handed[p] == k.handed[p]
  }

  /** MM, which has waited for it or receives now, gets a message with these signals of the process. */
  predicate Tells(k: Kernel, k': Kernel, c: nat, p: nat, signals: set<nat>) {
    && k.cfg.nrTasks < |k.procs| && (k.procs[k.cfg.nrTasks].receiving || k.cfg.nrTasks == c)
    && Returned(k', k.cfg.nrTasks, Message(k.cfg.hardware, KernelSignals(p, signals)))
  }

  /** MM is told all signals of the process, and has to end them from then on. */
  predicate AllTold(k: Kernel, k': Kernel, c: nat, p: nat)
    requires p < |k.procs| && p < |k'.procs| && p < |k.handed| && p < |k'.handed|
  {
    && Tells(k, k', c, p, k.procs[p].signals)
    && k'.procs[p].signals == {} && k'.handed[p] == k.handed[p] + |k.procs[p].signals|
  }

  predicate Part(k: Kernel, k': Kernel, c: nat, p: nat) {
    && SameKind(k, k') && p < |k.procs|
    && WaitKept(k.procs[p], k'.procs[p], c, p) && SendsToLiving(k, k', p) && SameSignals(k, k', p)
    && k'.procs[p].noMap == k.procs[p].noMap && k'.procs[p].stopped == k.procs[p].stopped
    && k'.procs[p].pendcount == k.procs[p].pendcount
  }

  /** What an entry leaves to a process that it does not signal, end or begin. */
  predicate Whole(k: Kernel, k': Kernel, c: nat, p: nat) {
    && SameKind(k, k') && p < |k.procs|
    && WaitKept(k.procs[p], k'.procs[p], c, p) && SendsToLiving(k, k', p)
    && (SameSignals(k, k', p) || AllTold(k, k', c, p))
    && k'.procs[p].noMap == k.procs[p].noMap && k'.procs[p].stopped == k.procs[p].stopped
    && k'.procs[p].pendcount == k.procs[p].pendcount
  }

  /** Two parts of an entry, the first of which blocks nobody; whoever has its answer then is left alone. */
  lemma PartThen(k: Kernel, k1: Kernel, k2: Kernel, c: nat, p: nat)
    requires Part(k, k1, c, p) && Whole(k1, k2, c, p)
    requires k1.procs[p].sending == k.procs[p].sending && (k1.procs[p].receiving ==> k.procs[p].receiving)
    requires k.procs[p].receiving && !k1.procs[p].receiving ==>
      p != c && !k1.procs[p].sending && !k2.procs[p].sending
    requires k.cfg.nrTasks < |k.procs| && (k1.procs[k.cfg.nrTasks].receiving ==>
                                             k.procs[k.cfg.nrTasks].receiving || k.cfg.nrTasks == c)
    ensures Whole(k, k2, c, p)
  {
  }

  lemma DeliverPart(k: Kernel, c: nat, d: nat, body: Body, r: nat, p: nat)
    requires Shape(k) && d < |k.procs| && p < |k.procs| && k.procs[d].Accepts(c)
    ensures var k' := Deliver(k, c, d, body);
      && Part(k, k', r, p)
      && k'.procs[p].sending == k.procs[p].sending && (k'.procs[p].receiving ==> k.procs[p].receiving)
      && (k.procs[p].receiving && !k'.procs[p].receiving ==> p == d)
      && (k'.procs[k.cfg.nrTasks].receiving ==> k.procs[k.cfg.nrTasks].receiving)
  {
  }

  lemma BlockSenderPart(k: Kernel, c: nat, d: nat, body: Body, r: nat, p: nat)
    requires Shape(k) && c < |k.procs| && d < |k.procs| && p < |k.procs|
    requires !k.procs[c].receiving && !k.procs[d].prio.Unused?
    ensures Part(k, BlockSender(k, c, d, body), r, p)
  {
  }

  lemma BlockReceiverPart(k: Kernel, c: nat, src: Source, p: nat)
    requires Shape(k) && c < |k.procs| && p < |k.procs| && !k.procs[c].receiving
    ensures Part(k, BlockReceiver(k, c, src), c, p)
  {
  }

  /** The caller blocks sending and waits for the answer at once. */
  lemma BothBlockPart(k: Kernel, c: nat, d: nat, body: Body, src: Source, p: nat)
    requires Shape(k) && c < |k.procs| && d < |k.procs| && p < |k.procs|
    requires !k.procs[c].receiving && !k.procs[d].prio.Unused?
    ensures Part(k, BlockReceiver(BlockSender(k, c, d, body), c, src), c, p)
  {
  }

  lemma AcceptPart(k: Kernel, c: nat, s: nat, p: nat)
    requires Shape(k) && c < |k.procs| && s < |k.procs| && p < |k.procs|
    requires !k.procs[c].sending && !k.procs[c].receiving && k.procs[s].sending
    ensures Part(k, Accept(k, c, s), c, p)
  {
  }

  /** What inform does: MM returns with the signals of the first slot that has any, which are
      its own no longer; nothing else changes but who runs. */
  lemma InformProcs(k: Kernel) returns (q: nat)
    requires Tables(k) && MmIdle(k) && 0 < k.sigProcs
    ensures q < |k.procs| && q != k.cfg.Mm() && k.procs[q].signals != {}
    ensures forall x | k.cfg.nrTasks <= x < q :: k.procs[x].signals == {}
    ensures var k', mm := Inform(k), k.cfg.Mm();
      && SameKind(k, k') && k'.callers == k.callers && k'.held == k.held
      && k'.procs == k.procs[mm := k.procs[mm].(receiving := false,
                                buf := Message(k.cfg.hardware, KernelSignals(q, k.procs[q].signals)))]
                            [q := k.procs[q].(signals := {}, pending := false)]
      && k'.handed == k.handed[q := k.handed[q] + |k.procs[q].signals|]
  {
    PendingFound(k);
    q := FirstPending(k.procs, k.cfg.nrTasks).value;
    FirstPendingExact(k.procs, k.cfg.nrTasks);
    assert SlotOk(k.cfg, q, k.procs[q], k.handed[q]);
    forall x | k.cfg.nrTasks <= x < q
      ensures k.procs[x].signals == {}
    {
      assert SlotOk(k.cfg, x, k.procs[x], k.handed[x]);
    }
    InformIs(k, q);
    MmTakesAtOnce(k);
  }

  /** It is the first one. */
  lemma {:induction false} FirstPendingExact(procs: seq<Proc>, p: nat)
    ensures var found := FirstPending(procs, p);
      found.Some? ==> p <= found.value < |procs| && procs[found.value].pending
                      && forall x | p <= x < found.value :: !procs[x].pending
    decreases |procs| - p
  {
    if p < |procs| && !procs[p].pending {
      FirstPendingExact(procs, p + 1);
    }
  }

  lemma InformWhole(k: Kernel, c: nat, p: nat)
    requires Tables(k) && MmIdle(k) && 0 < k.sigProcs && p < |k.procs|
    ensures Whole(k, Inform(k), c, p)
    ensures p != k.cfg.Mm() ==> Inform(k).procs[p].receiving == k.procs[p].receiving
    ensures !Inform(k).procs[k.cfg.Mm()].receiving
  {
    var q := InformProcs(k);
  }

  lemma WaitWhole(k: Kernel, c: nat, src: Source, p: nat)
    requires Core(k) && c < |k.procs| && p < |k.procs| && Runs(k.cfg, c, k.procs[c])
    requires RxHardware(k.cfg, src) ==> !k.procs[c].intBlocked
    ensures var k1 := BlockReceiver(k, c, src);
      Whole(k, if 0 < k.sigProcs && c == k.cfg.Mm() && src == Any then Inform(k1) else k1, c, p)
  {
    var k1 := BlockReceiver(k, c, src);
    BlockReceiverPart(k, c, src, p);
    if 0 < k.sigProcs && c == k.cfg.Mm() && src == Any {
      BlockReceiverKeeps(k, c, src);
      InformWhole(k1, c, p);
      if p != c {
        PartThen(k, k1, Inform(k1), c, p);
      }
    }
  }

  lemma ReceiveWhole(k: Kernel, c: nat, src: Source, p: nat)
    requires Inv(k) && c < |k.procs| && p < |k.procs| && Runs(k.cfg, c, k.procs[c]) && !k.procs[c].prio.User?
    ensures Whole(k, MiniRec(k, c, src), c, p)
  {
    WantedIn(k.callers[c], src);
    if Wanted(k.callers[c], src).Some? {
      WaitingSender(k, c, Wanted(k.callers[c], src).value);
      AcceptPart(k, c, Wanted(k.callers[c], src).value, p);
    } else if !(k.procs[c].intBlocked && RxHardware(k.cfg, src)) {
      WaitWhole(k, c, src, p);
    }
  }

  /** A process that is neither the caller nor waits to send anything is not touched by a receive
      from somebody named. */
  lemma ReceiveLeaves(k: Kernel, c: nat, d: nat, p: nat)
    requires Tables(k) && c < |k.procs| && p < |k.procs| && p != c && !k.procs[p].sending
    ensures MiniRec(k, c, From(d)).procs[p].sending == false
  {
    WantedIn(k.callers[c], From(d));
  }

  lemma AnswerWhole(k: Kernel, d: nat, body: Body, p: nat)
    requires Inv(k) && k.cur < |k.procs| && Runs(k.cfg, k.cur, k.procs[k.cur]) && d < |k.procs| && p < |k.procs|
    requires k.procs[d].Accepts(k.cur) && d != k.cur
    requires k.procs[k.cur].prio.User? ==> d == k.cfg.Mm() || d == k.cfg.Fs()
    ensures var k1 := Deliver(k, k.cur, d, body); Shape(k1) && Whole(k, MiniRec(k1, k.cur, From(d)), k.cur, p)
  {
    var c := k.cur;
    var k1 := Deliver(k, c, d, body);
    DeliverPart(k, c, d, body, c, p);
    if k.procs[c].prio.User? {
      TakenFromUser(k, c, d, body);
      BlockReceiverPart(k1, c, From(d), p);
    } else {
      TakenFromServer(k, c, d, body);
      ReceiveWhole(k1, c, From(d), p);
    }
    DeliverKeeps(k, c, d, body);
    if p == d {
      ReceiveLeaves(k1, c, d, p);
    }
    PartThen(k, k1, MiniRec(k1, c, From(d)), c, p);
  }

  lemma ExchangeWhole(k: Kernel, d: nat, body: Body, p: nat)
    requires Inv(k) && k.cur < |k.procs| && Runs(k.cfg, k.cur, k.procs[k.cur])
    requires d < |k.procs| && d != k.cur && p < |k.procs| && MiniSend(k, k.cur, d, body, true).1 == OK
    ensures Whole(k, MiniRec(MiniSend(k, k.cur, d, body, true).0, k.cur, From(d)), k.cur, p)
  {
    SendReplies(k, k.cur, d, body, true);
    if k.procs[d].Accepts(k.cur) {
      AnswerWhole(k, d, body, p);
    } else {
      BothBlockPart(k, k.cur, d, body, From(d), p);
    }
  }

  lemma SendWhole(k: Kernel, c: nat, d: nat, body: Body, r: nat, p: nat)
    requires Shape(k) && c < |k.procs| && d < |k.procs| && p < |k.procs| && !k.procs[c].receiving
    requires MiniSend(k, c, d, body, true).1 == OK
    ensures Whole(k, MiniSend(k, c, d, body, true).0, r, p)
  {
    SendReplies(k, c, d, body, true);
    if k.procs[d].Accepts(c) {
      DeliverPart(k, c, d, body, r, p);
    } else {
      BlockSenderPart(k, c, d, body, r, p);
    }
  }

  lemma CallWhole(k: Kernel, f: Function, src: Source, body: Body, inside: bool, p: nat)
    requires Inv(k) && Legal(k, Call(f, src, body, inside)) && p < |k.procs|
    ensures Whole(k, SysCall(k, f, src, body, inside).0, Receiver(k, Call(f, src, body, inside)), p)
  {
    CurrentRuns(k);
    var c := k.cur;
    if !OkSource(k, src) || (k.procs[c].prio.User? && f != Both) || (f != Receive && src == Any) {
    } else if f == Receive {
      ReceiveWhole(k, c, src, p);
    } else {
      AcceptedWhole(k, f, src.p, body, inside, p);
    }
  }

  lemma AcceptedWhole(k: Kernel, f: Function, d: nat, body: Body, inside: bool, p: nat)
    requires Inv(k) && k.cur < |k.procs| && Runs(k.cfg, k.cur, k.procs[k.cur]) && f != Receive
    requires d < |k.procs| && d != k.cur && p < |k.procs|
    ensures var (k1, r) := MiniSend(k, k.cur, d, body, inside);
      if r != OK then k1 == k
      else if f == Send then Whole(k, k1, |k.procs|, p)
      else Whole(k, MiniRec(k1, k.cur, From(d)), k.cur, p)
  {
    SendReplies(k, k.cur, d, body, inside);
    if MiniSend(k, k.cur, d, body, inside).1 == OK {
      if f == Both {
        ExchangeWhole(k, d, body, p);
      } else {
        SendWhole(k, k.cur, d, body, |k.procs|, p);
      }
    }
  }

  // ---- The other entries ----

  /** A slot changes in nothing that counts here. */
  predicate SlotKept(before: Proc, after: Proc, c: nat, t: nat) {
    && WaitKept(before, after, c, t) && after.prio == before.prio && (after.sending ==> before.sending)
    && after.signals == before.signals && after.pendcount == before.pendcount
    && after.noMap == before.noMap && after.stopped == before.stopped
  }

  lemma OneSlot(k: Kernel, k': Kernel, t: nat, c: nat, p: nat)
    requires Shape(k) && t < |k.procs| && p < |k.procs| && k'.cfg == k.cfg && k'.handed == k.handed
    requires |k'.procs| == |k.procs| && k'.procs == k.procs[t := k'.procs[t]]
    requires SlotKept(k.procs[t], k'.procs[t], c, t)
    ensures Whole(k, k', c, p)
  {
  }

  lemma InterruptSlot(k: Kernel, t: nat, busy: bool, c: nat)
    requires Shape(k) && t < |k.procs|
    ensures var k' := Interrupt(k, t, busy);
      && k'.cfg == k.cfg && k'.handed == k.handed && |k'.procs| == |k.procs| && k'.procs == k.procs[t := k'.procs[t]]
      && SlotKept(k.procs[t], k'.procs[t], c, t)
  {
  }

  lemma InterruptWhole(k: Kernel, t: nat, busy: bool, c: nat, p: nat)
    requires Shape(k) && t < |k.procs| && p < |k.procs|
    ensures Whole(k, Interrupt(k, t, busy), c, p)
  {
    InterruptSlot(k, t, busy, c);
    OneSlot(k, Interrupt(k, t, busy), t, c, p);
  }

  lemma UnholdWhole(k: Kernel, c: nat, p: nat)
    requires Shape(k) && k.held != [] && k.held[0] < |k.procs| && p < |k.procs|
    ensures Whole(k, UnholdOne(k), c, p)
  {
    OneSlot(k, UnholdOne(k), k.held[0], c, p);
  }

  lemma SchedSlot(k: Kernel, c: nat)
    requires Shape(k) && (k.rq[USER_Q] != [] ==> k.rq[USER_Q][0] < |k.procs|)
    ensures var k' := Sched(k);
      && k'.cfg == k.cfg && k'.handed == k.handed && |k'.procs| == |k.procs|
      && if k.rq[USER_Q] == [] then k' == k
         else var t := k.rq[USER_Q][0]; k'.procs == k.procs[t := k'.procs[t]] && SlotKept(k.procs[t], k'.procs[t], c, t)
  {
  }

  lemma SchedWhole(k: Kernel, c: nat, p: nat)
    requires Shape(k) && p < |k.procs| && (k.rq[USER_Q] != [] ==> k.rq[USER_Q][0] < |k.procs|)
    ensures Whole(k, Sched(k), c, p)
  {
    SchedSlot(k, c);
    OneSlot(k, Sched(k), if k.rq[USER_Q] == [] then p else k.rq[USER_Q][0], c, p);
  }

  lemma SetpriWhole(k: Kernel, pid: int, priority: int, c: nat, p: nat)
    requires Shape(k) && p < |k.procs|
    ensures Whole(k, DoSetpri(k, pid, priority), c, p)
  {
    var found := FirstPid(k.procs, pid, k.cfg.LowUser());
    OneSlot(k, DoSetpri(k, pid, priority), if found.Some? && found.value < |k.procs| then found.value else p, c, p);
  }

  // ---- Entries about one process: what happens to it, and to the others ----

  /** The process with the signal noted, counted, and keeping it from running. */
  function Marked(proc: Proc, sig: nat): Proc {
    proc.(signals := proc.signals + {sig}, pendcount := proc.pendcount + 1, pending := true, sigPending := true)
  }

  /** MM is busy, or knows of no signals because it has not asked: the signal waits. */
  lemma CauseWaits(k: Kernel, p: nat, sig: nat)
    requires Inv(k) && IsUser(k, p) && sig !in k.procs[p].signals && !MmIdle(k)
    ensures var k' := CauseSig(k, p, sig);
      SameKind(k, k') && k'.procs == k.procs[p := Marked(k.procs[p], sig)] && k'.handed == k.handed
  {
    assert SlotOk(k.cfg, p, k.procs[p], k.handed[p]);
    assert k.procs[p := Noted(k.procs[p], sig)][p := Marked(k.procs[p], sig)] == k.procs[p := Marked(k.procs[p], sig)];
  }

  /** MM waits for any message, so there are no other signals, and it is told of this one. */
  lemma CauseTells(k: Kernel, p: nat, sig: nat)
    requires Inv(k) && IsUser(k, p) && sig !in k.procs[p].signals && MmIdle(k)
    ensures var k', mm := CauseSig(k, p, sig), k.cfg.Mm();
      && SameKind(k, k') && p != mm && k.procs[p].signals == {}
      && k'.procs[mm] == k.procs[mm].(buf := Message(k.cfg.hardware, KernelSignals(p, {sig})), receiving := false)
      && k'.procs[p] == Marked(k.procs[p], sig).(signals := {}, pending := false)
      && (forall x | 0 <= x < |k.procs| && x != mm && x != p :: k'.procs[x] == k.procs[x])
      && k'.handed == k.handed[p := k.handed[p] + 1]
  {
    assert SlotOk(k.cfg, p, k.procs[p], k.handed[p]);
    if k.procs[p].pending {
      PendingSome(k.procs, p);
    }
    StoppedTells(k, p, sig, Noted(k.procs[p], sig));
  }

  lemma StoppedTells(k: Kernel, p: nat, sig: nat, noted: Proc)
    requires Inv(k) && IsUser(k, p) && k.procs[p].signals == {} && !k.procs[p].pending && MmIdle(k)
    requires p != k.cfg.Mm() && noted == Noted(k.procs[p], sig)
    ensures var k', mm := Inform(Stopped(k, p, noted)), k.cfg.Mm();
      && SameKind(k, k')
      && k'.procs[mm] == k.procs[mm].(buf := Message(k.cfg.hardware, KernelSignals(p, {sig})), receiving := false)
      && k'.procs[p] == Marked(k.procs[p], sig).(signals := {}, pending := false)
      && (forall x | 0 <= x < |k.procs| && x != mm && x != p :: k'.procs[x] == k.procs[x])
      && k'.handed == k.handed[p := k.handed[p] + 1]
  {
    var k1 := Stopped(k, p, noted);
    StoppedIs(k, p, sig, noted);
    NotedOk(k.cfg, p, k.procs[p], k.handed[p], sig);
    StoppedTables(k, p, noted);
    var q := InformProcs(k1);
    NoOtherSignals(k, q);
    TellsOne(k, k1, Inform(k1), p, sig);
  }

  lemma StoppedIs(k: Kernel, p: nat, sig: nat, noted: Proc)
    requires Shape(k) && p < |k.procs| && noted == Noted(k.procs[p], sig)
    ensures var k1 := Stopped(k, p, noted);
      k1.procs == k.procs[p := Marked(k.procs[p], sig)] && k1.handed == k.handed && k1.cfg == k.cfg
  {
    assert k.procs[p := noted][p := Marked(k.procs[p], sig)] == k.procs[p := Marked(k.procs[p], sig)];
  }

  /** While MM waits for any message no process has signals. */
  lemma NoOtherSignals(k: Kernel, q: nat)
    requires Inv(k) && MmIdle(k) && q < |k.procs|
    ensures k.procs[q].signals == {}
  {
    assert SlotOk(k.cfg, q, k.procs[q], k.handed[q]);
    if k.procs[q].pending {
      PendingSome(k.procs, q);
    }
  }

  lemma TellsOne(k: Kernel, k1: Kernel, k': Kernel, p: nat, sig: nat)
    requires Shape(k) && p < |k.procs| && p != k.cfg.Mm() && k.procs[p].signals == {}
    requires k1.procs == k.procs[p := Marked(k.procs[p], sig)] && k1.handed == k.handed && k1.cfg == k.cfg
    requires var mm := k.cfg.Mm();
      && SameKind(k1, k')
      && k'.procs == k1.procs[mm := k1.procs[mm].(receiving := false,
                                 buf := Message(k.cfg.hardware, KernelSignals(p, k1.procs[p].signals)))]
                             [p := k1.procs[p].(signals := {}, pending := false)]
      && k'.handed == k1.handed[p := k1.handed[p] + |k1.procs[p].signals|]
    ensures var mm := k.cfg.Mm();
      && SameKind(k, k')
      && k'.procs[mm] == k.procs[mm].(buf := Message(k.cfg.hardware, KernelSignals(p, {sig})), receiving := false)
      && k'.procs[p] == Marked(k.procs[p], sig).(signals := {}, pending := false)
      && (forall x | 0 <= x < |k.procs| && x != mm && x != p :: k'.procs[x] == k.procs[x])
      && k'.handed == k.handed[p := k.handed[p] + 1]
  {
    assert {} + {sig} == {sig};
  }

  /** A new signal of a process is noted and counted; MM is told at once exactly if it waits for
      any message. One that is there already changes nothing. */
  lemma CauseExact(k: Kernel, p: nat, sig: nat)
    requires Inv(k) && IsUser(k, p)
    ensures var k', all, mm := CauseSig(k, p, sig), k.procs[p].signals + {sig}, k.procs[k.cfg.nrTasks];
      && (sig in k.procs[p].signals ==> k' == k)
      && (sig !in k.procs[p].signals ==>
            && k'.procs[p].pendcount == k.procs[p].pendcount + 1
            && if mm.receiving && mm.getfrom == Any
               then Tells(k, k', |k.procs|, p, all) && k'.procs[p].signals == {} && k'.handed[p] == k.handed[p] + |all|
               else k'.procs[p].signals == all && k'.handed[p] == k.handed[p])
  {
    if sig !in k.procs[p].signals {
      if MmIdle(k) {
        CauseTells(k, p, sig);
        assert k.procs[p].signals + {sig} == {sig};
      } else {
        CauseWaits(k, p, sig);
      }
    }
  }

  lemma OtherWhole(k: Kernel, k': Kernel, c: nat, p: nat)
    requires SameKind(k, k') && p < |k.procs| && k'.procs[p] == k.procs[p] && k'.handed[p] == k.handed[p]
    ensures Whole(k, k', c, p)
  {
  }

  lemma CauseOthers(k: Kernel, q: nat, sig: nat, c: nat, p: nat)
    requires Inv(k) && IsUser(k, q) && p < |k.procs| && p != q
    ensures Whole(k, CauseSig(k, q, sig), c, p)
  {
    if sig !in k.procs[q].signals {
      if MmIdle(k) {
        CauseTells(k, q, sig);
      } else {
        CauseWaits(k, q, sig);
      }
    }
    if p != k.cfg.Mm() {
      OtherWhole(k, CauseSig(k, q, sig), c, p);
    }
  }

  /** Ending a signal counts one of those that were told down, and the last one lets the process run. */
  lemma EndsigCounts(k: Kernel, p: nat)
    requires Inv(k) && Endable(k, p) && !k.procs[p].prio.Unused? && 0 < k.procs[p].pendcount
    ensures var k' := DoEndsig(k, p).0;
      && DoEndsig(k, p).1
      && k'.handed == k.handed[p := k.handed[p] - 1]
      && k'.procs == k.procs[p := k.procs[p].(pendcount := k.procs[p].pendcount - 1,
                                              sigPending := 1 < k.procs[p].pendcount)]
  {
    assert SlotOk(k.cfg, p, k.procs[p], k.handed[p]);
  }

  /** For a free slot the request is refused; without signals to end nothing happens. */
  lemma EndsigNothing(k: Kernel, p: nat)
    requires Shape(k) && p < |k.procs| && (k.procs[p].prio.Unused? || k.procs[p].pendcount == 0)
    ensures DoEndsig(k, p) == (k, !k.procs[p].prio.Unused?)
  {
  }

  /** Having its memory map is all that changes for a process. */
  lemma NewmapProcs(k: Kernel, p: nat)
    requires Shape(k) && p < |k.procs|
    ensures DoNewmap(k, p).procs == k.procs[p := k.procs[p].(noMap := false)]
    ensures DoNewmap(k, p).handed == k.handed && DoNewmap(k, p).callers == k.callers
  {
  }

  /** A child that lacked nothing but its map is ready after that, once, and nobody else is. */
  lemma NewmapReadies(k: Kernel, p: nat)
    requires Inv(k) && p < |k.procs| && k.rq[TASK_Q] != [] && k.procs[p].prio.User?
    requires k.procs[p].(noMap := false).Runnable()
    ensures p in DoNewmap(k, p).rq[USER_Q] && multiset(DoNewmap(k, p).rq[USER_Q])[p] == 1
  {
    NewmapKeeps(k, p);
    var k' := DoNewmap(k, p);
    assert SlotOk(k.cfg, p, k.procs[p], k.handed[p]);
    assert LineAt(k'.cfg, k'.procs, k'.rq[USER_Q], USER_Q);
    Queues.OnceOnly(k'.rq[USER_Q], p);
  }

  /** What the child is: its parent, except that it may not run yet, has its own identifier, no
      signals, a turn not begun, and the one of the two first priorities that was not given last. */
  lemma ForkChild(k: Kernel, parent: nat, child: nat, pid: int)
    requires Inv(k) && CanFork(k, parent, child) && CleanFork(k, parent, child)
    ensures var k' := DoFork(k, parent, child, pid);
      var father, son := k.procs[parent], k'.procs[child];
      && k'.procs == k.procs[child := son] && k'.callers == k.callers && k'.rq == k.rq
      && son.prio.User? && son.noMap && !son.pending && !son.sigPending && !son.stopped
      && son.signals == {} && son.pendcount == 0 && k'.handed[child] == 0
      && son.pid == pid && son.timeCounter == 0
      && son.userPriority in {10, 50} && son.userPriority != k.lastPriority && k'.lastPriority == son.userPriority
      && !son.sending && son.receiving == father.receiving && son.getfrom == father.getfrom && son.buf == father.buf
  {
    assert SlotOk(k.cfg, child, k.procs[child], k.handed[child]);
    assert k.callers[child := k.callers[parent]] == k.callers;
  }

  /** After an exit the slot is free, and everybody else is as before. */
  lemma ExitProcs(k: Kernel, p: nat)
    requires Inv(k) && IsUser(k, p)
    ensures var k' := DoXit(k, p);
      && k'.procs[p].prio.Unused? && k'.procs[p].signals == {} && k'.procs[p].pendcount == 0 && k'.handed[p] == 0
      && k'.procs == k.procs[p := k'.procs[p]] && k'.handed == k.handed[p := 0]
  {
  }

  /** Is the entry about this process? */
  predicate About(op: Op, p: nat) {
    match op
    case Signal(q, _) => q == p
    case EndSignal(q) => q == p
    case NewMap(q) => q == p
    case Exit(q) => q == p
    case Fork(_, child, _) => child == p
    case _ => false
  }

  /** What any entry leaves to a process it is not about. */
  lemma StepWhole(k: Kernel, op: Op, p: nat)
    requires Inv(k) && Legal(k, op) && p < |k.procs| && !About(op, p)
    ensures !op.Exit? && !op.Fork? ==> Whole(k, Step(k, op), Receiver(k, op), p)
    ensures op.Exit? || op.Fork? ==> Step(k, op).procs[p] == k.procs[p] && Step(k, op).handed[p] == k.handed[p]
  {
    var c := Receiver(k, op);
    match op
    case Call(f, src, body, inside) => CallWhole(k, f, src, body, inside, p);
    case Irq(t, busy) => InterruptWhole(k, t, busy, c, p);
    case Unhold => UnholdWhole(k, c, p);
    case Tick => SchedWhole(k, c, p);
    case Signal(q, sig) => CauseOthers(k, q, sig, c, p);
    case EndSignal(q) => EndWhole(k, q, c, p);
    case Fork(parent, child, pid) => ForkChild(k, parent, child, pid);
    case Exit(q) => ExitProcs(k, q);
    case NewMap(q) => NewmapProcs(k, q);
    case SetPriority(pid, priority) => SetpriWhole(k, pid, priority, c, p);
  }

  lemma EndWhole(k: Kernel, q: nat, c: nat, p: nat)
    requires Inv(k) && Endable(k, q) && p < |k.procs| && p != q
    ensures Whole(k, DoEndsig(k, q).0, c, p)
  {
    if k.procs[q].prio.Unused? || k.procs[q].pendcount == 0 {
      EndsigNothing(k, q);
    } else {
      EndsigCounts(k, q);
    }
  }

  lemma CauseSelfSending(k: Kernel, p: nat, sig: nat)
    requires Inv(k) && IsUser(k, p)
    ensures |CauseSig(k, p, sig).procs| == |k.procs|
    ensures CauseSig(k, p, sig).procs[p].sending == k.procs[p].sending
  {
    if sig !in k.procs[p].signals {
      if MmIdle(k) {
        CauseTells(k, p, sig);
      } else {
        CauseWaits(k, p, sig);
      }
    }
  }

  /** Who has begun to wait to send waits for a process that is there. */
  predicate BlockedOnLiving(k: Kernel, k': Kernel, p: nat)
    requires p < |k.procs|
  {
    && |k'.procs| == |k.procs|
    && (!k.procs[p].sending && k'.procs[p].sending ==>
          k'.procs[p].sendto < |k'.procs| && !k'.procs[k'.procs[p].sendto].prio.Unused?)
  }

  lemma OwnEntryBlocksNot(k: Kernel, op: Op, p: nat)
    requires Inv(k) && Legal(k, op) && p < |k.procs| && About(op, p)
    ensures BlockedOnLiving(k, Step(k, op), p)
  {
    match op
    case Signal(_, sig) => CauseSelfSending(k, p, sig);
    case EndSignal(_) =>
      if k.procs[p].prio.Unused? || k.procs[p].pendcount == 0 {
        EndsigNothing(k, p);
      } else {
        EndsigCounts(k, p);
      }
    case NewMap(_) => NewmapProcs(k, p);
    case Exit(_) => ExitProcs(k, p);
    case Fork(parent, child, pid) => ForkChild(k, parent, child, pid);
  }

  lemma OtherEntryBlocksNot(k: Kernel, op: Op, p: nat)
    requires Inv(k) && Legal(k, op) && p < |k.procs| && !About(op, p)
    ensures BlockedOnLiving(k, Step(k, op), p)
  {
    StepSame(k, op);
    StepWhole(k, op, p);
  }

  /** Nobody ever begins to wait for a process that is not there. */
  lemma BlocksOnLiving(k: Kernel, op: Op, p: nat)
    requires Inv(k) && Legal(k, op) && p < |k.procs|
    ensures BlockedOnLiving(k, Step(k, op), p)
  {
    if About(op, p) {
      OwnEntryBlocksNot(k, op, p);
    } else {
      OtherEntryBlocksNot(k, op, p);
    }
  }

  // ---- What a receive returns with ----

  /** The process waits to send to `c`, which would take its message. */
  predicate Offers(k: Kernel, c: nat, src: Source, s: nat) {
    s < |k.procs| && k.procs[s].sending && k.procs[s].sendto == c && Asked(src, s)
  }

  /** MM asks for any message while some process has signals. */
  predicate SignalsFor(k: Kernel, c: nat, src: Source) {
    c == k.cfg.nrTasks && src == Any && exists q | 0 <= q < |k.procs| :: k.procs[q].signals != {}
  }

  /** A receive of a task or server that runs: whoever offers a message first, an interrupt, the
      signals of the first process that has any, in this order; and without any of these, exactly
      then, the caller waits. */
  lemma ReceiveExact(k: Kernel, c: nat, src: Source)
    requires Inv(k) && c < |k.procs| && Runs(k.cfg, c, k.procs[c]) && !k.procs[c].prio.User?
    ensures var k' := MiniRec(k, c, src);
      var offered := exists s :: Offers(k, c, src, s);
      var interrupted := k.procs[c].intBlocked && (src == Any || src == From(k.cfg.hardware));
      && k'.procs[c].receiving == !(offered || interrupted || SignalsFor(k, c, src))
      && (k'.procs[c].receiving ==> k'.procs[c].getfrom == src)
      && (offered ==> exists i | 0 <= i < |k.callers[c]| ::
            && TakesFrom(k, k', c, src, i)
            && forall j | 0 <= j < i :: !Asked(src, k.callers[c][j]))
      && (!offered && interrupted ==>
            k'.procs[c] == k.procs[c].(buf := Message(k.cfg.hardware, HardInt), intBlocked := false))
      && (!offered && !interrupted && SignalsFor(k, c, src) ==> exists q | 0 <= q < |k.procs| ::
            && k.procs[q].signals != {} && (forall x | 0 <= x < q :: k.procs[x].signals == {})
            && Tells(k, k', c, q, k.procs[q].signals))
  {
    WantedOffers(k, c, src);
    if Wanted(k.callers[c], src).Some? {
      FirstAsked(k.callers[c], src);
      var i :| 0 <= i < |k.callers[c]| && k.callers[c][i] == Wanted(k.callers[c], src).value
               && forall j | 0 <= j < i :: !Asked(src, k.callers[c][j]);
      TakenFrom(k, c, src, i);
    } else if !(k.procs[c].intBlocked && RxHardware(k.cfg, src)) {
      WaitExact(k, c, src);
    }
  }

  /** The message of the `i`-th in the queue is taken, and its sender is blocked on it no longer. */
  predicate TakesFrom(k: Kernel, k': Kernel, c: nat, src: Source, i: nat)
    requires c < |k.callers|
  {
    && i < |k.callers[c]| && var s := k.callers[c][i];
    && Offers(k, c, src, s) && Returned(k', c, Message(s, k.procs[s].buf.body))
    && s < |k'.procs| && !k'.procs[s].sending && k'.procs[s].receiving == k.procs[s].receiving
  }

  lemma TakenFrom(k: Kernel, c: nat, src: Source, i: nat)
    requires Inv(k) && c < |k.procs| && Runs(k.cfg, c, k.procs[c]) && !k.procs[c].prio.User?
    requires i < |k.callers[c]| && Wanted(k.callers[c], src) == Some(k.callers[c][i])
    ensures TakesFrom(k, MiniRec(k, c, src), c, src, i)
  {
    WantedIn(k.callers[c], src);
    WaitingSender(k, c, k.callers[c][i]);
  }

  lemma WantedOffers(k: Kernel, c: nat, src: Source)
    requires Tables(k) && c < |k.procs|
    ensures Wanted(k.callers[c], src).Some? <==> exists s :: Offers(k, c, src, s)
  {
    WantedIn(k.callers[c], src);
    assert CallersAt(k.procs, k.callers[c], c);
    if Wanted(k.callers[c], src).Some? {
      assert Offers(k, c, src, Wanted(k.callers[c], src).value);
    }
    if s :| Offers(k, c, src, s) {
      assert s in k.callers[c];
    }
  }

  lemma {:induction false} FirstAsked(q: seq<nat>, src: Source)
    requires Wanted(q, src).Some?
    ensures exists i | 0 <= i < |q| ::
      q[i] == Wanted(q, src).value && Asked(src, q[i]) && forall j | 0 <= j < i :: !Asked(src, q[j])
  {
    if !Asked(src, q[0]) {
      FirstAsked(q[1..], src);
      var i :| 0 <= i < |q[1..]| && q[1..][i] == Wanted(q[1..], src).value && Asked(src, q[1..][i])
               && forall j | 0 <= j < i :: !Asked(src, q[1..][j]);
      assert q[i + 1] == Wanted(q, src).value;
      assert forall j | 0 <= j < i + 1 :: j == 0 || q[j] == q[1..][j - 1];
    }
  }

  lemma WaitExact(k: Kernel, c: nat, src: Source)
    requires Inv(k) && c < |k.procs| && Runs(k.cfg, c, k.procs[c])
    requires RxHardware(k.cfg, src) ==> !k.procs[c].intBlocked
    ensures var k1 := BlockReceiver(k, c, src);
      var k' := if 0 < k.sigProcs && c == k.cfg.Mm() && src == Any then Inform(k1) else k1;
      && k'.procs[c].receiving == !SignalsFor(k, c, src)
      && (k'.procs[c].receiving ==> k'.procs[c].getfrom == src)
      && (SignalsFor(k, c, src) ==> exists q | 0 <= q < |k.procs| ::
            && k.procs[q].signals != {} && (forall x | 0 <= x < q :: k.procs[x].signals == {})
            && Tells(k, k', c, q, k.procs[q].signals))
  {
    var k1 := BlockReceiver(k, c, src);
    SomePending(k);
    if 0 < k.sigProcs && c == k.cfg.Mm() && src == Any {
      BlockReceiverKeeps(k, c, src);
      var q := InformProcs(k1);
      forall x | 0 <= x < q
        ensures k.procs[x].signals == {}
      {
        assert SlotOk(k.cfg, x, k.procs[x], k.handed[x]);
      }
      assert k.procs[q].signals != {};
    }
  }

  lemma SomePending(k: Kernel)
    requires Tables(k)
    ensures 0 < k.sigProcs <==> exists q | 0 <= q < |k.procs| :: k.procs[q].signals != {}
  {
    if 0 < k.sigProcs {
      PendingNone(k.procs);
      var p: nat :| p < |k.procs| && k.procs[p].pending;
      assert SlotOk(k.cfg, p, k.procs[p], k.handed[p]);
    }
    if q :| 0 <= q < |k.procs| && k.procs[q].signals != {} {
      assert SlotOk(k.cfg, q, k.procs[q], k.handed[q]);
      PendingSome(k.procs, q);
    }
  }
}
