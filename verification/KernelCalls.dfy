/** The message calls of the running process, as a whole. */
module KernelCalls {
  import opened KernelInvariant
  import opened KernelSpec
  import opened KernelSteps
  import opened Options
  import opened WaitFor

  /** Whoever runs, except the idle process, is alive, unblocked and first of its class. */
  lemma CurrentRuns(k: Kernel)
    requires Core(k) && Settled(k) && k.cur != k.cfg.idle
    ensures k.cur < |k.procs| && Runs(k.cfg, k.cur, k.procs[k.cur])
    ensures var q := QueueOf(k.procs[k.cur].prio);
      k.rq[q] != [] && k.rq[q][0] == k.cur && forall i | 0 <= i < q :: k.rq[i] == []
  {
    var i := if k.rq[TASK_Q] != [] then TASK_Q else if k.rq[SERVER_Q] != [] then SERVER_Q else USER_Q;
    assert LineAt(k.cfg, k.procs, k.rq[i], i);
    assert k.cur in k.rq[i];
  }

  lemma DeliverTold(k: Kernel, c: nat, d: nat, body: Body)
    requires Shape(k) && Told(k) && d < |k.procs|
    ensures Told(Deliver(k, c, d, body))
  {
  }

  lemma BlockSenderTold(k: Kernel, c: nat, d: nat, body: Body)
    requires Shape(k) && Told(k) && c < |k.procs| && d < |k.procs|
    ensures Told(BlockSender(k, c, d, body))
  {
  }

  lemma BlockSenderSettled(k: Kernel, c: nat, d: nat, body: Body)
    requires Shape(k) && Settled(k) && c < |k.procs| && d < |k.procs|
    ensures Settled(BlockSender(k, c, d, body))
  {
    if k.procs[c].Runnable() {
      UnreadySettled(k, c);
    }
  }

  /** What a caller may do that the kernel does not check: no process sends to itself, and
      tasks and servers do not send to `Any`. */
  predicate Trusted(k: Kernel, f: Function, src: Source)
    requires k.cur < |k.procs|
  {
    f != Receive ==> src != From(k.cur) && (src == Any ==> k.procs[k.cur].prio.User?)
  }

  /** The caller has been blocked sending and now also waits for the answer. */
  lemma AnswerAwaited(k: Kernel, c: nat, d: nat, body: Body)
    requires Core(k) && Settled(k) && Told(k) && c < |k.procs| && d < |k.procs| && d != c && !ClosesCycle(k.procs, c, d)
    requires Runs(k.cfg, c, k.procs[c])
    requires k.procs[c].prio.User? ==> d == k.cfg.Mm() || d == k.cfg.Fs()
    ensures var k1 := BlockSender(k, c, d, body);
      Core(k1) && Settled(k1) && Told(k1) && Inv(MiniRec(k1, c, From(d)))
  {
    BlockSenderKeeps(k, c, d, body);
    BlockSenderSettled(k, c, d, body);
    BlockSenderTold(k, c, d, body);
    var k1 := BlockSender(k, c, d, body);
    WaitKeeps(k1, c, From(d));
    BlockReceiverSettled(k1, c, From(d));
  }

  /** A task or server has its message taken at once, and goes on. */
  lemma TakenFromServer(k: Kernel, c: nat, d: nat, body: Body)
    requires Inv(k) && c < |k.procs| && d < |k.procs| && k.procs[d].Accepts(c)
    requires Runs(k.cfg, c, k.procs[c]) && !k.procs[c].prio.User?
    ensures var k1 := Deliver(k, c, d, body); Inv(k1) && Inv(MiniRec(k1, c, From(d)))
  {
    var k1 := Deliver(k, c, d, body);
    DeliverKeeps(k, c, d, body);
    DeliverTold(k, c, d, body);
    Privileged(k, c);
    if k1.procs[d].Runnable() {
      ReadySettled(SetProc(k, d, k1.procs[d]), d);
    }
    MiniRecKeeps(k1, c, From(d));
  }

  /** A user has its message taken at once: it always has to wait for the answer, and then
      the receiver, or someone more urgent, runs. */
  lemma TakenFromUser(k: Kernel, c: nat, d: nat, body: Body)
    requires Inv(k) && c == k.cur && c < |k.procs| && d < |k.procs| && k.procs[d].Accepts(c)
    requires Runs(k.cfg, c, k.procs[c]) && k.procs[c].prio.User? && (d == k.cfg.Mm() || d == k.cfg.Fs())
    ensures var k1 := Deliver(k, c, d, body);
      MiniRec(k1, c, From(d)) == BlockReceiver(k1, c, From(d)) && Inv(MiniRec(k1, c, From(d)))
  {
    var k1 := Deliver(k, c, d, body);
    DeliverKeeps(k, c, d, body);
    DeliverTold(k, c, d, body);
    NothingFromUnblocked(k1, c, d);
    assert SlotOk(k.cfg, d, k.procs[d], k.handed[d]) && SlotOk(k.cfg, c, k.procs[c], k.handed[c]);
    CurrentRuns(k);
    assert k1.rq[USER_Q] == k.rq[USER_Q];
    WaitKeeps(k1, c, From(d));
  }

  lemma NothingFromUnblocked(k: Kernel, c: nat, d: nat)
    requires Tables(k) && c < |k.procs| && d < |k.procs| && !k.procs[d].sending
    ensures Wanted(k.callers[c], From(d)).None?
  {
    WantedIn(k.callers[c], From(d));
    if d in k.callers[c] {
      WaitingSender(k, c, d);
    }
  }

  /** Send, receive and both keep the invariant, for every caller that runs and every argument
      but those the kernel trusts tasks and servers not to give. */
  lemma SysCallKeeps(k: Kernel, f: Function, src: Source, body: Body, inside: bool)
    requires Inv(k) && k.cur < |k.procs| && k.cur != k.cfg.idle && Trusted(k, f, src)
    ensures Inv(SysCall(k, f, src, body, inside).0)
  {
    var c := k.cur;
    CurrentRuns(k);
    var user := k.procs[c].prio.User?;
    if !OkSource(k, src) || (user && f != Both) || (f != Receive && src == Any) {
    } else if f == Receive {
      MiniRecKeeps(k, c, src);
    } else if MiniSend(k, c, src.p, body, inside).1 == OK {
      SendKeeps(k, f, src.p, body);
    }
  }

  lemma SendKeeps(k: Kernel, f: Function, d: nat, body: Body)
    requires Inv(k) && k.cur < |k.procs| && Runs(k.cfg, k.cur, k.procs[k.cur]) && f != Receive
    requires d < |k.procs| && d != k.cur && MiniSend(k, k.cur, d, body, true).1 == OK
    requires k.procs[k.cur].prio.User? ==> f == Both
    ensures var k1 := MiniSend(k, k.cur, d, body, true).0;
      Inv(if f == Send then k1 else MiniRec(k1, k.cur, From(d)))
  {
    var c := k.cur;
    if k.procs[d].Accepts(c) {
      if k.procs[c].prio.User? {
        TakenFromUser(k, c, d, body);
      } else {
        TakenFromServer(k, c, d, body);
      }
    } else {
      AnswerAwaited(k, c, d, body);
    }
  }

  // ---- What a send returns ----

  /** A send is refused with a deadlock error exactly when blocking the caller would close a
      cycle of processes waiting to send to each other. */
  lemma DeadlockExact(k: Kernel, c: nat, d: nat, body: Body)
    requires Tables(k) && c < |k.procs| && d < |k.procs| && c != d
    requires !k.procs[c].sending && !k.procs[d].prio.Unused?
    requires k.procs[c].prio.User? ==> d == k.cfg.Mm() || d == k.cfg.Fs()
    ensures MiniSend(k, c, d, body, true).1 == Deadlock <==> !Acyclic(Edges(BlockSender(k, c, d, body).procs))
    ensures MiniSend(k, c, d, body, true).1 in {OK, Deadlock}
  {
    var proc := BlockSender(k, c, d, body).procs[c];
    EdgesUpdate(k.procs, c, proc);
    NewEdge(Edges(k.procs), c, d);
    LeadsOn(Edges(k.procs), d, c);
  }

  /** A process that sends to itself is not refused; it waits for itself from then on. */
  lemma SelfSendNotCaught(k: Kernel, c: nat, body: Body)
    requires Tables(k) && c < |k.procs| && Runs(k.cfg, c, k.procs[c]) && !k.procs[c].prio.User?
    ensures MiniSend(k, c, c, body, true).1 == OK
    ensures !Acyclic(Edges(MiniSend(k, c, c, body, true).0.procs))
  {
    var proc := BlockSender(k, c, c, body).procs[c];
    EdgesUpdate(k.procs, c, proc);
    NewEdge(Edges(k.procs), c, c);
    assert Hits(Edges(k.procs), c, c, 0);
  }

  /** Exactly the sends to someone else keep the process table in order. */
  lemma SendExact(k: Kernel, c: nat, d: nat, body: Body)
    requires Core(k) && c < |k.procs| && d < |k.procs| && Runs(k.cfg, c, k.procs[c])
    requires MiniSend(k, c, d, body, true).1 == OK
    ensures Core(MiniSend(k, c, d, body, true).0) <==> d != c
  {
    if d == c {
      assert SlotOk(k.cfg, c, k.procs[c], k.handed[c]);
      SelfSendNotCaught(k, c, body);
    } else if k.procs[d].Accepts(c) {
      DeliverKeeps(k, c, d, body);
    } else {
      BlockSenderKeeps(k, c, d, body);
    }
  }

  /** A message that is taken at once is the one that was sent, under the sender's name; one
      that is not waits last in the queue of the receiver, and is what a receive then takes. */
  lemma MessageArrives(k: Kernel, c: nat, d: nat, body: Body)
    requires Core(k) && c < |k.procs| && d < |k.procs| && c != d && Runs(k.cfg, c, k.procs[c])
    requires MiniSend(k, c, d, body, true).1 == OK
    ensures var k' := MiniSend(k, c, d, body, true).0;
      && (k.procs[d].Accepts(c) ==> k'.procs[d].buf == Message(c, body) && !k'.procs[d].receiving)
      && (!k.procs[d].Accepts(c) ==>
            k'.procs[c].Edge() == Some(d) && k'.callers[d] == k.callers[d] + [c]
            && Accept(k', d, c).procs[d].buf == Message(c, body) && !Accept(k', d, c).procs[c].sending)
  {
  }
}
