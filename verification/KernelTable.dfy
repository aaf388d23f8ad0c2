/** The kernel's process table with its links, updated in place. */
module KernelTables {
  import opened KernelCalls
  import opened KernelEvents
  import opened KernelInvariant
  import opened KernelLinks
  import opened KernelProcesses
  import opened KernelRuns
  import opened KernelSpec
  import opened KernelSteps
  import opened Options
  import opened Queues
  import opened WaitFor

  /** The queues are in order. */
  ghost predicate QueuesOk(k: Kernel) {
    Shape(k) && CallersOk(k.procs, k.callers) && LinesOk(k.cfg, k.procs, k.rq)
  }

  /** What sending needs of the table: there is no cycle of waiting senders either. */
  ghost predicate Linked(k: Kernel) {
    QueuesOk(k) && Acyclic(Edges(k.procs))
  }

  /** The queues have no member in common. */
  lemma QueuesApart(k: Kernel)
    requires QueuesOk(k)
    ensures Apart(k.rq) && Apart(k.callers)
    ensures forall p: nat | p < |k.procs| && !Runs(k.cfg, p, k.procs[p]) :: Nowhere(k.rq, p)
    ensures forall p: nat | p < |k.procs| && !k.procs[p].sending :: Nowhere(k.callers, p)
  {
    assert forall i | 0 <= i < |k.rq| :: LineAt(k.cfg, k.procs, k.rq[i], i);
    assert forall d | 0 <= d < |k.callers| :: CallersAt(k.procs, k.callers[d], d);
  }

  /** The pseudo process that sends for the hardware is never blocked. */
  lemma HardwareIdle(k: Kernel)
    requires Tables(k)
    ensures !k.procs[k.cfg.hardware].sending
  {
    assert SlotOk(k.cfg, k.cfg.hardware, k.procs[k.cfg.hardware], k.handed[k.cfg.hardware]);
  }

  /** A sender that runs has its message taken, or is blocked, and the table is in order. */
  lemma SendCore(k: Kernel, c: nat, d: nat, body: Body, inside: bool)
    requires Core(k) && c < |k.procs| && d < |k.procs| && c != d && Runs(k.cfg, c, k.procs[c])
    ensures var (k', r) := MiniSend(k, c, d, body, inside);
      Core(k') && (r == OK ==> Runs(k'.cfg, c, k'.procs[c]) || (k'.procs[c].sending && k'.procs[c].sendto == d))
  {
    if MiniSend(k, c, d, body, inside).1 == OK {
      SendExact(k, c, d, body);
    }
  }

  /** A task or server that sends to itself is blocked, and the queues are in order. */
  lemma SelfSendQueues(k: Kernel, c: nat, body: Body)
    requires Core(k) && c < |k.procs| && Runs(k.cfg, c, k.procs[c]) && !k.procs[c].prio.User?
    ensures MiniSend(k, c, c, body, true) == (BlockSender(k, c, c, body), OK)
    ensures QueuesOk(BlockSender(k, c, c, body)) && BlockSender(k, c, c, body).procs[c].Edge() == Some(c)
  {
    var proc := k.procs[c].(buf := Message(c, body), sending := true, sendto := c);
    CallersJoin(k.procs, k.callers, c, c, proc);
    LinesUnready(k, c, proc);
  }

  lemma SendQueues(k: Kernel, c: nat, d: nat, body: Body, inside: bool)
    requires Inv(k) && c < |k.procs| && d < |k.procs| && Runs(k.cfg, c, k.procs[c])
    ensures var (k', r) := MiniSend(k, c, d, body, inside);
      && QueuesOk(k')
      && (r == OK ==> (Core(k') && Runs(k'.cfg, c, k'.procs[c])) || k'.procs[c].Edge() == Some(d))
  {
    if d != c {
      SendCore(k, c, d, body, inside);
    } else if MiniSend(k, c, d, body, inside).1 == OK {
      assert SlotOk(k.cfg, c, k.procs[c], k.handed[c]);
      SelfSendQueues(k, c, body);
    }
  }

  lemma CallReady(k: Kernel, f: Function, src: Source, body: Body, inside: bool)
    requires Inv(k) && k.cur < |k.procs| && k.cur != k.cfg.idle
    requires src == Any && f != Receive ==> k.procs[k.cur].prio.User?
    ensures Runs(k.cfg, k.cur, k.procs[k.cur])
    ensures Trusted(k, f, src) ==> Inv(SysCall(k, f, src, body, inside).0)
  {
    CurrentRuns(k);
    if Trusted(k, f, src) {
      SysCallKeeps(k, f, src, body, inside);
    }
  }

  lemma OnOneQueue(procs: seq<Proc>, callers: seq<seq<nat>>, p: nat)
    requires CallersOk(procs, callers) && p < |procs| && procs[p].sending
    ensures forall d | 0 <= d < |callers| :: p in callers[d] <==> procs[p].sendto == d
  {
    assert forall d | 0 <= d < |callers| :: CallersAt(procs, callers[d], d);
  }

  lemma RemovedApart(qs: seq<seq<nat>>, d: nat, p: nat)
    requires Apart(qs) && d < |qs|
    ensures Apart(qs[d := Remove(qs[d], p)])
    ensures forall e | 0 <= e < |qs| && e != d && p !in qs[e] :: Remove(qs[e], p) == qs[e] && qs[e := qs[e]] == qs
    ensures p !in Remove(qs[d], p)
  {
    RemoveMeaning(qs[d], p);
    forall e | 0 <= e < |qs| && e != d && p !in qs[e]
      ensures Remove(qs[e], p) == qs[e] && qs[e := qs[e]] == qs
    {
      RemoveAbsent(qs[e], p);
    }
  }

  /** Copying the links of a slot onto one that is on no queue does no harm to the queues. */
  lemma ChildLinks(k: Kernel, ready: seq<int>, heads: seq<int>, tails: seq<int>, send: seq<int>, callerq: seq<int>,
                   parent: nat, child: nat)
    requires Inv(k) && CanFork(k, parent, child) && Nowhere(k.rq, child) && Nowhere(k.callers, child)
    requires Lines(ready, heads, tails, k.rq) && Heads(send, callerq, k.callers)
    requires |ready| == |send| == |k.procs|
    ensures Lines(ready[child := ready[parent]], heads, tails, k.rq)
    ensures Heads(send[child := send[parent]], callerq[child := callerq[parent]], k.callers[child := k.callers[parent]])
  {
    forall i | 0 <= i < |k.rq|
      ensures Line(ready[child := ready[parent]], heads[i], tails[i], k.rq[i])
    {
      assert Line(ready, heads[i], tails[i], k.rq[i]);
      ChainFrame(ready, ready[child := ready[parent]], k.rq[i]);
    }
    forall d | 0 <= d < |k.callers|
      ensures HeadAt(send[child := send[parent]], callerq[d], k.callers[d])
    {
      assert HeadAt(send, callerq[d], k.callers[d]);
      ChainFrame(send, send[child := send[parent]], k.callers[d]);
    }
  }

  /** `s` is queued directly behind `previous`. */
  predicate AtPlace(q: seq<nat>, j: nat, s: int, previous: int) {
    j < |q| && q[j] == s && previous == if j == 0 then NIL else q[j - 1]
  }

  /** A slot at boot: nobody is blocked, and nothing has been signalled or has interrupted. */
  predicate BootSlot(cfg: Config, p: nat, proc: Proc) {
    && ClassOk(cfg, p, proc.prio) && proc.Runnable() && !proc.intBlocked && !proc.intHeld
    && proc.signals == {} && proc.pendcount == 0
  }

  predicate BootTable(cfg: Config, table: seq<Proc>) {
    && cfg.LowUser() <= |table| && cfg.idle < cfg.nrTasks && cfg.hardware < cfg.nrTasks
    && forall p | 0 <= p < |table| :: BootSlot(cfg, p, table[p])
  }

  /** The slots below `n` are on the ready queues of their class. */
  ghost predicate LineBelow(cfg: Config, procs: seq<Proc>, q: seq<nat>, i: nat, n: nat) {
    && Distinct(q)
    && forall p: nat ::
         p in q <==> p < n && p < |procs| && Runs(cfg, p, procs[p]) && QueueOf(procs[p].prio) == i
  }

  ghost predicate LinesBelow(cfg: Config, procs: seq<Proc>, rq: seq<seq<nat>>, n: nat) {
    |rq| == 3 && forall i | 0 <= i < 3 :: LineBelow(cfg, procs, rq[i], i, n)
  }

  lemma BelowApart(cfg: Config, procs: seq<Proc>, rq: seq<seq<nat>>, n: nat)
    requires LinesBelow(cfg, procs, rq, n)
    ensures Apart(rq) && Nowhere(rq, n)
  {
    assert forall i | 0 <= i < |rq| :: LineBelow(cfg, procs, rq[i], i, n);
  }

  lemma LineGrows(cfg: Config, procs: seq<Proc>, q: seq<nat>, i: nat, n: nat)
    requires LineBelow(cfg, procs, q, i, n) && n < |procs|
    ensures Runs(cfg, n, procs[n]) && QueueOf(procs[n].prio) == i ==>
      LineBelow(cfg, procs, q + [n], i, n + 1) && LineBelow(cfg, procs, [n] + q, i, n + 1)
    ensures !(Runs(cfg, n, procs[n]) && QueueOf(procs[n].prio) == i) ==> LineBelow(cfg, procs, q, i, n + 1)
  {
    AppendDistinct(q, n);
  }

  /** One slot after the other joins its queue. */
  lemma LinesGrow(k: Kernel, n: nat)
    requires LinesBelow(k.cfg, k.procs, k.rq, n) && n < |k.procs|
    ensures var k' := if Runs(k.cfg, n, k.procs[n]) then Ready(k, n) else k;
      LinesBelow(k.cfg, k.procs, k'.rq, n + 1)
  {
    var k' := if Runs(k.cfg, n, k.procs[n]) then Ready(k, n) else k;
    forall i | 0 <= i < 3
      ensures LineBelow(k.cfg, k.procs, k'.rq[i], i, n + 1)
    {
      assert LineBelow(k.cfg, k.procs, k.rq[i], i, n);
      LineGrows(k.cfg, k.procs, k.rq[i], i, n);
    }
  }

  lemma AllLined(k: Kernel)
    requires LinesBelow(k.cfg, k.procs, k.rq, |k.procs|)
    ensures LinesOk(k.cfg, k.procs, k.rq)
  {
    assert forall i | 0 <= i < 3 :: LineBelow(k.cfg, k.procs, k.rq[i], i, |k.procs|);
  }

  lemma TableBooted(k: Kernel)
    requires BootTable(k.cfg, k.procs) && Shape(k) && LinesOk(k.cfg, k.procs, k.rq) && Settled(k)
    requires k.held == [] && k.sigProcs == 0 && !k.panicked
    requires k.callers == seq(|k.procs|, _ => []) && k.handed == seq(|k.procs|, _ => 0)
    ensures Boot(k) && Inv(k)
  {
    forall p | 0 <= p < |k.procs|
      ensures IdleSlot(k, p)
    {
      assert BootSlot(k.cfg, p, k.procs[p]);
    }
    BootInv(k);
  }

  lemma NothingLinked(ready: seq<int>, heads: seq<int>, tails: seq<int>, send: seq<int>, callerq: seq<int>,
                      heldlink: seq<int>)
    requires |heads| == 3 && |tails| == 3 && forall i | 0 <= i < 3 :: heads[i] == NIL
    requires forall d | 0 <= d < |callerq| :: callerq[d] == NIL
    ensures Lines(ready, heads, tails, [[], [], []]) && Heads(send, callerq, seq(|callerq|, _ => []))
    ensures Line(heldlink, NIL, NIL, [])
  {
  }

  class KernelTable {
    const cfg: Config
    const procs: array<Proc>
    // The links of each slot: the first waiting sender, the next waiting sender behind this
    // one, the next ready process, the next held-up task.
    const callerq: array<int>
    const sendlink: array<int>
    const nextready: array<int>
    const nextheld: array<int>
    const rdyHead: array<int>
    const rdyTail: array<int>
    var heldHead: int
    var heldTail: int
    var cur: nat
    var bill: nat
    var sigProcs: int
    var lastPriority: int
    var panicked: bool
    // The queues the links stand for, and the signals MM works on.
    ghost var callers: seq<seq<nat>>
    ghost var rq: seq<seq<nat>>
    ghost var held: seq<nat>
    ghost var handed: seq<nat>

    ghost function State(): Kernel
      reads this, procs
    {
      Kernel(cfg, procs[..], callers, rq, held, cur, bill, sigProcs, lastPriority, panicked, handed)
    }

    predicate ArraysApart()
      reads this
    {
      && callerq != sendlink && callerq != nextready && callerq != nextheld && callerq != rdyHead && callerq != rdyTail
      && sendlink != nextready && sendlink != nextheld && sendlink != rdyHead && sendlink != rdyTail
      && nextready != nextheld && nextready != rdyHead && nextready != rdyTail
      && nextheld != rdyHead && nextheld != rdyTail && rdyHead != rdyTail
      && callerq.Length == sendlink.Length == nextready.Length == nextheld.Length == procs.Length
    }

    ghost predicate Valid()
      reads this, procs, callerq, sendlink, nextready, nextheld, rdyHead, rdyTail
    {
      && ArraysApart() && Shape(State())
      && Lines(nextready[..], rdyHead[..], rdyTail[..], rq)
      && Heads(sendlink[..], callerq[..], callers)
      && Line(nextheld[..], heldHead, heldTail, held)
    }

    /** The table at boot: every live slot is made ready, one after the other, and one is picked. */
    constructor (cfg: Config, table: seq<Proc>)
      requires BootTable(cfg, table)
      ensures Valid() && Boot(State()) && Inv(State())
      ensures this.cfg == cfg && procs[..] == table
      ensures fresh(procs) && fresh(callerq) && fresh(sendlink) && fresh(nextready) && fresh(nextheld)
      ensures fresh(rdyHead) && fresh(rdyTail)
    {
      this.cfg := cfg;
      procs := new Proc[|table|](p requires 0 <= p < |table| => table[p]);
      callerq := new int[|table|](_ => NIL);
      sendlink := new int[|table|](_ => NIL);
      nextready := new int[|table|](_ => NIL);
      nextheld := new int[|table|](_ => NIL);
      rdyHead := new int[3](_ => NIL);
      rdyTail := new int[3](_ => NIL);
      heldHead, heldTail := NIL, NIL;
      cur, bill, sigProcs, lastPriority, panicked := cfg.idle, cfg.idle, 0, 50, false;
      callers, rq, held, handed := seq(|table|, _ => []), [[], [], []], [], seq(|table|, _ => 0);
      new;
      assert procs[..] == table;
      NothingLinked(nextready[..], rdyHead[..], rdyTail[..], sendlink[..], callerq[..], nextheld[..]);
      Start();
    }

    method Start()
      requires Valid() && BootTable(cfg, procs[..]) && rq == [[], [], []]
      requires held == [] && sigProcs == 0 && !panicked
      requires callers == seq(procs.Length, _ => []) && handed == seq(procs.Length, _ => 0)
      modifies nextready, rdyHead, rdyTail, this`rq, this`cur, this`bill
      ensures Valid() && Boot(State()) && Inv(State())
    {
      assert LinesBelow(cfg, procs[..], rq, 0);
      ReadyAll();
      PickProc();
      TableBooted(State());
    }

    method ReadyAll()
      requires Valid() && BootTable(cfg, procs[..]) && LinesBelow(cfg, procs[..], rq, 0)
      modifies nextready, rdyHead, rdyTail, this`rq, this`cur
      ensures Valid() && State() == old(State()).(rq := rq, cur := cur) && LinesOk(cfg, procs[..], rq)
    {
      var p := 0;
      while p < procs.Length
        invariant p <= procs.Length && Valid() && State() == old(State()).(rq := rq, cur := cur)
        invariant LinesBelow(cfg, procs[..], rq, p)
      {
        BelowApart(cfg, procs[..], rq, p);
        LinesGrow(State(), p);
        assert BootSlot(cfg, p, procs[p]);
        if p != cfg.idle && p != cfg.hardware && !procs[p].prio.Unused? {
          Ready(p);
        }
        p := p + 1;
      }
      AllLined(State());
    }

    // ---- The ready queues ----

    method PickProc()
      requires Valid()
      modifies this`cur, this`bill
      ensures Valid() && State() == KernelSpec.PickProc(old(State()))
    {
      assert forall i | 0 <= i < |rq| :: Line(nextready[..], rdyHead[i], rdyTail[i], rq[i]);
      if rdyHead[TASK_Q] != NIL {
        cur := rdyHead[TASK_Q];
      } else if rdyHead[SERVER_Q] != NIL {
        cur := rdyHead[SERVER_Q];
      } else if rdyHead[USER_Q] != NIL {
        cur := rdyHead[USER_Q];
        bill := cur;
      } else {
        cur := cfg.idle;
        bill := cur;
      }
    }

    /** At the end of a queue. */
    method Enqueue(i: nat, p: nat)
      requires Valid() && Apart(rq) && Nowhere(rq, p) && i < 3 && p < procs.Length
      modifies nextready, rdyHead, rdyTail, this`rq
      ensures Valid() && rq == old(rq)[i := old(rq)[i] + [p]]
    {
      LinesAppend(nextready[..], rdyHead[..], rdyTail[..], rq, i, p);
      if rdyHead[i] != NIL {
        nextready[rdyTail[i]] := p;
      } else {
        rdyHead[i] := p;
      }
      rdyTail[i] := p;
      nextready[p] := NIL;
      rq := rq[i := rq[i] + [p]];
    }

    method Ready(p: nat)
      requires Valid() && Apart(rq) && Nowhere(rq, p) && p < procs.Length
      modifies nextready, rdyHead, rdyTail, this`rq, this`cur
      ensures Valid() && State() == KernelSpec.Ready(old(State()), p)
    {
      LinesPush(nextready[..], rdyHead[..], rdyTail[..], rq, USER_Q, p);
      assert Line(nextready[..], rdyHead[TASK_Q], rdyTail[TASK_Q], rq[TASK_Q]);
      if procs[p].prio.Task? {
        if rdyHead[TASK_Q] == NIL {
          cur := p;
        }
        Enqueue(TASK_Q, p);
      } else if procs[p].prio.Server? {
        Enqueue(SERVER_Q, p);
      } else {
        if rdyHead[USER_Q] == NIL {
          rdyTail[USER_Q] := p;
        }
        nextready[p] := rdyHead[USER_Q];
        rdyHead[USER_Q] := p;
        rq := rq[USER_Q := [p] + rq[USER_Q]];
      }
    }

    method Unready(p: nat)
      requires Valid() && Apart(rq) && p < procs.Length
      modifies nextready, rdyHead, rdyTail, this`rq, this`cur, this`bill
      ensures Valid() && State() == KernelSpec.Unready(old(State()), p)
    {
      var i := QueueOf(procs[p].prio);
      ghost var q := rq[i];
      assert Line(nextready[..], rdyHead[i], rdyTail[i], q);
      var xp := rdyHead[i];
      if xp == NIL {
        assert rq[i := q] == rq;
        return;
      }
      if xp == p {
        RemoveFirst(i);
        if i != TASK_Q || p == cur {
          PickProc();
        }
        return;
      }
      var behind := FindBehind(i, xp, p);
      if behind == NIL {
        RemoveAbsent(q, p);
        assert rq[i := q] == rq;
        return;
      }
      ghost var j: nat :| j + 1 < |q| && q[j] == behind && q[j + 1] == p;
      RemoveBehind(i, behind, p, j);
    }

    method RemoveFirst(i: nat)
      requires Valid() && i < 3 && rq[i] != []
      modifies rdyHead, this`rq
      ensures Valid() && rq == old(rq)[i := Remove(old(rq)[i], old(rq)[i][0])]
    {
      LinesTail(nextready[..], rdyHead[..], rdyTail[..], rq, i);
      rq := rq[i := Remove(rq[i], rq[i][0])];
      rdyHead[i] := nextready[rdyHead[i]];
    }

    method RemoveBehind(i: nat, behind: nat, p: nat, ghost j: nat)
      requires Valid() && Apart(rq) && i < 3 && j + 1 < |rq[i]| && rq[i][j] == behind && rq[i][j + 1] == p
      modifies nextready, rdyTail, this`rq
      ensures Valid() && rq == old(rq)[i := Remove(old(rq)[i], p)]
    {
      ghost var q := rq[i];
      assert nextready[behind] == p by {
        assert Line(nextready[..], rdyHead[i], rdyTail[i], q);
        InLine(nextready[..], rdyHead[i], rdyTail[i], q, j);
      }
      LinesUnlink(nextready[..], rdyHead[..], rdyTail[..], rq, i, j + 1);
      nextready[behind] := nextready[nextready[behind]];
      if rdyTail[i] == p {
        rdyTail[i] := behind;
      }
      rq := rq[i := Remove(q, p)];
    }

    /** The process in front of `p` on a ready queue, or NIL if `p` is not on it. */
    method FindBehind(i: nat, head: nat, p: nat) returns (xp: int)
      requires Valid() && i < 3 && rq[i] != [] && head == rq[i][0] && head != p
      ensures xp == NIL ==> p !in rq[i]
      ensures xp != NIL ==> 0 <= xp && exists j: nat :: j + 1 < |rq[i]| && rq[i][j] == xp && rq[i][j + 1] == p
    {
      ghost var q, j := rq[i], 0;
      assert Line(nextready[..], rdyHead[i], rdyTail[i], q);
      xp := head;
      InLine(nextready[..], rdyHead[i], rdyTail[i], q, j);
      while nextready[xp] != p
        invariant 0 <= j < |q| && xp == q[j] && p !in q[..j + 1]
        invariant 0 <= xp < nextready.Length && nextready[xp] == After(q, j)
        decreases |q| - j
      {
        xp := nextready[xp];
        if xp == NIL {
          return;
        }
        j := j + 1;
        InLine(nextready[..], rdyHead[i], rdyTail[i], q, j);
      }
    }

    /** The clock has the user process in front run for another quantum. */
    method Sched()
      requires Valid() && Apart(rq)
      modifies nextready, rdyHead, rdyTail, procs, this`rq, this`cur, this`bill
      ensures old(rq[USER_Q]) != [] ==> old(rq[USER_Q][0]) < procs.Length
      ensures Valid() && State() == KernelSpec.Sched(old(State()))
    {
      ghost var q := rq[USER_Q];
      assert Line(nextready[..], rdyHead[USER_Q], rdyTail[USER_Q], q);
      var head := rdyHead[USER_Q];
      if head == NIL {
        return;
      }
      InLine(nextready[..], rdyHead[USER_Q], rdyTail[USER_Q], q, 0);
      if procs[head].timeCounter != procs[head].userPriority {
        procs[head] := procs[head].(timeCounter := procs[head].timeCounter + 1);
        return;
      }
      procs[head] := procs[head].(timeCounter := 0);
      LinesRotate(nextready[..], rdyHead[..], rdyTail[..], rq, USER_Q);
      nextready[rdyTail[USER_Q]] := head;
      rdyTail[USER_Q] := head;
      rdyHead[USER_Q] := nextready[head];
      nextready[head] := NIL;
      rq := rq[USER_Q := q[1..] + [q[0]]];
      PickProc();
    }

    // ---- Sending ----

    /** The walk along the blocked senders. It ends, because they never wait in a circle. */
    method Locked(c: nat, d: nat) returns (locked: bool)
      requires Valid() && Acyclic(Edges(procs[..])) && d < procs.Length
      ensures locked == ClosesCycle(procs[..], c, d)
    {
      ghost var next := Edges(procs[..]);
      if !procs[d].sending {
        return false;
      }
      var p: nat := procs[d].sendto;
      assert Terminates(next, p);
      ghost var k: nat :| Stops(next, p, k);
      while true
        invariant p < procs.Length && Stops(next, p, k)
        invariant LeadsTo(next, p, c) <==> LeadsTo(next, procs[d].sendto, c)
        decreases k
      {
        if p == c {
          assert Hits(next, p, c, 0);
          return true;
        }
        LeadsOn(next, p, c);
        if !procs[p].sending {
          return false;
        }
        p := procs[p].sendto;
        k := k - 1;
      }
    }

    /** At the end of the caller queue of `d`. */
    method JoinCallers(d: nat, c: nat)
      requires Valid() && Apart(callers) && Nowhere(callers, c) && d < procs.Length && c < procs.Length
      modifies callerq, sendlink, this`callers
      ensures Valid() && callers == old(callers)[d := old(callers)[d] + [c]]
    {
      HeadsAppend(sendlink[..], callerq[..], callers, d, c);
      assert HeadAt(sendlink[..], callerq[d], callers[d]);
      if callerq[d] == NIL {
        callerq[d] := c;
      } else {
        var last := LastCaller(d);
        sendlink[last] := c;
      }
      sendlink[c] := NIL;
      callers := callers[d := callers[d] + [c]];
    }

    method LastCaller(d: nat) returns (next: nat)
      requires Valid() && d < procs.Length && callers[d] != []
      ensures next == Last(callers[d])
    {
      ghost var q, j := callers[d], 0;
      assert HeadAt(sendlink[..], callerq[d], q);
      next := callerq[d];
      ChainAt(sendlink[..], q, j);
      while sendlink[next] != NIL
        invariant 0 <= j < |q| && next == q[j] && next < sendlink.Length && sendlink[next] == After(q, j)
        decreases |q| - j
      {
        next := sendlink[next];
        j := j + 1;
        ChainAt(sendlink[..], q, j);
      }
    }

    method MiniSend(c: nat, d: nat, body: Body, inside: bool) returns (r: Reply)
      requires Valid() && Linked(State()) && c < procs.Length && d < procs.Length && !procs[c].sending
      modifies nextready, rdyHead, rdyTail, callerq, sendlink, procs, this`rq, this`callers, this`cur, this`bill
      ensures Valid() && (State(), r) == KernelSpec.MiniSend(old(State()), c, d, body, inside)
    {
      if procs[c].prio.User? && d != cfg.Mm() && d != cfg.Fs() {
        return BadDestination;
      }
      if procs[d].prio.Unused? {
        return BadDestination;
      }
      if !inside {
        return BadAddress;
      }
      var locked := Locked(c, d);
      if locked {
        return Deadlock;
      }
      if procs[d].Accepts(c) {
        Deliver(c, d, body);
      } else {
        BlockSender(c, d, body);
      }
      return OK;
    }

    method Deliver(c: nat, d: nat, body: Body)
      requires Valid() && QueuesOk(State()) && d < procs.Length && procs[d].Accepts(c)
      modifies nextready, rdyHead, rdyTail, procs, this`rq, this`cur
      ensures Valid() && State() == KernelSpec.Deliver(old(State()), c, d, body)
    {
      QueuesApart(State());
      procs[d] := procs[d].(buf := Message(c, body), receiving := false);
      if procs[d].Runnable() {
        Ready(d);
      }
    }

    method BlockSender(c: nat, d: nat, body: Body)
      requires Valid() && QueuesOk(State()) && c < procs.Length && d < procs.Length && !procs[c].sending
      modifies nextready, rdyHead, rdyTail, callerq, sendlink, procs, this`rq, this`callers, this`cur, this`bill
      ensures Valid() && State() == KernelSpec.BlockSender(old(State()), c, d, body)
    {
      QueuesApart(State());
      if procs[c].Runnable() {
        Unready(c);
      }
      JoinCallers(d, c);
      procs[c] := procs[c].(buf := Message(c, body), sending := true, sendto := d);
    }

    // ---- Receiving ----

    /** The first waiting sender that is wanted, and the one queued in front of it. */
    method FindSender(c: nat, src: Source) returns (sender: int, previous: int)
      requires Valid() && c < procs.Length
      ensures (sender == NIL) == Wanted(callers[c], src).None?
      ensures sender != NIL ==> Some(sender) == Wanted(callers[c], src)
      ensures sender != NIL ==> exists j: nat :: AtPlace(callers[c], j, sender, previous)
    {
      ghost var q, j := callers[c], 0;
      assert HeadAt(sendlink[..], callerq[c], q);
      sender, previous := callerq[c], NIL;
      while sender != NIL
        invariant 0 <= j <= |q| && sender == First(q[j..]) && previous == if j == 0 then NIL else q[j - 1]
        invariant Wanted(q, src) == Wanted(q[j..], src)
        decreases |q| - j
      {
        ChainAt(sendlink[..], q, j);
        if src == Any || src == From(sender) {
          assert AtPlace(q, j, sender, previous);
          return;
        }
        assert q[j..][1..] == q[j + 1..];
        sender, previous := sendlink[sender], sender;
        j := j + 1;
      }
    }

    /** A sender leaves the caller queue. */
    method LeaveCallers(c: nat, s: nat, previous: int)
      requires Valid() && Apart(callers) && c < procs.Length
      requires exists j: nat :: AtPlace(callers[c], j, s, previous)
      modifies callerq, sendlink, this`callers
      ensures Valid() && callers == old(callers)[c := Remove(old(callers)[c], s)]
    {
      ghost var q := callers[c];
      ghost var j: nat :| AtPlace(q, j, s, previous);
      assert HeadAt(sendlink[..], callerq[c], q);
      ChainAt(sendlink[..], q, j);
      if s == callerq[c] {
        assert j == 0;
        HeadsTail(sendlink[..], callerq[..], callers, c);
        callerq[c] := sendlink[s];
      } else {
        HeadsUnlink(sendlink[..], callerq[..], callers, c, j);
        sendlink[previous] := sendlink[s];
      }
      callers := callers[c := Remove(q, s)];
    }

    method Accept(c: nat, s: nat, previous: int)
      requires Valid() && QueuesOk(State()) && c < procs.Length && !procs[c].sending
      requires exists j: nat :: AtPlace(callers[c], j, s, previous)
      modifies nextready, rdyHead, rdyTail, callerq, sendlink, procs, this`rq, this`callers, this`cur
      ensures Valid() && State() == KernelSpec.Accept(old(State()), c, s)
    {
      QueuesApart(State());
      assert CallersAt(procs[..], callers[c], c) && s in callers[c];
      procs[c] := procs[c].(buf := Message(s, procs[s].buf.body));
      LeaveCallers(c, s, previous);
      procs[s] := procs[s].(sending := false);
      if procs[s].Runnable() {
        Ready(s);
      }
    }

    method TakeInterrupt(c: nat)
      requires Valid() && c < procs.Length
      modifies procs
      ensures Valid() && State() == KernelSpec.TakeInterrupt(old(State()), c)
    {
      procs[c] := procs[c].(buf := Message(cfg.hardware, HardInt), intBlocked := false);
    }

    method BlockReceiver(c: nat, src: Source)
      requires Valid() && QueuesOk(State()) && c < procs.Length
      modifies nextready, rdyHead, rdyTail, procs, this`rq, this`cur, this`bill
      ensures Valid() && State() == KernelSpec.BlockReceiver(old(State()), c, src)
    {
      QueuesApart(State());
      if procs[c].Runnable() {
        Unready(c);
      }
      procs[c] := procs[c].(getfrom := src, receiving := true);
    }

    method MiniRec(c: nat, src: Source)
      requires Valid() && QueuesOk(State()) && c < procs.Length
      requires (Core(State()) && Runs(cfg, c, procs[c])) || (procs[c].sending && src == From(procs[c].sendto))
      modifies this, nextready, rdyHead, rdyTail, callerq, sendlink, procs
      ensures Valid() && State() == KernelSpec.MiniRec(old(State()), c, src)
    {
      if !procs[c].sending {
        var sender, previous := FindSender(c, src);
        if sender != NIL {
          Accept(c, sender, previous);
          return;
        }
        if procs[c].intBlocked && RxHardware(cfg, src) {
          TakeInterrupt(c);
          return;
        }
      }
      ghost var k := State();
      BlockReceiver(c, src);
      if 0 < sigProcs && c == cfg.Mm() && src == Any {
        BlockReceiverKeeps(k, c, src);
        Inform();
      }
    }

    // ---- Signals ----

    /** The first process, behind the tasks, with a signal MM does not know of. */
    method FindPending() returns (p: nat)
      requires Valid()
      ensures FirstPending(procs[..], cfg.nrTasks) == if p < procs.Length then Some(p) else None
    {
      p := cfg.nrTasks;
      while p < procs.Length && !procs[p].pending
        invariant p <= procs.Length
        invariant FirstPending(procs[..], cfg.nrTasks) == FirstPending(procs[..], p)
      {
        p := p + 1;
      }
    }

    method Inform()
      requires Valid() && Linked(State()) && !procs[cfg.hardware].sending
      modifies this, nextready, rdyHead, rdyTail, callerq, sendlink, procs
      ensures Valid() && State() == KernelSpec.Inform(old(State()))
    {
      var p := FindPending();
      if p < procs.Length {
        Tell(p);
      }
    }

    method Tell(p: nat)
      requires Valid() && Linked(State()) && !procs[cfg.hardware].sending && p < procs.Length
      modifies this, nextready, rdyHead, rdyTail, callerq, sendlink, procs
      ensures Valid() && State() == KernelSpec.Tell(old(State()), p)
    {
      var told := |procs[p].signals|;
      var n := SendSignals(p);
      if n != OK {
        panicked := true;
      } else {
        HandOver(p, told);
      }
    }

    method SendSignals(p: nat) returns (n: Reply)
      requires Valid() && Linked(State()) && !procs[cfg.hardware].sending && p < procs.Length
      modifies this, nextready, rdyHead, rdyTail, callerq, sendlink, procs
      ensures Valid() && (State(), n) == KernelSpec.SendSignals(old(State()), p)
      ensures handed == old(handed)
    {
      sigProcs := sigProcs - 1;
      n := MiniSend(cfg.hardware, cfg.Mm(), KernelSignals(p, procs[p].signals), true);
    }

    method HandOver(p: nat, told: nat)
      requires Valid() && p < procs.Length
      modifies procs, this`handed, this`cur, this`bill
      ensures Valid() && State() == KernelSpec.HandOver(old(State()), p, told)
    {
      procs[p] := procs[p].(signals := {}, pending := false);
      handed := handed[p := handed[p] + told];
      PickProc();
    }

    method CauseSig(p: nat, sig: nat)
      requires Valid() && Inv(State()) && IsUser(State(), p)
      modifies this, nextready, rdyHead, rdyTail, callerq, sendlink, procs
      ensures Valid() && State() == KernelSpec.CauseSig(old(State()), p, sig)
    {
      if sig in procs[p].signals {
        return;
      }
      ghost var noted := Noted(procs[p], sig);
      NotedOk(cfg, p, procs[p], handed[p], sig);
      if procs[p].pending {
        procs[p] := Noted(procs[p], sig);
        return;
      }
      StoppedTables(State(), p, noted);
      Stop(p, sig);
      if procs[cfg.Mm()].receiving && procs[cfg.Mm()].getfrom == Any {
        HardwareIdle(State());
        Inform();
      }
    }

    method Stop(p: nat, sig: nat)
      requires Valid() && QueuesOk(State()) && p < procs.Length
      modifies nextready, rdyHead, rdyTail, procs, this`rq, this`cur, this`bill, this`sigProcs
      ensures Valid() && State() == Stopped(old(State()), p, Noted(old(procs[p]), sig))
    {
      QueuesApart(State());
      procs[p] := Noted(procs[p], sig);
      if procs[p].Runnable() {
        Unready(p);
      }
      procs[p] := procs[p].(pending := true, sigPending := true);
      sigProcs := sigProcs + 1;
    }

    method DoEndsig(p: nat) returns (ok: bool)
      requires Valid() && Inv(State()) && p < procs.Length
      modifies nextready, rdyHead, rdyTail, procs, this`rq, this`cur, this`handed
      ensures Valid() && (State(), ok) == KernelSpec.DoEndsig(old(State()), p)
    {
      if procs[p].prio.Unused? {
        return false;
      }
      if procs[p].pendcount != 0 {
        QueuesApart(State());
        assert SlotOk(cfg, p, procs[p], handed[p]);
        var last := CountDown(p);
        if last && procs[p].Runnable() {
          Ready(p);
        }
      }
      return true;
    }

    method CountDown(p: nat) returns (last: bool)
      requires Valid() && p < procs.Length && 0 < procs[p].pendcount
      modifies procs, this`handed
      ensures Valid() && last == (old(procs[p]).pendcount == 1)
      ensures State() == SetProc(old(State()), p, Ended(old(procs[p])))
                           .(handed := old(handed)[p := if old(handed)[p] == 0 then 0 else old(handed)[p] - 1])
    {
      procs[p] := Ended(procs[p]);
      handed := handed[p := if handed[p] == 0 then 0 else handed[p] - 1];
      last := procs[p].pendcount == 0;
    }

    // ---- Interrupts ----

    method Interrupt(t: nat, busy: bool)
      requires Valid() && Core(State()) && HasInterrupts(State(), t)
      modifies this, nextready, rdyHead, rdyTail, nextheld, procs
      ensures Valid() && State() == KernelSpec.Interrupt(old(State()), t, busy)
    {
      if busy {
        if !procs[t].intHeld {
          Hold(t);
        }
      } else if !procs[t].receiving || procs[t].sending || !RxHardware(cfg, procs[t].getfrom) {
        procs[t] := procs[t].(intBlocked := true);
      } else {
        QueuesApart(State());
        procs[t] := procs[t].(buf := Message(cfg.hardware, HardInt), receiving := false, intBlocked := false);
        assert Line(nextready[..], rdyHead[TASK_Q], rdyTail[TASK_Q], rq[TASK_Q]);
        if rdyHead[TASK_Q] == NIL {
          cur := t;
        }
        Enqueue(TASK_Q, t);
      }
    }

    method Hold(t: nat)
      requires Valid() && HeldOk(procs[..], held) && t < procs.Length && !procs[t].intHeld
      modifies nextheld, procs, this`heldHead, this`heldTail, this`held
      ensures Valid() && State() == SetProc(old(State()), t, old(procs[t]).(intHeld := true)).(held := old(held) + [t])
    {
      LineAppend(nextheld[..], heldHead, heldTail, held, t);
      procs[t] := procs[t].(intHeld := true);
      if heldHead != NIL {
        nextheld[heldTail] := t;
      } else {
        heldHead := t;
      }
      heldTail := t;
      nextheld[t] := NIL;
      held := held + [t];
    }

    /** Flushes the held queue; interrupts that come in between are held up again, which is
        another step. */
    method Unhold()
      requires Valid() && Inv(State()) && held != []
      modifies this, nextready, rdyHead, rdyTail, nextheld, procs
      ensures Valid() && State() == UnholdAll(old(State()))
    {
      var rp := heldHead;
      while rp != NIL
        invariant Valid() && Inv(State()) && rp == heldHead
        invariant UnholdAll(State()) == UnholdAll(old(State()))
        decreases |held|
      {
        UnholdOneKeeps(State());
        ghost var k := State();
        UnholdFirst();
        assert UnholdAll(k) == UnholdAll(State());
        rp := heldHead;
      }
    }

    method UnholdFirst()
      requires Valid() && Inv(State()) && held != [] && held[0] < procs.Length
      modifies this, nextready, rdyHead, rdyTail, nextheld, procs
      ensures Valid() && State() == UnholdOne(old(State()))
    {
      UnholdKeeps(State());
      var rp := PopHeld();
      Interrupt(rp, false);
    }

    method PopHeld() returns (rp: nat)
      requires Valid() && held != [] && held[0] < procs.Length
      modifies procs, this`heldHead, this`heldTail, this`held
      ensures rp == old(held)[0] && Valid()
      ensures State() == SetProc(old(State()), rp, old(procs[held[0]]).(intHeld := false)).(held := old(held)[1..])
    {
      LineTail(nextheld[..], heldHead, heldTail, held);
      rp := heldHead;
      heldHead := nextheld[rp];
      if heldHead == NIL {
        heldTail := NIL;
      }
      procs[rp] := procs[rp].(intHeld := false);
      held := held[1..];
    }

    // ---- Calls ----

    /** The entry for send, receive and both. Tasks and servers are trusted not to send to `Any`;
        a send to itself is carried out, and breaks the invariant. */
    method SysCall(f: Function, src: Source, body: Body, inside: bool) returns (r: Reply)
      requires Valid() && Inv(State()) && cur < procs.Length && cur != cfg.idle
      requires src == Any && f != Receive ==> procs[cur].prio.User?
      modifies this, nextready, rdyHead, rdyTail, callerq, sendlink, procs
      ensures Valid() && (State(), r) == KernelSpec.SysCall(old(State()), f, src, body, inside)
      ensures Trusted(old(State()), f, src) ==> Inv(State())
    {
      CallReady(State(), f, src, body, inside);
      if src.From? && !(0 <= src.p < procs.Length) {
        return BadSource;
      }
      var rp := cur;
      if procs[rp].prio.User? && f != Both {
        return NoPermission;
      }
      if f != Receive {
        if src == Any {
          return BadDestination;
        }
        SendQueues(State(), rp, src.p, body, inside);
        r := MiniSend(rp, src.p, body, inside);
        if f == Send || r != OK {
          return;
        }
      }
      MiniRec(rp, src);
      return OK;
    }

    // ---- Processes come and go ----

    method DoXit(p: nat)
      requires Valid() && Inv(State()) && IsUser(State(), p)
      modifies nextready, rdyHead, rdyTail, callerq, sendlink, procs, this`rq, this`callers, this`cur, this`bill,
        this`sigProcs, this`handed
      ensures Valid() && State() == KernelSpec.DoXit(old(State()), p)
    {
      QueuesApart(State());
      if procs[p].Runnable() {
        Unready(p);
      }
      if procs[p].sending {
        LeaveAllQueues(p);
      }
      FreeSlot(p);
    }

    method FreeSlot(p: nat)
      requires Valid() && p < procs.Length
      modifies procs, this`sigProcs, this`handed
      ensures Valid() && State() == SetProc(old(State()), p, Cleared(old(procs[p])))
        .(handed := old(handed)[p := 0], sigProcs := if old(procs[p]).pending then old(sigProcs) - 1 else old(sigProcs))
    {
      if procs[p].pending {
        sigProcs := sigProcs - 1;
      }
      procs[p] := Cleared(procs[p]);
      handed := handed[p := 0];
    }

    /** All caller queues are searched for the exiting process; it is on one of them. */
    method LeaveAllQueues(p: nat)
      requires Valid() && CallersOk(procs[..], callers) && Apart(callers) && p < procs.Length && procs[p].sending
      modifies callerq, sendlink, this`callers
      ensures Valid() && callers == old(callers)[procs[p].sendto := Remove(old(callers)[procs[p].sendto], p)]
    {
      ghost var d := procs[p].sendto;
      ghost var before, after := callers, callers[d := Remove(callers[d], p)];
      OnOneQueue(procs[..], callers, p);
      RemovedApart(callers, d, p);
      var rp := 0;
      while rp < procs.Length
        invariant rp <= procs.Length && Valid()
        invariant callers == if rp <= d then before else after
      {
        if callerq[rp] != NIL {
          var atHead := LeaveQueue(rp, p);
          if atHead {
            return;
          }
        }
        rp := rp + 1;
      }
    }

    /** Takes `s` off the caller queue of `d`, if it is there. */
    method LeaveQueue(d: nat, s: nat) returns (atHead: bool)
      requires Valid() && Apart(callers) && d < procs.Length && callerq[d] != NIL
      modifies callerq, sendlink, this`callers
      ensures Valid() && callers == old(callers)[d := Remove(old(callers)[d], s)]
      ensures atHead ==> s in old(callers)[d]
    {
      ghost var q := callers[d];
      assert HeadAt(sendlink[..], callerq[d], q);
      ChainAt(sendlink[..], q, 0);
      if callerq[d] == s {
        HeadsTail(sendlink[..], callerq[..], callers, d);
        callerq[d] := sendlink[s];
        callers := callers[d := Remove(q, s)];
        return true;
      }
      var np, found := FindCaller(d, s);
      if found {
        ghost var j: nat :| 0 < j && AtPlace(q, j, s, np);
        ChainAt(sendlink[..], q, j - 1);
        HeadsUnlink(sendlink[..], callerq[..], callers, d, j);
        sendlink[np] := sendlink[s];
        callers := callers[d := Remove(q, s)];
      } else {
        RemoveAbsent(q, s);
        assert callers[d := q] == callers;
      }
      return false;
    }

    /** Who is queued in front of `s`, if it is queued behind the head. */
    method FindCaller(d: nat, s: nat) returns (np: nat, found: bool)
      requires Valid() && d < procs.Length && callers[d] != [] && callers[d][0] != s
      ensures found ==> exists j: nat :: 0 < j && AtPlace(callers[d], j, s, np)
      ensures !found ==> s !in callers[d]
    {
      ghost var q, j := callers[d], 0;
      assert HeadAt(sendlink[..], callerq[d], q);
      ChainAt(sendlink[..], q, 0);
      np := callerq[d];
      while sendlink[np] != NIL
        invariant 0 <= j < |q| && np == q[j] && np < sendlink.Length && sendlink[np] == After(q, j) && s !in q[..j + 1]
        decreases |q| - j
      {
        ChainAt(sendlink[..], q, j + 1);
        if sendlink[np] == s {
          assert AtPlace(q, j + 1, s, np);
          return np, true;
        }
        np := sendlink[np];
        j := j + 1;
      }
      found := false;
    }

    method DoFork(parent: nat, child: nat, pid: int)
      requires Valid() && CanFork(State(), parent, child) && Inv(State())
      modifies callerq, sendlink, nextready, procs, this`callers, this`lastPriority
      ensures Valid() && State() == KernelSpec.DoFork(old(State()), parent, child, pid)
    {
      QueuesApart(State());
      ChildLinks(State(), nextready[..], rdyHead[..], rdyTail[..], sendlink[..], callerq[..], parent, child);
      // The whole slot is copied, links included.
      CopyLinks(parent, child);
      lastPriority := if lastPriority == 50 then 10 else 50;
      procs[child] := procs[parent].(noMap := true, pending := false, sigPending := false, stopped := false,
                                     signals := {}, pendcount := 0, pid := pid, timeCounter := 0,
                                     userPriority := lastPriority);
    }

    method CopyLinks(parent: nat, child: nat)
      requires Valid() && parent < procs.Length && child < procs.Length
      requires Lines(nextready[..][child := nextready[parent]], rdyHead[..], rdyTail[..], rq)
      requires Heads(sendlink[..][child := sendlink[parent]], callerq[..][child := callerq[parent]],
        callers[child := callers[parent]])
      modifies callerq, sendlink, nextready, this`callers
      ensures Valid() && callers == old(callers)[child := old(callers)[parent]]
    {
      callerq[child] := callerq[parent];
      sendlink[child] := sendlink[parent];
      nextready[child] := nextready[parent];
      callers := callers[child := callers[parent]];
    }

    method DoNewmap(p: nat)
      requires Valid() && Inv(State()) && p < procs.Length
      modifies nextready, rdyHead, rdyTail, procs, this`rq, this`cur
      ensures Valid() && State() == KernelSpec.DoNewmap(old(State()), p)
    {
      QueuesApart(State());
      var wasRunnable := procs[p].Runnable();
      procs[p] := procs[p].(noMap := false);
      if !wasRunnable && procs[p].Runnable() {
        Ready(p);
      }
    }

    // ---- Priorities ----

    method FindPid(pid: int) returns (p: nat)
      requires Valid()
      ensures FirstPid(procs[..], pid, cfg.LowUser()) == if p < procs.Length then Some(p) else None
    {
      p := cfg.LowUser();
      while p < procs.Length && procs[p].pid != pid
        invariant p <= procs.Length
        invariant FirstPid(procs[..], pid, cfg.LowUser()) == FirstPid(procs[..], pid, p)
      {
        p := p + 1;
      }
    }

    method DoGetpri(pid: int) returns (priority: int)
      requires Valid()
      ensures priority == KernelSpec.DoGetpri(State(), pid)
    {
      var p := FindPid(pid);
      priority := if p < procs.Length then procs[p].userPriority else 0;
    }

    method DoSetpri(pid: int, priority: int)
      requires Valid()
      modifies procs
      ensures Valid() && State() == KernelSpec.DoSetpri(old(State()), pid, priority)
    {
      var p := FindPid(pid);
      ghost var k := State();
      assert p < procs.Length ==> FirstPid(k.procs, pid, k.cfg.LowUser()) == Some(p);
      assert p >= procs.Length ==> FirstPid(k.procs, pid, k.cfg.LowUser()).None?;
      var granted := if priority <= 0 || priority > 100 then 15 else priority;
      if p < procs.Length {
        procs[p] := procs[p].(userPriority := granted);
        assert State() == SetProc(k, p, k.procs[p].(userPriority := granted));
      }
    }
  }
}
