/** Runs from boot that end where the kernel harms its own tables, each entry being one that
    the kernel accepts. */
module KernelHazards {
  import opened KernelEvents
  import opened KernelInvariant
  import opened KernelProcesses
  import opened KernelRuns
  import opened KernelSpec
  import opened Options
  import opened Queues
  import opened RoundRobin

  const TASK := 2
  const MM := 3
  const FS := 4
  const USER := 5
  const FREE := 6

  function Fresh(prio: Class, pid: int): Proc {
    Proc(prio, false, false, false, false, false, false, Any, 0, Message(0, Plain(0)), false, false, {}, 0, pid, 0, 0)
  }

  /** One task, MM, FS, one user process and one free slot; others only ever queue on the user process. */
  function State(task: Proc, mm: Proc, fs: Proc, user: Proc,
                 callers: seq<nat>, rq: seq<seq<nat>>, cur: nat, bill: nat): (k: Kernel)
    ensures |k.procs| == 7 && |k.callers| == 7
  {
    Kernel(Config(3, 0, 1), [Fresh(Idle, 0), Fresh(Task, 0), task, mm, fs, user, Fresh(Unused, 0)],
           [[], [], [], [], [], callers, []], rq, [], cur, bill, 0, 50, false, [0, 0, 0, 0, 0, 0, 0])
  }

  function Table(): Kernel {
    State(Fresh(Task, 0), Fresh(Server, 0), Fresh(Server, 0), Fresh(User, 1), [], [[TASK], [MM, FS], [USER]], TASK, 0)
  }

  lemma TableBoots()
    ensures Boot(Table()) && AllInTurn(Table())
  {
    var k := Table();
    assert forall p | 0 <= p < |k.procs| :: IdleSlot(k, p);
    assert LineAt(k.cfg, k.procs, [TASK], TASK_Q) && LineAt(k.cfg, k.procs, [MM, FS], SERVER_Q)
           && LineAt(k.cfg, k.procs, [USER], USER_Q);
  }

  ghost predicate Leads(k: Kernel, op: Op, k': Kernel) {
    Shape(k) && Legal(k, op) && Step(k, op) == k'
  }

  /** Entries that lead from state to state are a legal run. */
  lemma {:induction false} Path(ks: seq<Kernel>, ops: seq<Op>)
    requires |ks| == |ops| + 1 && Inv(ks[0])
    requires forall i | 0 <= i < |ops| :: Leads(ks[i], ops[i], ks[i + 1])
    ensures LegalRun(ks[0], ops) && Run(ks[0], ops) == ks[|ops|]
    decreases |ops|
  {
    if ops != [] {
      assert Leads(ks[0], ops[0], ks[1]);
      StepKeeps(ks[0], ops[0]);
      forall i | 0 <= i < |ops[1..]|
        ensures Leads(ks[1..][i], ops[1..][i], ks[1..][i + 1])
      {
        assert Leads(ks[i + 1], ops[i + 1], ks[i + 2]);
      }
      Path(ks[1..], ops[1..]);
    }
  }

  /** Whatever relates each of six states to the next one. */
  lemma InARow<S, O>(leads: (S, O, S) -> bool, ks: seq<S>, ops: seq<O>)
    requires |ks| == 6 && |ops| == 5
    requires leads(ks[0], ops[0], ks[1]) && leads(ks[1], ops[1], ks[2]) && leads(ks[2], ops[2], ks[3])
    requires leads(ks[3], ops[3], ks[4]) && leads(ks[4], ops[4], ks[5])
    ensures forall i | 0 <= i < 5 :: leads(ks[i], ops[i], ks[i + 1])
  {
  }

  /** Two states are the same if their tables and queues are. */
  lemma SameState(k: Kernel, k': Kernel)
    requires k == k'.(procs := k.procs, callers := k.callers, rq := k.rq)
    requires k.procs == k'.procs && k.callers == k'.callers && k.rq == k'.rq
    ensures k == k'
  {
  }

  // ---- A fork while somebody waits to send to the parent ----

  function Waiting(proc: Proc, src: Source): Proc {
    proc.(receiving := true, getfrom := src)
  }

  const ANY_RECEIVE := Call(Receive, Any, Plain(0), true)
  const FS_SENDS := Call(Send, From(USER), Plain(0), true)
  const USER_ASKS := Call(Both, From(MM), Plain(0), true)
  const MM_ASKS := Call(Both, From(TASK), Plain(0), true)

  const FORK_RUN := [ANY_RECEIVE, ANY_RECEIVE, FS_SENDS, USER_ASKS, MM_ASKS]

  const TASK_WAITS := Waiting(Fresh(Task, 0), Any)
  const MM_WAITS := Waiting(Fresh(Server, 0), Any)
  const FS_QUEUED := Fresh(Server, 0).(sending := true, sendto := USER, buf := Message(FS, Plain(0)))
  const USER_WAITS := Waiting(Fresh(User, 1), From(MM))
  const MM_ASKED := Fresh(Server, 0).(getfrom := Any, buf := Message(USER, Plain(0)))
  const TASK_ASKED := Fresh(Task, 0).(buf := Message(MM, Plain(0)))

  function TaskWaits(): Kernel {
    State(TASK_WAITS, Fresh(Server, 0), Fresh(Server, 0), Fresh(User, 1), [], [[], [MM, FS], [USER]], MM, 0)
  }

  function MmWaits(): Kernel {
    State(TASK_WAITS, MM_WAITS, Fresh(Server, 0), Fresh(User, 1), [], [[], [FS], [USER]], FS, 0)
  }

  function FsQueued(): Kernel {
    State(TASK_WAITS, MM_WAITS, FS_QUEUED, Fresh(User, 1), [FS], [[], [], [USER]], USER, USER)
  }

  function MmAsked(): Kernel {
    State(TASK_WAITS, MM_ASKED, FS_QUEUED, USER_WAITS, [FS], [[], [MM], []], MM, USER)
  }

  function TaskAsked(): Kernel {
    State(TASK_ASKED, Waiting(MM_ASKED, From(TASK)), FS_QUEUED, USER_WAITS, [FS], [[TASK], [], []], TASK, USER)
  }

  lemma FirstWait()
    ensures Leads(Table(), ANY_RECEIVE, TaskWaits())
  {
  }

  lemma SecondWait()
    ensures Leads(TaskWaits(), ANY_RECEIVE, MmWaits())
  {
  }

  lemma ThirdSends()
    ensures Leads(MmWaits(), FS_SENDS, FsQueued())
  {
    var k := MmWaits();
    assert Remove([FS], FS) == [];
    assert Unready(k, FS).rq == [[], [], [USER]];
    assert k.callers[USER] + [FS] == [FS];
    SameState(Step(k, FS_SENDS), FsQueued());
  }

  lemma FourthAsks()
    ensures Leads(FsQueued(), USER_ASKS, MmAsked())
  {
    var k := FsQueued();
    var k1 := Deliver(k, USER, MM, Plain(0));
    assert k.rq[SERVER_Q] + [MM] == [MM];
    SameState(k1, State(TASK_WAITS, MM_ASKED, FS_QUEUED, Fresh(User, 1), [FS], [[], [MM], [USER]], USER, USER));
    assert Wanted([FS], From(MM)).None?;
    assert Remove([USER], USER) == [];
    assert Unready(k1, USER).rq == [[], [MM], []];
    SameState(MiniRec(k1, USER, From(MM)), MmAsked());
  }

  lemma FifthAsks()
    ensures Leads(MmAsked(), MM_ASKS, TaskAsked())
  {
    var k := MmAsked();
    var k1 := Deliver(k, MM, TASK, Plain(0));
    assert k.rq[TASK_Q] + [TASK] == [TASK];
    SameState(k1, State(TASK_ASKED, MM_ASKED, FS_QUEUED, USER_WAITS, [FS], [[TASK], [MM], []], TASK, USER));
    assert Remove([MM], MM) == [];
    assert Unready(k1, MM).rq == [[TASK], [], []];
    SameState(MiniRec(k1, MM, From(TASK)), TaskAsked());
  }

  /** After five calls from boot the task may fork the user process, and FS waits to send to
      it: the fork leaves a caller queue in which FS waits for a process it does not send to. */
  lemma ForkHarms(pid: int)
    ensures Inv(Table()) && LegalRun(Table(), FORK_RUN)
    ensures var k := Run(Table(), FORK_RUN);
      k.cur == TASK && CanFork(k, USER, FREE) && !CleanFork(k, USER, FREE) && !Inv(DoFork(k, USER, FREE, pid))
  {
    TableBoots();
    BootInv(Table());
    FirstWait();
    SecondWait();
    ThirdSends();
    FourthAsks();
    FifthAsks();
    FivePath([Table(), TaskWaits(), MmWaits(), FsQueued(), MmAsked(), TaskAsked()]);
    AskedToFork(pid);
  }

  lemma FivePath(ks: seq<Kernel>)
    requires |ks| == 6 && Inv(ks[0])
    requires Leads(ks[0], ANY_RECEIVE, ks[1]) && Leads(ks[1], ANY_RECEIVE, ks[2]) && Leads(ks[2], FS_SENDS, ks[3])
    requires Leads(ks[3], USER_ASKS, ks[4]) && Leads(ks[4], MM_ASKS, ks[5])
    ensures LegalRun(ks[0], FORK_RUN) && Run(ks[0], FORK_RUN) == ks[5]
  {
    InARow((k, op, k') => Leads(k, op, k'), ks, FORK_RUN);
    Path(ks, FORK_RUN);
  }

  lemma AskedToFork(pid: int)
    requires Inv(TaskAsked())
    ensures var k := TaskAsked();
      k.cur == TASK && CanFork(k, USER, FREE) && !CleanFork(k, USER, FREE) && !Inv(DoFork(k, USER, FREE, pid))
  {
    ForkExact(TaskAsked(), USER, FREE, pid);
  }

  // ---- A signal ended before MM was told of it ----

  /** While MM is busy a signal waits for it; ended then, it leaves the count wrong. */
  lemma EndsigHarms(sig: nat)
    ensures Inv(Table()) && LegalRun(Table(), [Signal(USER, sig)])
    ensures var k := Run(Table(), [Signal(USER, sig)]);
      k.rq[TASK_Q] != [] && USER < |k.procs| && !Endable(k, USER) && !SlotsOk(DoEndsig(k, USER).0)
  {
    TableBoots();
    BootInv(Table());
    SignalWaits(sig);
    OneStep(Table(), Signal(USER, sig));
    EndsigExact(CauseSig(Table(), USER, sig), USER);
  }

  lemma OneStep(k: Kernel, op: Op)
    requires Inv(k) && Legal(k, op)
    ensures LegalRun(k, [op]) && Run(k, [op]) == Step(k, op) && Inv(Step(k, op))
  {
    StepKeeps(k, op);
    Path([k, Step(k, op)], [op]);
  }

  lemma SignalWaits(sig: nat)
    ensures var k := CauseSig(Table(), USER, sig);
      k.rq[TASK_Q] == [TASK] && |k.procs| == 7 && k.procs[USER].prio.User? && k.procs[USER].pendcount == 1
        && k.handed[USER] == 0
  {
  }

  // ---- A priority set below what has been used ----

  function Served(counter: int): Kernel {
    State(Fresh(Task, 0), Fresh(Server, 0), Fresh(Server, 0),
          Fresh(User, 1).(userPriority := 2, timeCounter := counter), [], [[TASK], [MM, FS], [USER]], TASK, 0)
  }

  const RAISE := SetPriority(1, 2)

  lemma Raised()
    ensures Leads(Table(), RAISE, Served(0))
  {
    assert FirstPid(Table().procs, 1, 5) == Some(USER);
  }

  lemma TwiceServed()
    ensures Leads(Served(0), Tick, Served(1)) && Leads(Served(1), Tick, Served(2))
  {
  }

  lemma ServedInTurn()
    ensures AllInTurn(Served(2)) && !Grantable(Served(2), 1, 1)
  {
    assert FirstPid(Served(2).procs, 1, 5) == Some(USER);
  }

  /** The user process is given three calls of the clock and uses two of them; lowering its
      priority to 1 then makes it overrun its turn. */
  lemma SetpriHarms()
    ensures Inv(Table()) && AllInTurn(Table()) && LegalRun(Table(), [RAISE, Tick, Tick])
    ensures var k := Run(Table(), [RAISE, Tick, Tick]);
      AllInTurn(k) && !Grantable(k, 1, 1) && !AllInTurn(DoSetpri(k, 1, 1))
  {
    TableBoots();
    BootInv(Table());
    Raised();
    TwiceServed();
    Path([Table(), Served(0), Served(1), Served(2)], [RAISE, Tick, Tick]);
    ServedInTurn();
    SetpriExact(Served(2), 1, 1);
  }
}
