/** How long user processes wait for their turn, and how long it lasts, when none of them
    joins or leaves the queue. */
module RoundRobin {
  import opened KernelSpec
  import opened Queues

  predicate InTable(k: Kernel, q: seq<nat>) {
    forall i | 0 <= i < |q| :: q[i] < |k.procs|
  }

  ghost predicate UserQueueOk(k: Kernel) {
    |k.rq| == 3 && Distinct(k.rq[USER_Q]) && InTable(k, k.rq[USER_Q])
  }

  /** Nobody has used more of his turn than he has. */
  predicate Patient(k: Kernel, q: seq<nat>)
    requires InTable(k, q)
  {
    forall i | 0 <= i < |q| :: 0 <= k.procs[q[i]].timeCounter <= k.procs[q[i]].userPriority
  }

  /** What is left of the turn of a process, in calls of the scheduler. */
  function Turn(proc: Proc): int {
    proc.userPriority - proc.timeCounter + 1
  }

  function Turns(k: Kernel, q: seq<nat>): int
    requires InTable(k, q)
  {
    if q == [] then 0
    else
      assert forall i | 0 <= i < |q[1..]| :: q[1..][i] == q[i + 1];
      Turn(k.procs[q[0]]) + Turns(k, q[1..])
  }

  lemma SchedOk(k: Kernel)
    requires UserQueueOk(k)
    ensures UserQueueOk(Sched(k)) && |Sched(k).procs| == |k.procs|
  {
  }

  /** The clock ticks `m` times. */
  ghost function Ticks(k: Kernel, m: nat): (k': Kernel)
    requires UserQueueOk(k)
    ensures UserQueueOk(k')
    decreases m
  {
    if m == 0 then k else SchedOk(k); Ticks(Sched(k), m - 1)
  }

  lemma {:induction false} TicksAdd(k: Kernel, m: nat, n: nat)
    requires UserQueueOk(k)
    ensures Ticks(k, m + n) == Ticks(Ticks(k, m), n)
    decreases m
  {
    if 0 < m {
      SchedOk(k);
      TicksAdd(Sched(k), m - 1, n);
    }
  }

  function WithCounter(k: Kernel, p: nat, counter: int): Kernel
    requires p < |k.procs|
  {
    SetProc(k, p, k.procs[p].(timeCounter := counter))
  }

  lemma CounterAgain(k: Kernel, p: nat, counter: int, counter': int)
    requires p < |k.procs|
    ensures WithCounter(WithCounter(k, p, counter), p, counter') == WithCounter(k, p, counter')
    ensures WithCounter(k, p, k.procs[p].timeCounter) == k
  {
    var proc' := k.procs[p].(timeCounter := counter');
    assert k.procs[p := k.procs[p].(timeCounter := counter)][p := proc'] == k.procs[p := proc'];
    assert k.procs[p := k.procs[p]] == k.procs;
  }

  /** Up to its last call the turn only counts. */
  lemma {:induction false} TurnGoesOn(k: Kernel, m: nat)
    requires UserQueueOk(k) && k.rq[USER_Q] != []
    requires m <= k.procs[k.rq[USER_Q][0]].userPriority - k.procs[k.rq[USER_Q][0]].timeCounter
    ensures Ticks(k, m) == WithCounter(k, k.rq[USER_Q][0], k.procs[k.rq[USER_Q][0]].timeCounter + m)
    decreases m
  {
    var p := k.rq[USER_Q][0];
    var counter := k.procs[p].timeCounter;
    CounterAgain(k, p, counter + 1, counter + m);
    if 0 < m {
      SchedOk(k);
      TurnGoesOn(Sched(k), m - 1);
    }
  }

  /** The turn of the first process is over: it goes to the end with its counter reset. */
  function Turned(k: Kernel): Kernel
    requires |k.rq| == 3 && k.rq[USER_Q] != [] && k.rq[USER_Q][0] < |k.procs|
  {
    var q := k.rq[USER_Q];
    PickProc(WithCounter(k, q[0], 0).(rq := k.rq[USER_Q := q[1..] + [q[0]]]))
  }

  lemma LastCall(k: Kernel)
    requires UserQueueOk(k) && k.rq[USER_Q] != []
    requires k.procs[k.rq[USER_Q][0]].timeCounter == k.procs[k.rq[USER_Q][0]].userPriority
    ensures Ticks(k, 1) == Turned(k)
  {
    SchedOk(k);
    assert Ticks(k, 1) == Ticks(Sched(k), 0) == Sched(k);
  }

  lemma CountingForgotten(k: Kernel, counter: int)
    requires UserQueueOk(k) && k.rq[USER_Q] != []
    ensures Turned(WithCounter(k, k.rq[USER_Q][0], counter)) == Turned(k)
  {
    CounterAgain(k, k.rq[USER_Q][0], counter, 0);
  }

  lemma CountedOut(k: Kernel)
    requires UserQueueOk(k) && k.rq[USER_Q] != []
    ensures var k1 := WithCounter(k, k.rq[USER_Q][0], k.procs[k.rq[USER_Q][0]].userPriority);
      UserQueueOk(k1) && Ticks(k1, 1) == Turned(k)
  {
    var priority := k.procs[k.rq[USER_Q][0]].userPriority;
    CountingForgotten(k, priority);
    LastCall(WithCounter(k, k.rq[USER_Q][0], priority));
  }

  lemma TurnEnds(k: Kernel)
    requires UserQueueOk(k) && k.rq[USER_Q] != [] && 0 < Turn(k.procs[k.rq[USER_Q][0]])
    ensures Ticks(k, Turn(k.procs[k.rq[USER_Q][0]])) == Turned(k)
  {
    var m := Turn(k.procs[k.rq[USER_Q][0]]) - 1;
    TurnGoesOn(k, m);
    CountedOut(k);
    TicksAdd(k, m, 1);
  }

  lemma {:induction false} TurnsSplit(k: Kernel, q: seq<nat>, i: nat)
    requires InTable(k, q) && i < |q|
    ensures InTable(k, q[..i]) && InTable(k, q[..i + 1])
    ensures Turns(k, q[..i + 1]) == Turns(k, q[..i]) + Turn(k.procs[q[i]])
  {
    if 0 < i {
      assert forall j | 0 <= j < |q[1..]| :: q[1..][j] == q[j + 1];
      TurnsSplit(k, q[1..], i - 1);
      assert q[..i + 1][1..] == q[1..][..i] && q[..i][1..] == q[1..][..i - 1];
    }
  }

  /** The state when the first `i` processes have had their turns. */
  ghost predicate TurnsDone(k: Kernel, i: nat, k': Kernel)
    requires UserQueueOk(k) && i <= |k.rq[USER_Q]| && |k'.procs| == |k.procs| && |k'.rq| == 3
  {
    var q := k.rq[USER_Q];
    && k'.rq[USER_Q] == q[i..] + q[..i]
    && (forall j | 0 <= j < i :: k'.procs[q[j]] == k.procs[q[j]].(timeCounter := 0))
    && (forall j | i <= j < |q| :: k'.procs[q[j]] == k.procs[q[j]])
  }

  lemma AnotherTurn(k: Kernel, i: nat, k': Kernel)
    requires UserQueueOk(k) && i < |k.rq[USER_Q]| && |k'.procs| == |k.procs| && UserQueueOk(k') && TurnsDone(k, i, k')
    ensures k'.rq[USER_Q] != [] && k'.rq[USER_Q][0] == k.rq[USER_Q][i] && TurnsDone(k, i + 1, Turned(k'))
  {
    var q := k.rq[USER_Q];
    assert (q[i..] + q[..i])[1..] + [q[i]] == q[i + 1..] + q[..i + 1];
  }

  lemma {:induction false} TurnsNatural(k: Kernel, q: seq<nat>)
    requires InTable(k, q) && Patient(k, q)
    ensures |q| <= Turns(k, q)
  {
    if q != [] {
      assert forall i | 0 <= i < |q[1..]| :: q[1..][i] == q[i + 1];
      TurnsNatural(k, q[1..]);
    }
  }

  ghost function CallsBefore(k: Kernel, i: nat): nat
    requires UserQueueOk(k) && i <= |k.rq[USER_Q]| && Patient(k, k.rq[USER_Q])
  {
    TurnsNatural(k, k.rq[USER_Q][..i]);
    Turns(k, k.rq[USER_Q][..i])
  }

  /** As long as nobody has overrun his turn, the processes in front of position `i` are done
      after the sum of their turns, each with its counter reset. */
  lemma {:induction false} Round(k: Kernel, i: nat)
    requires UserQueueOk(k) && i <= |k.rq[USER_Q]| && Patient(k, k.rq[USER_Q])
    ensures |Ticks(k, CallsBefore(k, i)).procs| == |k.procs|
    ensures TurnsDone(k, i, Ticks(k, CallsBefore(k, i)))
  {
    var q := k.rq[USER_Q];
    if i == 0 {
      assert q[..0] == [] && q[0..] + [] == q;
    } else {
      Round(k, i - 1);
      TurnsSplit(k, q, i - 1);
      var k1 := Ticks(k, CallsBefore(k, i - 1));
      AnotherTurn(k, i - 1, k1);
      TurnEnds(k1);
      TicksAdd(k, CallsBefore(k, i - 1), Turn(k.procs[q[i - 1]]));
    }
  }

  lemma StaysFirst(k: Kernel, m: nat)
    requires UserQueueOk(k) && k.rq[USER_Q] != [] && m < Turn(k.procs[k.rq[USER_Q][0]])
    ensures Ticks(k, m).rq == k.rq
  {
    TurnGoesOn(k, m);
  }

  /** The process at position `i` comes to the head after exactly the turns of those in front
      of it, and it stays there for exactly the calls it has left: its priority minus its
      counter, plus one. */
  lemma TurnComes(k: Kernel, i: nat, m: nat)
    requires UserQueueOk(k) && i < |k.rq[USER_Q]| && Patient(k, k.rq[USER_Q])
    requires m < Turn(k.procs[k.rq[USER_Q][i]])
    ensures Ticks(k, CallsBefore(k, i) + m).rq[USER_Q] == k.rq[USER_Q][i..] + k.rq[USER_Q][..i]
  {
    Round(k, i);
    TicksAdd(k, CallsBefore(k, i), m);
    OnTurn(k, i, Ticks(k, CallsBefore(k, i)), m);
  }

  /** The next process is on after that. */
  lemma NextTurn(k: Kernel, i: nat)
    requires UserQueueOk(k) && i < |k.rq[USER_Q]| && Patient(k, k.rq[USER_Q])
    ensures CallsBefore(k, i + 1) == CallsBefore(k, i) + Turn(k.procs[k.rq[USER_Q][i]])
  {
    TurnsSplit(k, k.rq[USER_Q], i);
  }

  lemma OnTurn(k: Kernel, i: nat, k1: Kernel, m: nat)
    requires UserQueueOk(k) && i < |k.rq[USER_Q]| && UserQueueOk(k1) && |k1.procs| == |k.procs| && TurnsDone(k, i, k1)
    requires m < Turn(k.procs[k.rq[USER_Q][i]])
    ensures Ticks(k1, m).rq[USER_Q] == k.rq[USER_Q][i..] + k.rq[USER_Q][..i]
  {
    StaysFirst(k1, m);
  }

  /** A whole round brings every process back to its place, with all counters at zero. */
  lemma RoundComplete(k: Kernel)
    requires UserQueueOk(k) && Patient(k, k.rq[USER_Q])
    ensures var q := k.rq[USER_Q];
      var k' := Ticks(k, CallsBefore(k, |q|));
      && k'.rq[USER_Q] == q && |k'.procs| == |k.procs|
      && forall i | 0 <= i < |q| :: k'.procs[q[i]] == k.procs[q[i]].(timeCounter := 0)
  {
    var q := k.rq[USER_Q];
    Round(k, |q|);
    assert q[|q|..] + q[..|q|] == q;
  }

  // ---- Starvation ----

  /** A counter above the priority never meets it: the first process keeps its place for good. */
  lemma {:induction false} TurnNeverEnds(k: Kernel, m: nat)
    requires UserQueueOk(k) && k.rq[USER_Q] != []
    requires k.procs[k.rq[USER_Q][0]].userPriority < k.procs[k.rq[USER_Q][0]].timeCounter
    ensures Ticks(k, m).rq == k.rq
    decreases m
  {
    if 0 < m {
      SchedOk(k);
      TurnNeverEnds(Sched(k), m - 1);
    }
  }

  /** The second in line gets its turn some time exactly if the first has not overrun its own. */
  lemma SecondComesExact(k: Kernel)
    requires UserQueueOk(k) && 2 <= |k.rq[USER_Q]|
    ensures (exists m: nat :: Ticks(k, m).rq != k.rq)
        <==> k.procs[k.rq[USER_Q][0]].timeCounter <= k.procs[k.rq[USER_Q][0]].userPriority
  {
    var q := k.rq[USER_Q];
    if k.procs[q[0]].timeCounter <= k.procs[q[0]].userPriority {
      TurnEnds(k);
      var m: nat := Turn(k.procs[q[0]]);
      assert (q[1..] + [q[0]])[0] != q[0];
      assert Ticks(k, m).rq != k.rq;
    } else {
      forall m: nat
        ensures Ticks(k, m).rq == k.rq
      {
        TurnNeverEnds(k, m);
      }
    }
  }

  /** A user process has used no more of its turn than it has; other slots have no turns. */
  predicate InTurn(proc: Proc) {
    proc.prio.User? ==> 0 <= proc.timeCounter <= proc.userPriority
  }

  /** No user process has overrun its turn, whether it is ready, blocked or stopped. */
  predicate AllInTurn(k: Kernel) {
    forall p | 0 <= p < |k.procs| :: InTurn(k.procs[p])
  }

  /** What can be checked before a priority is set: the process it is for has not used more of
      its turn than it is given. */
  predicate Grantable(k: Kernel, pid: int, priority: int) {
    var found := FirstPid(k.procs, pid, k.cfg.LowUser());
    found.Some? && found.value < |k.procs| && k.procs[found.value].prio.User?
    ==> k.procs[found.value].timeCounter <= Granted(priority)
  }

  /** Setting a priority leaves nobody overrun exactly under that condition. */
  lemma SetpriExact(k: Kernel, pid: int, priority: int)
    requires AllInTurn(k)
    ensures AllInTurn(DoSetpri(k, pid, priority)) <==> Grantable(k, pid, priority)
  {
    var k', found := DoSetpri(k, pid, priority), FirstPid(k.procs, pid, k.cfg.LowUser());
    if found.Some? && found.value < |k.procs| {
      assert InTurn(k.procs[found.value]);
      assert k'.procs[found.value] == k.procs[found.value].(userPriority := Granted(priority));
      forall p | 0 <= p < |k'.procs| && p != found.value
        ensures InTurn(k'.procs[p])
      {
        assert InTurn(k.procs[p]);
      }
    }
  }
}
