// The resizable gate and the run accounting of backend/queue.py as a state machine.
module RlGate {
  import opened Totals

  // Asleep on the condition; woken and not yet checked again; inside the gate before, during and after the counted run.
  datatype Place = Outside | Asleep | Woken | Admitted | Running | Leaving | Gone

  datatype Task = Task(uid: string, rl: bool, at: Place)

  // waiters is the condition's queue: the indices of the sleeping tasks, oldest first.
  datatype State = State(limit: int, inflight: int, tasks: seq<Task>, waiters: seq<nat>, active: map<string, int>)

  datatype Step = Enter(t: nat) | Recheck(t: nat) | Begin(t: nat) | End(t: nat) | Exit(t: nat) | SetLimit(n: int)

  predicate Enabled(s: State, e: Step) {
    match e
    case Enter(t) => t < |s.tasks| && s.tasks[t].at == Outside
    case Recheck(t) => t < |s.tasks| && s.tasks[t].at == Woken
    case Begin(t) => t < |s.tasks| && s.tasks[t].at == Admitted
    case End(t) => t < |s.tasks| && s.tasks[t].at == Running
    case Exit(t) => t < |s.tasks| && s.tasks[t].at == Leaving &&
      forall i :: 0 <= i < |s.waiters| ==> s.waiters[i] < |s.tasks|
    case SetLimit(_) => true
  }

  function Move(tasks: seq<Task>, t: nat, at: Place): seq<Task>
    requires t < |tasks|
  {
    tasks[t := Task(tasks[t].uid, tasks[t].rl, at)]
  }

  /** The check under the lock: in when there is room, otherwise to sleep. */
  function Check(s: State, t: nat): State
    requires t < |s.tasks|
  {
    if s.inflight >= s.limit then s.(tasks := Move(s.tasks, t, Asleep), waiters := s.waiters + [t])
    else s.(tasks := Move(s.tasks, t, Admitted), inflight := s.inflight + 1)
  }

  function WakeAll(tasks: seq<Task>): seq<Task> {
    seq(|tasks|, i requires 0 <= i < |tasks| =>
      if tasks[i].at == Asleep then Task(tasks[i].uid, tasks[i].rl, Woken) else tasks[i])
  }

  function Lookup(active: map<string, int>, uid: string, default: int): int {
    if uid in active then active[uid] else default
  }

  function Do(s: State, e: Step): State
    requires Enabled(s, e)
  {
    match e
    case Enter(t) => if s.tasks[t].rl then Check(s, t) else s.(tasks := Move(s.tasks, t, Admitted))
    case Recheck(t) => Check(s, t)
    case Begin(t) =>
      var uid := s.tasks[t].uid;
      s.(tasks := Move(s.tasks, t, Running), active := s.active[uid := Lookup(s.active, uid, 0) + 1])
    case End(t) =>
      var uid := s.tasks[t].uid;
      var count := Lookup(s.active, uid, 1) - 1;
      s.(tasks := Move(s.tasks, t, Leaving), active := if count <= 0 then s.active - {uid} else s.active[uid := count])
    case Exit(t) =>
      var gone := s.(tasks := Move(s.tasks, t, Gone));
      if !s.tasks[t].rl then gone
      else
        var out := gone.(inflight := if s.inflight - 1 >= 0 then s.inflight - 1 else 0);
        if s.waiters == [] then out
        else out.(tasks := Move(out.tasks, s.waiters[0], Woken), waiters := s.waiters[1..])
    case SetLimit(n) => if n < 0 then s else s.(limit := n, tasks := WakeAll(s.tasks), waiters := [])
  }

  ghost predicate Runs(s: State, es: seq<Step>, t: State)
    decreases |es|
  {
    if es == [] then t == s else Enabled(s, es[0]) && Runs(Do(s, es[0]), es[1..], t)
  }

  predicate Start(s: State) {
    && s.limit >= 0 && s.inflight == 0 && s.waiters == [] && s.active == map[]
    && forall i :: 0 <= i < |s.tasks| ==> s.tasks[i].at == Outside
  }

  // ---- the invariant -------------------------------------------------------------------------

  function Holds(): Task -> nat {
    (t: Task) => if t.rl && (t.at == Admitted || t.at == Running || t.at == Leaving) then 1 else 0
  }

  function IsWoken(): Task -> nat {
    (t: Task) => if t.at == Woken then 1 else 0
  }

  function RunsFor(uid: string): Task -> nat {
    (t: Task) => if t.uid == uid && t.at == Running then 1 else 0
  }

  /** The queue of the condition lists every sleeping task exactly once. */
  predicate WaitersSleep(s: State) {
    && (forall i :: 0 <= i < |s.waiters| ==> s.waiters[i] < |s.tasks| && s.tasks[s.waiters[i]].at == Asleep)
    && (forall i, j :: 0 <= i < j < |s.waiters| ==> s.waiters[i] != s.waiters[j])
    && (forall t: nat :: t < |s.tasks| && s.tasks[t].at == Asleep ==> t in s.waiters)
    && (forall t: nat :: t < |s.tasks| && (s.tasks[t].at == Asleep || s.tasks[t].at == Woken) ==> s.tasks[t].rl)
  }

  /** No wake-up is lost: while a task sleeps, those inside and those woken but unchecked fill the gate. */
  predicate GateIsBusy(s: State) {
    s.waiters != [] ==> s.inflight + Total(s.tasks, IsWoken()) >= s.limit
  }

  ghost predicate ActiveCounts(s: State) {
    && (forall uid :: Lookup(s.active, uid, 0) == Total(s.tasks, RunsFor(uid)))
    && (forall uid :: uid in s.active ==> s.active[uid] > 0)
  }

  ghost predicate Inv(s: State) {
    s.limit >= 0 && s.inflight == Total(s.tasks, Holds()) && WaitersSleep(s) && GateIsBusy(s) && ActiveCounts(s)
  }

  lemma StartInv(s: State)
    requires Start(s)
    ensures Inv(s)
  {
    TotalZero(s.tasks, Holds());
    forall uid ensures Total(s.tasks, RunsFor(uid)) == 0 {
      TotalZero(s.tasks, RunsFor(uid));
    }
  }

  lemma MoveTotals(tasks: seq<Task>, t: nat, at: Place, f: Task -> nat)
    requires t < |tasks|
    ensures Total(Move(tasks, t, at), f) + f(tasks[t]) == Total(tasks, f) + f(Task(tasks[t].uid, tasks[t].rl, at))
  {
    TotalUpdate(tasks, t, Task(tasks[t].uid, tasks[t].rl, at), f);
  }

  lemma CheckWaiters(s: State, t: nat)
    requires WaitersSleep(s) && t < |s.tasks| && s.tasks[t].rl && s.tasks[t].at != Asleep
    ensures WaitersSleep(Check(s, t))
  {
    if s.inflight >= s.limit {
      assert t !in s.waiters;
    }
  }

  lemma CheckInv(s: State, t: nat)
    requires Inv(s) && t < |s.tasks| && s.tasks[t].rl && (s.tasks[t].at == Outside || s.tasks[t].at == Woken)
    ensures Inv(Check(s, t))
  {
    var at := if s.inflight >= s.limit then Asleep else Admitted;
    CheckWaiters(s, t);
    MoveTotals(s.tasks, t, at, Holds());
    MoveTotals(s.tasks, t, at, IsWoken());
    forall uid ensures Total(Move(s.tasks, t, at), RunsFor(uid)) == Total(s.tasks, RunsFor(uid)) {
      MoveTotals(s.tasks, t, at, RunsFor(uid));
    }
  }

  lemma BeginInv(s: State, t: nat)
    requires Inv(s) && Enabled(s, Begin(t))
    ensures Inv(Do(s, Begin(t)))
  {
    MoveTotals(s.tasks, t, Running, Holds());
    MoveTotals(s.tasks, t, Running, IsWoken());
    forall uid ensures Lookup(Do(s, Begin(t)).active, uid, 0) == Total(Move(s.tasks, t, Running), RunsFor(uid)) {
      MoveTotals(s.tasks, t, Running, RunsFor(uid));
    }
    assert Total(s.tasks, RunsFor(s.tasks[t].uid)) >= 0;
  }

  lemma EndInv(s: State, t: nat)
    requires Inv(s) && Enabled(s, End(t))
    ensures Inv(Do(s, End(t)))
  {
    MoveTotals(s.tasks, t, Leaving, Holds());
    MoveTotals(s.tasks, t, Leaving, IsWoken());
    TotalAt(s.tasks, t, RunsFor(s.tasks[t].uid));
    forall uid ensures Lookup(Do(s, End(t)).active, uid, 0) == Total(Move(s.tasks, t, Leaving), RunsFor(uid)) {
      MoveTotals(s.tasks, t, Leaving, RunsFor(uid));
    }
  }

  lemma ExitTotals(s: State, t: nat, f: Task -> nat)
    requires Inv(s) && Enabled(s, Exit(t))
    ensures Total(Do(s, Exit(t)).tasks, f) + f(s.tasks[t]) +
            (if s.tasks[t].rl && s.waiters != [] then f(s.tasks[s.waiters[0]]) else 0) ==
            Total(s.tasks, f) + f(Task(s.tasks[t].uid, s.tasks[t].rl, Gone)) +
            (if s.tasks[t].rl && s.waiters != []
             then f(Task(s.tasks[s.waiters[0]].uid, s.tasks[s.waiters[0]].rl, Woken)) else 0)
  {
    MoveTotals(s.tasks, t, Gone, f);
    if s.tasks[t].rl && s.waiters != [] {
      MoveTotals(Move(s.tasks, t, Gone), s.waiters[0], Woken, f);
    }
  }

  lemma ExitWaiters(s: State, t: nat)
    requires Inv(s) && Enabled(s, Exit(t))
    ensures WaitersSleep(Do(s, Exit(t)))
  {
    var gone := s.(tasks := Move(s.tasks, t, Gone));
    AwakeMoves(s, t, Gone);
    if s.tasks[t].rl && s.waiters != [] {
      OldestWakes(gone);
    }
  }

  /** A task that is not asleep moves on, and not to sleep. */
  lemma AwakeMoves(s: State, t: nat, at: Place)
    requires WaitersSleep(s) && t < |s.tasks| && s.tasks[t].at != Asleep && at != Asleep
    requires at == Woken ==> s.tasks[t].rl
    ensures WaitersSleep(s.(tasks := Move(s.tasks, t, at)))
  {
  }

  lemma OldestWakes(s: State)
    requires WaitersSleep(s) && s.waiters != []
    ensures WaitersSleep(s.(tasks := Move(s.tasks, s.waiters[0], Woken), waiters := s.waiters[1..]))
  {
    var rest := s.waiters[1..];
    assert forall i :: 0 <= i < |rest| ==> rest[i] == s.waiters[i + 1] && rest[i] != s.waiters[0];
    assert forall k :: k in s.waiters <==> k == s.waiters[0] || k in rest;
  }

  lemma ExitInv(s: State, t: nat)
    requires Inv(s) && Enabled(s, Exit(t))
    ensures Inv(Do(s, Exit(t)))
  {
    ExitWaiters(s, t);
    ExitTotals(s, t, Holds());
    ExitTotals(s, t, IsWoken());
    TotalAt(s.tasks, t, Holds());
    forall uid ensures Total(Do(s, Exit(t)).tasks, RunsFor(uid)) == Total(s.tasks, RunsFor(uid)) {
      ExitTotals(s, t, RunsFor(uid));
    }
    assert ActiveCounts(Do(s, Exit(t)));
    assert GateIsBusy(Do(s, Exit(t)));
  }

  lemma {:induction false} WakeAllTotals(tasks: seq<Task>, f: Task -> nat)
    requires forall t: Task :: t.at == Asleep ==> f(t) == f(Task(t.uid, t.rl, Woken))
    ensures Total(WakeAll(tasks), f) == Total(tasks, f)
  {
    if tasks != [] {
      WakeAllTotals(tasks[1..], f);
      assert WakeAll(tasks)[1..] == WakeAll(tasks[1..]);
    }
  }

  lemma SetLimitInv(s: State, n: int)
    requires Inv(s)
    ensures Inv(Do(s, SetLimit(n)))
  {
    WakeAllTotals(s.tasks, Holds());
    forall uid ensures Total(WakeAll(s.tasks), RunsFor(uid)) == Total(s.tasks, RunsFor(uid)) {
      WakeAllTotals(s.tasks, RunsFor(uid));
    }
  }

  lemma EnterFreelyInv(s: State, t: nat)
    requires Inv(s) && Enabled(s, Enter(t)) && !s.tasks[t].rl
    ensures Inv(Do(s, Enter(t)))
  {
    MoveTotals(s.tasks, t, Admitted, Holds());
    MoveTotals(s.tasks, t, Admitted, IsWoken());
    forall uid ensures Total(Move(s.tasks, t, Admitted), RunsFor(uid)) == Total(s.tasks, RunsFor(uid)) {
      MoveTotals(s.tasks, t, Admitted, RunsFor(uid));
    }
  }

  lemma StepInv(s: State, e: Step)
    requires Inv(s) && Enabled(s, e)
    ensures Inv(Do(s, e))
  {
    match e
    case Enter(t) =>
      if s.tasks[t].rl {
        CheckInv(s, t);
      } else {
        EnterFreelyInv(s, t);
      }
    case Recheck(t) => CheckInv(s, t);
    case Begin(t) => BeginInv(s, t);
    case End(t) => EndInv(s, t);
    case Exit(t) => ExitInv(s, t);
    case SetLimit(n) => SetLimitInv(s, n);
  }

  lemma {:induction false} RunInv(s: State, es: seq<Step>, t: State)
    requires Inv(s) && Runs(s, es, t)
    ensures Inv(t)
    decreases |es|
  {
    if es != [] {
      StepInv(s, es[0]);
      RunInv(Do(s, es[0]), es[1..], t);
    }
  }

  // ---- what every run keeps ------------------------------------------------------------------

  /** The count is that of the tasks inside, so the clamp on the way out never fires. */
  lemma ClampNeverFires(s: State, es: seq<Step>, t: State, k: nat)
    requires Start(s) && Runs(s, es, t)
    ensures t.inflight == Total(t.tasks, Holds())
    ensures Enabled(t, Exit(k)) && t.tasks[k].rl ==> Do(t, Exit(k)).inflight == t.inflight - 1 >= 0
  {
    StartInv(s);
    RunInv(s, es, t);
    if Enabled(t, Exit(k)) {
      TotalAt(t.tasks, k, Holds());
    }
  }

  /** The largest limit in force during a run. */
  function Peak(limit: int, es: seq<Step>): int
    decreases |es|
  {
    if es == [] then limit
    else
      var now := if es[0].SetLimit? && es[0].n >= 0 then es[0].n else limit;
      var rest := Peak(now, es[1..]);
      if rest >= limit then rest else limit
  }

  /** A step that lets a gated task in leaves those inside within the limit in force, however it was raised or
      lowered. */
  lemma AdmitsWithinLimit(s: State, es: seq<Step>, t: State, e: Step)
    requires Start(s) && Runs(s, es, t) && Enabled(t, e) && Total(Do(t, e).tasks, Holds()) > Total(t.tasks, Holds())
    ensures Total(Do(t, e).tasks, Holds()) <= Do(t, e).limit == t.limit
  {
    StartInv(s);
    RunInv(s, es, t);
    StepInv(t, e);
  }

  lemma {:induction false} PeakBounds(s: State, es: seq<Step>, t: State, peak: int)
    requires Inv(s) && Runs(s, es, t) && s.inflight <= peak && Peak(s.limit, es) <= peak
    ensures t.inflight <= peak
    decreases |es|
  {
    if es != [] {
      StepInv(s, es[0]);
      assert Do(s, es[0]).limit == if es[0].SetLimit? && es[0].n >= 0 then es[0].n else s.limit;
      assert Do(s, es[0]).inflight <= peak;
      PeakBounds(Do(s, es[0]), es[1..], t, peak);
    }
  }

  /** No more gated tasks are ever inside than the largest limit so far. */
  lemma NeverAbovePeak(s: State, es: seq<Step>, t: State)
    requires Start(s) && Runs(s, es, t)
    ensures Total(t.tasks, Holds()) <= Peak(s.limit, es)
  {
    StartInv(s);
    RunInv(s, es, t);
    PeakAtLeast(s.limit, es);
    PeakBounds(s, es, t, Peak(s.limit, es));
  }

  lemma PeakAtLeast(limit: int, es: seq<Step>)
    ensures Peak(limit, es) >= limit
  {
  }

  /** A uid has an entry exactly while it has runs, and the entry is their number. */
  lemma ActiveIsExact(s: State, es: seq<Step>, t: State, uid: string)
    requires Start(s) && Runs(s, es, t)
    ensures uid in t.active <==> Total(t.tasks, RunsFor(uid)) > 0
    ensures uid in t.active ==> t.active[uid] == Total(t.tasks, RunsFor(uid))
  {
    StartInv(s);
    RunInv(s, es, t);
    assert Lookup(t.active, uid, 0) == Total(t.tasks, RunsFor(uid));
  }

  /** No wake-up is lost: in every reachable state with a sleeper, those inside and those woken but unchecked fill the
      gate. */
  lemma NoLostWakeUp(s: State, es: seq<Step>, t: State, k: nat)
    requires Start(s) && Runs(s, es, t) && k < |t.tasks| && t.tasks[k].at == Asleep
    ensures Total(t.tasks, Holds()) + Total(t.tasks, IsWoken()) >= t.limit
  {
    StartInv(s);
    RunInv(s, es, t);
    assert k in t.waiters;
  }

  /** When nobody is woken, a task sleeps only because the gate is full. */
  lemma SleepsOnlyWhenFull(s: State, es: seq<Step>, t: State, k: nat)
    requires Start(s) && Runs(s, es, t) && k < |t.tasks| && t.tasks[k].at == Asleep
    requires forall i :: 0 <= i < |t.tasks| ==> t.tasks[i].at != Woken
    ensures Total(t.tasks, Holds()) >= t.limit
  {
    NoLostWakeUp(s, es, t, k);
    TotalZero(t.tasks, IsWoken());
  }

  // ---- order and limit -----------------------------------------------------------------------

  /** Sleepers are woken in the order in which they went to sleep: who is woken leaves no earlier sleeper asleep. */
  lemma OldestFirst(s: State, es: seq<Step>, t: State, e: Step, i: nat, j: nat)
    requires Start(s) && Runs(s, es, t) && Enabled(t, e) && i < j < |t.waiters|
    ensures t.waiters[i] < |t.tasks| && t.waiters[j] < |t.tasks|
    ensures t.tasks[t.waiters[i]].at == Asleep && t.tasks[t.waiters[j]].at == Asleep
    ensures Do(t, e).tasks[t.waiters[j]].at != Asleep ==>
              Do(t, e).tasks[t.waiters[i]].at == Do(t, e).tasks[t.waiters[j]].at == Woken
  {
    StartInv(s);
    RunInv(s, es, t);
    OldestFirstStep(t, e, i, j);
  }

  lemma OldestFirstStep(s: State, e: Step, i: nat, j: nat)
    requires WaitersSleep(s) && Enabled(s, e) && i < j < |s.waiters|
    ensures Do(s, e).tasks[s.waiters[j]].at != Asleep ==>
              Do(s, e).tasks[s.waiters[i]].at == Do(s, e).tasks[s.waiters[j]].at == Woken
  {
  }

  /** A task goes to sleep at the end of the queue. */
  lemma SleepsLast(s: State, es: seq<Step>, t: State, e: Step, k: nat)
    requires Start(s) && Runs(s, es, t) && Enabled(t, e) && k < |t.tasks|
    requires t.tasks[k].at != Asleep && Do(t, e).tasks[k].at == Asleep
    ensures Do(t, e).waiters == t.waiters + [k]
  {
    StartInv(s);
    RunInv(s, es, t);
    SleepsLastStep(t, e, k);
  }

  lemma SleepsLastStep(s: State, e: Step, k: nat)
    requires WaitersSleep(s) && Enabled(s, e) && k < |s.tasks|
    requires s.tasks[k].at != Asleep && Do(s, e).tasks[k].at == Asleep
    ensures Do(s, e).waiters == s.waiters + [k]
  {
    match e
    case Enter(t) => assert k == t;
    case Recheck(t) => assert k == t;
    case Exit(t) => AwakeMoves(s, t, Gone);
    case _ =>
  }

  /** The limit last set, by a call that did not raise. */
  function LimitAfter(limit: int, es: seq<Step>): int {
    if es == [] then limit
    else if es[|es| - 1].SetLimit? && es[|es| - 1].n >= 0 then es[|es| - 1].n
    else LimitAfter(limit, es[..|es| - 1])
  }

  lemma {:induction false} LimitFromFirst(limit: int, e: Step, es: seq<Step>)
    ensures LimitAfter(limit, [e] + es) == LimitAfter(if e.SetLimit? && e.n >= 0 then e.n else limit, es)
  {
    if es == [] {
      assert [e] + es == [e] && [e][..0] == [];
    } else {
      var front := es[..|es| - 1];
      LimitFromFirst(limit, e, front);
      assert ([e] + es)[..|es|] == [e] + front;
    }
  }

  /** The limit in force is always the one last set; a negative one is refused and changes nothing. */
  lemma {:induction false} LimitIsLastSet(s: State, es: seq<Step>, t: State)
    requires Runs(s, es, t)
    ensures t.limit == LimitAfter(s.limit, es)
    decreases |es|
  {
    if es != [] {
      LimitIsLastSet(Do(s, es[0]), es[1..], t);
      LimitFromFirst(s.limit, es[0], es[1..]);
      assert es == [es[0]] + es[1..];
    }
  }

  /** A refused limit changes nothing, and a task outside the gate's concern goes straight in, uncounted. */
  lemma PassedThrough(s: State, n: int, k: nat)
    ensures n < 0 ==> Do(s, SetLimit(n)) == s
    ensures Enabled(s, Enter(k)) && !s.tasks[k].rl ==>
              Do(s, Enter(k)) == s.(tasks := s.tasks[k := Task(s.tasks[k].uid, false, Admitted)])
  {
  }

  // ---- everyone gets through -----------------------------------------------------------------

  function Rank(): Task -> nat {
    (t: Task) =>
      match t.at
      case Outside => 7
      case Woken => 6
      case Asleep => 5
      case Admitted => 5
      case Running => 4
      case Leaving => 3
      case Gone => 0
  }

  lemma StepRank(s: State, e: Step)
    requires Inv(s) && Enabled(s, e) && !e.SetLimit?
    ensures Total(Do(s, e).tasks, Rank()) < Total(s.tasks, Rank())
  {
    var at := match e
      case Enter(_) => if s.tasks[e.t].rl && s.inflight >= s.limit then Asleep else Admitted
      case Recheck(_) => if s.inflight >= s.limit then Asleep else Admitted
      case Begin(_) => Running
      case End(_) => Leaving
      case Exit(_) => Gone;
    MoveTotals(s.tasks, e.t, at, Rank());
    if e.Exit? && s.tasks[e.t].rl && s.waiters != [] {
      MoveTotals(Move(s.tasks, e.t, Gone), s.waiters[0], Woken, Rank());
    }
  }

  /** With a positive limit there is a step to take, other than changing the limit, until every task is gone. */
  lemma StepWhileOpen(s: State) returns (e: Step)
    requires Inv(s) && s.limit > 0 && exists i :: 0 <= i < |s.tasks| && s.tasks[i].at != Gone
    ensures Enabled(s, e) && !e.SetLimit?
  {
    var i: nat :| i < |s.tasks| && s.tasks[i].at != Gone;
    var j := i;
    if s.tasks[i].at == Asleep {
      if Total(s.tasks, IsWoken()) > 0 {
        j := TotalWitness(s.tasks, IsWoken());
      } else {
        j := TotalWitness(s.tasks, Holds());
      }
    }
    var at := s.tasks[j].at;
    e := if at == Outside then Enter(j)
         else if at == Woken then Recheck(j)
         else if at == Admitted then Begin(j)
         else if at == Running then End(j)
         else Exit(j);
  }

  /** Under a positive limit left alone, a run cannot go on forever and cannot stop before every task has been
      through. */
  lemma {:induction false} EveryoneGetsThrough(s: State, es: seq<Step>, t: State)
    requires Inv(s) && s.limit > 0 && Runs(s, es, t)
    requires forall i :: 0 <= i < |es| ==> !es[i].SetLimit?
    ensures |es| <= Total(s.tasks, Rank())
    ensures (forall i :: 0 <= i < |t.tasks| ==> t.tasks[i].at == Gone) || exists e :: Enabled(t, e) && !e.SetLimit?
    decreases |es|
  {
    if es == [] {
      if exists i :: 0 <= i < |s.tasks| && s.tasks[i].at != Gone {
        var e := StepWhileOpen(s);
      }
    } else {
      StepInv(s, es[0]);
      StepRank(s, es[0]);
      EveryoneGetsThrough(Do(s, es[0]), es[1..], t);
    }
  }
}
