// The stop phase of the event bus: sentinels, early items first, no deadlock.
module EventBusShutdown {
  import opened Wrappers
  import opened Totals
  import opened EventBus
  import opened EventBusSafety

  function IsSentinel(): Item -> nat {
    (x: Item) => if x.Sentinel? then 1 else 0
  }

  function Sentinels(): Weight {
    Weight(IsSentinel(), IsSentinel())
  }

  /** One item, as long as it travels on the user lane. */
  function UserOne(id: nat): Weight {
    Weight(IsItem(id), Nothing())
  }

  function IsGone(): Worker -> nat {
    (w: Worker) => if w.at == Exited then 1 else 0
  }

  predicate SentinelsMatch(s: State) {
    match s.phase
    case Up => Mass(s, Sentinels()) == 0
    case Stopping(toPut) => s.workers != [] && Mass(s, Sentinels()) + toPut == |s.workers|
    case Stopped => true
  }

  predicate GoneAreLogged(s: State) {
    Total(s.workers, IsGone()) == Total(s.log, Logged(Sentinels()))
  }

  /** The early items lead the user lane, and while one is queued no sentinel has been taken. */
  predicate EarlyLead(s: State) {
    && (s.phase == Up ==> s.early == 0 && s.before == {})
    && s.early <= |s.users.items|
    && (forall i :: 0 <= i < s.early ==> s.users.items[i].Work?)
    && (s.early > 0 ==> Total(s.log, Logged(Sentinels())) == 0 && Total(s.workers, Carried(Sentinels())) == 0)
  }

  ghost predicate EarlyKept(s: State) {
    && s.before <= s.accepted
    && (forall i :: s.early <= i < |s.users.items| && s.users.items[i].Work? ==> s.users.items[i].id !in s.before)
    && (forall id :: id in s.before ==> Mass(s, UserOne(id)) > 0)
  }

  predicate QueuedAccepted(s: State) {
    forall i :: 0 <= i < |s.users.items| && s.users.items[i].Work? ==> s.users.items[i].id in s.accepted
  }

  predicate UserLogRan(s: State) {
    forall i :: 0 <= i < |s.log| && s.log[i].lane == User ==> s.log[i].fate == Ran
  }

  ghost predicate StopInv(s: State) {
    && Inv(s)
    && (s.phase != Stopped ==>
          SentinelsMatch(s) && GoneAreLogged(s) && EarlyLead(s) && EarlyKept(s) && QueuedAccepted(s) && UserLogRan(s))
  }

  lemma StartStopInv(s: State)
    requires Start(s)
    ensures StopInv(s)
  {
    StartInv(s);
    TotalZero(s.workers, IsGone());
    TotalZero(s.workers, Carried(Sentinels()));
  }

  lemma PhaseChange(s: State, e: Step)
    requires Enabled(s, e) && e != Drain
    ensures |Do(s, e).workers| == |s.workers|
    ensures Do(s, e).phase ==
            if e == BeginStop then Stopping(|s.workers|)
            else if e == PutSentinel then Stopping(s.phase.toPut - 1)
            else s.phase
  {
  }

  lemma StepSentinels(s: State, e: Step)
    requires Enabled(s, e) && e != Drain && SentinelsMatch(s)
    ensures SentinelsMatch(Do(s, e))
  {
    PhaseChange(s, e);
    Conservation(s, e, Sentinels());
  }

  lemma TakeGone(s: State, w: nat, item: Item, lane: Lane)
    requires w < |s.workers| && s.workers[w].at != Exited && GoneAreLogged(s)
    ensures GoneAreLogged(Take(s, w, item, lane))
  {
    if item.Sentinel? {
      TotalUpdate(s.workers, w, Worker(s.workers[w].reserved, Exited), IsGone());
      TotalSnoc(s.log, Entry(item, lane, Ran), Logged(Sentinels()));
    } else {
      TotalUpdate(s.workers, w, Worker(s.workers[w].reserved, Running(item.id, lane)), IsGone());
    }
  }

  lemma MoveGone(s: State, w: nat, at: Place)
    requires w < |s.workers| && s.workers[w].at != Exited && at != Exited && GoneAreLogged(s)
    ensures GoneAreLogged(Move(s, w, at))
  {
    TotalUpdate(s.workers, w, Worker(s.workers[w].reserved, at), IsGone());
  }

  lemma SettleGone(s: State, item: Item, lane: Lane, fate: Fate)
    requires item.Work? && GoneAreLogged(s)
    ensures GoneAreLogged(Settle(s, item, lane, fate))
  {
    TotalSnoc(s.log, Entry(item, lane, fate), Logged(Sentinels()));
  }

  lemma PutBackGone(s: State, item: Item)
    requires item.Work? && GoneAreLogged(s)
    ensures GoneAreLogged(PutBack(s, item)) && PutBack(s, item).workers == s.workers
    ensures UserLogRan(s) ==> UserLogRan(PutBack(s, item))
  {
    var t := TaskDone(s, Bg);
    SettleGone(t.(counters := t.counters.(putBackFull := t.counters.putBackFull + 1)), item, Bg, PutBackFull);
  }

  lemma PutDropOldestGone(s: State, id: nat)
    requires Lanes(s) && GoneAreLogged(s)
    ensures GoneAreLogged(PutDropOldest(s, Work(id)))
    ensures UserLogRan(s) ==> UserLogRan(PutDropOldest(s, Work(id)))
  {
    if s.bgs.Full() {
      SettleGone(s.(bgs := s.bgs.Get().TaskDone()), s.bgs.items[0], Bg, Overflowed);
    }
  }

  lemma ResumeGone(s: State, w: nat)
    requires Enabled(s, Resume(w)) && Lanes(s) && GoneAreLogged(s) && UserLogRan(s)
    ensures GoneAreLogged(Do(s, Resume(w))) && UserLogRan(Do(s, Resume(w)))
  {
    var at := s.workers[w].at;
    assert InLane(s.workers[w]);
    if at.user.None? {
      TakeGone(s, w, at.bg.value, Bg);
    } else if at.bg.None? {
      TakeGone(s, w, at.user.value, User);
    } else {
      PutBackGone(s, at.bg.value);
      TakeGone(PutBack(s, at.bg.value), w, at.user.value, User);
    }
  }

  lemma FinishGone(s: State, w: nat)
    requires Enabled(s, Finish(w)) && GoneAreLogged(s) && UserLogRan(s)
    ensures GoneAreLogged(Do(s, Finish(w))) && UserLogRan(Do(s, Finish(w)))
  {
    var at := s.workers[w].at;
    MoveGone(TaskDone(s, at.lane), w, Top);
    SettleGone(Move(TaskDone(s, at.lane), w, Top), Work(at.id), at.lane, Ran);
  }

  lemma StepGone(s: State, e: Step)
    requires Enabled(s, e) && e != Drain && Lanes(s) && GoneAreLogged(s) && UserLogRan(s)
    ensures GoneAreLogged(Do(s, e)) && UserLogRan(Do(s, e))
  {
    match e
    case EmitBg(id) =>
      PutDropOldestGone(s.(accepted := s.accepted + {id}, counters := s.counters.(bg := s.counters.bg + 1)), id);
    case Pop(w) => TakeGone(GetUser(s), w, s.users.items[0], User);
    case Wait(w) => MoveGone(s, w, Waiting(None, None));
    case UserGot(w) => MoveGone(GetUser(s), w, Waiting(Some(s.users.items[0]), s.workers[w].at.bg));
    case BgGot(w) => MoveGone(s.(bgs := s.bgs.Get()), w, Waiting(s.workers[w].at.user, Some(s.bgs.items[0])));
    case Resume(w) => ResumeGone(s, w);
    case Finish(w) => FinishGone(s, w);
    case _ =>
  }

  /** No sentinel is with a worker or behind one: the two parts of a sentinel's way that early items must precede. */
  function Taken(s: State): nat {
    Total(s.workers, Carried(Sentinels())) + Total(s.log, Logged(Sentinels()))
  }

  lemma TakenAsMass(s: State)
    requires Lanes(s)
    ensures Taken(s) + Total(s.users.items, IsSentinel()) == Mass(s, Sentinels())
  {
    TotalZero(s.bgs.items, IsSentinel());
  }

  /** Unless a sentinel heads the user lane, a step takes none. */
  lemma StepTaken(s: State, e: Step)
    requires Enabled(s, e) && e != Drain && Lanes(s) && OnlyBgDropped(s)
    requires s.users.items != [] && s.users.items[0].Work?
    ensures Taken(Do(s, e)) == Taken(s)
  {
    StepLanes(s, e);
    TakenAsMass(s);
    TakenAsMass(Do(s, e));
    Conservation(s, e, Sentinels());
    UsersChange(s, e);
    match e
    case EmitUser(id) => TotalSnoc(s.users.items, Work(id), IsSentinel());
    case PutSentinel => TotalSnoc(s.users.items, Sentinel, IsSentinel());
    case _ =>
  }

  /** How a step changes the user lane and the early part of it. */
  lemma UsersChange(s: State, e: Step)
    requires Enabled(s, e) && e != Drain
    ensures Do(s, e).users.items ==
            match e
            case EmitUser(id) => s.users.items + [Work(id)]
            case PutSentinel => s.users.items + [Sentinel]
            case Pop(_) => s.users.items[1..]
            case UserGot(_) => s.users.items[1..]
            case _ => s.users.items
    ensures Do(s, e).early ==
            if e == BeginStop then |s.users.items|
            else if (e.Pop? || e.UserGot?) && s.early > 0 then s.early - 1 else s.early
    ensures Do(s, e).before == s.before + if e == BeginStop then Queued(s.users.items) else {}
    ensures Do(s, e).accepted == s.accepted + match e case EmitUser(id) => {id} case EmitBg(id) => {id} case _ => {}
    ensures Do(s, e).phase == Up <==> s.phase == Up && e != BeginStop
  {
  }

  lemma StepEarlyLead(s: State, e: Step)
    requires Enabled(s, e) && e != Drain && Lanes(s) && OnlyBgDropped(s) && SentinelsMatch(s) && EarlyLead(s)
    ensures EarlyLead(Do(s, e))
  {
    UsersChange(s, e);
    if e == BeginStop {
      BeginEarly(s);
    } else if s.early > 0 {
      StepTaken(s, e);
    }
  }

  lemma BeginEarly(s: State)
    requires Enabled(s, BeginStop) && Lanes(s) && SentinelsMatch(s)
    ensures forall i :: 0 <= i < |s.users.items| ==> s.users.items[i].Work?
    ensures Taken(s) == 0
  {
    TakenAsMass(s);
    forall i | 0 <= i < |s.users.items| ensures s.users.items[i].Work? {
      TotalAt(s.users.items, i, IsSentinel());
    }
  }

  lemma StepEarlyKept(s: State, e: Step)
    requires Enabled(s, e) && e != Drain && EarlyLead(s) && EarlyKept(s) && QueuedAccepted(s)
    ensures EarlyKept(Do(s, e)) && QueuedAccepted(Do(s, e))
  {
    UsersChange(s, e);
    forall id | id in Do(s, e).before ensures Mass(Do(s, e), UserOne(id)) > 0 {
      Conservation(s, e, UserOne(id));
      if e == BeginStop && id in Queued(s.users.items) {
        var i :| 0 <= i < |s.users.items| && s.users.items[i] == Work(id);
        TotalAt(s.users.items, i, IsItem(id));
      }
    }
  }

  lemma StepStopInv(s: State, e: Step)
    requires StopInv(s) && Enabled(s, e)
    ensures StopInv(Do(s, e))
  {
    StepInv(s, e);
    OnlyDrainStops(s, e);
    if e != Drain {
      StepSentinels(s, e);
      StepGone(s, e);
      StepEarlyLead(s, e);
      StepEarlyKept(s, e);
    }
  }

  lemma {:induction false} RunStopInv(s: State, es: seq<Step>, t: State)
    requires StopInv(s) && Runs(s, es, t)
    ensures StopInv(t)
    decreases |es|
  {
    if es != [] {
      StepStopInv(s, es[0]);
      RunStopInv(Do(s, es[0]), es[1..], t);
    }
  }

  // ---- early items first ---------------------------------------------------------------------

  lemma NothingCarried(s: State, wt: Weight)
    requires AllExited(s)
    ensures Total(s.workers, Carried(wt)) == 0
  {
    TotalZero(s.workers, Carried(wt));
  }

  lemma AllGone(s: State)
    requires StopInv(s) && Enabled(s, Drain)
    ensures s.early == 0
  {
    TotalOnes(s.workers, IsGone());
  }

  /** When shutdown gets to draining, every user item queued before it began has been run. */
  lemma EarlyItemsRan(s: State, es: seq<Step>, t: State, id: nat)
    requires Start(s) && Runs(s, es, t) && Enabled(t, Drain) && id in t.before
    ensures Entry(Work(id), User, Ran) in t.log
  {
    StartStopInv(s);
    RunStopInv(s, es, t);
    AllGone(t);
    NothingCarried(t, UserOne(id));
    TotalZero(t.users.items, IsItem(id));
    TotalZero(t.bgs.items, Nothing());
    var i := TotalWitness(t.log, Logged(UserOne(id)));
    assert t.log[i] == Entry(Work(id), User, Ran);
  }

  lemma EmptyAfterDrain(s: State)
    requires StopInv(s) && Enabled(s, Drain)
    ensures StopInv(Do(s, Drain)) && AllExited(Do(s, Drain))
    ensures Do(s, Drain).users.items == [] && Do(s, Drain).bgs.items == []
  {
    StepStopInv(s, Drain);
    DrainKeeps(s);
  }

  /** Once shutdown is over the done flag of every item ever queued is set, so no emitter is left waiting. */
  lemma DrainSettlesAll(s: State, es: seq<Step>, t: State)
    requires Start(s) && Runs(s, es, t) && Enabled(t, Drain)
    ensures Do(t, Drain).done >= t.accepted && Do(t, Drain).accepted == t.accepted
  {
    StartStopInv(s);
    RunStopInv(s, es, t);
    EmptyAfterDrain(t);
    DrainKeeps(t);
    var u := Do(t, Drain);
    forall id: nat | id in t.accepted ensures id in u.done {
      NothingCarried(u, One(id));
      assert Mass(u, One(id)) == 1;
    }
  }

  // ---- no deadlock, no livelock --------------------------------------------------------------

  predicate Emits(e: Step) {
    e.EmitUser? || e.EmitBg?
  }

  function Free(w: Worker): bool {
    w.at == Top || w.at == Waiting(None, None)
  }

  /** While the pool is stopping there is always a step it can take by itself. */
  lemma Progress(s: State, es: seq<Step>, t: State) returns (e: Step)
    requires Start(s) && Runs(s, es, t) && t.phase.Stopping?
    ensures Enabled(t, e) && !Emits(e)
  {
    StartStopInv(s);
    RunStopInv(s, es, t);
    e := StepWhileStopping(t);
  }

  lemma StepWhileStopping(s: State) returns (e: Step)
    requires StopInv(s) && s.phase.Stopping?
    ensures Enabled(s, e) && !Emits(e)
  {
    if s.phase.toPut > 0 && !s.users.Full() {
      e := PutSentinel;
    } else if w: nat :| w < |s.workers| && s.workers[w].at.Running? {
      e := Finish(w);
    } else if w: nat :| w < |s.workers| && s.workers[w].at.Waiting? && !Free(s.workers[w]) {
      e := Resume(w);
    } else if w: nat :| w < |s.workers| && Free(s.workers[w]) {
      if s.users.items == [] {
        SentinelsAreQueued(s, w);
      }
      e := if s.workers[w].at == Top then Pop(w) else UserGot(w);
    } else {
      assert forall i :: 0 <= i < |s.workers| ==> s.workers[i].at == Exited;
      TotalOnes(s.workers, IsGone());
      e := Drain;
    }
  }

  /** With every worker free or gone, one of them free, and all sentinels put, some sentinel is on the user lane. */
  lemma SentinelsAreQueued(s: State, w: nat)
    requires StopInv(s) && s.phase.Stopping? && (s.phase.toPut == 0 || s.users.Full())
    requires forall i :: 0 <= i < |s.workers| ==> Free(s.workers[i]) || s.workers[i].at == Exited
    requires w < |s.workers| && Free(s.workers[w])
    ensures s.users.items != []
  {
    TotalZero(s.workers, Carried(Sentinels()));
    TakenAsMass(s);
    SomeNotGone(s.workers, w);
  }

  lemma {:induction false} SomeNotGone(ws: seq<Worker>, w: nat)
    requires w < |ws| && ws[w].at != Exited
    ensures Total(ws, IsGone()) < |ws|
  {
    if w == 0 {
      GoneAtMost(ws[1..]);
    } else {
      SomeNotGone(ws[1..], w - 1);
    }
  }

  lemma {:induction false} GoneAtMost(ws: seq<Worker>)
    ensures Total(ws, IsGone()) <= |ws|
  {
    if ws != [] {
      GoneAtMost(ws[1..]);
    }
  }

  function Rank(): Worker -> nat {
    (w: Worker) =>
      match w.at
      case Top => 2
      case Waiting(user, bg) => 1 + (if user.Some? then 5 else 0) + (if bg.Some? then 5 else 0)
      case Running(_, _) => 3
      case Exited => 0
  }

  /** What is left to do: sentinels to put, items to take, workers to get to their end. */
  function Potential(s: State): nat {
    6 * |s.users.items| + 6 * |s.bgs.items| + Total(s.workers, Rank()) +
    match s.phase case Up => 0 case Stopping(toPut) => 8 * toPut + 1 case Stopped => 0
  }

  lemma MovePotential(s: State, w: nat, at: Place)
    requires w < |s.workers|
    ensures Potential(Move(s, w, at)) + Rank()(s.workers[w]) == Potential(s) + Rank()(Worker(s.workers[w].reserved, at))
  {
    TotalUpdate(s.workers, w, Worker(s.workers[w].reserved, at), Rank());
  }

  lemma TakePotential(s: State, w: nat, item: Item, lane: Lane)
    requires w < |s.workers|
    ensures Potential(Take(s, w, item, lane)) + Rank()(s.workers[w]) <= Potential(s) + 3
  {
    if item.Sentinel? {
      MovePotential(TaskDone(s, lane), w, Exited);
    } else {
      MovePotential(s, w, Running(item.id, lane));
    }
  }

  /** Every step but an emission leaves less to do. */
  lemma StepPotential(s: State, e: Step)
    requires StopInv(s) && Enabled(s, e) && !Emits(e) && s.phase.Stopping?
    ensures Potential(Do(s, e)) < Potential(s)
  {
    match e
    case Pop(w) => TakePotential(GetUser(s), w, s.users.items[0], User);
    case Wait(w) => MovePotential(s, w, Waiting(None, None));
    case UserGot(w) => MovePotential(GetUser(s), w, Waiting(Some(s.users.items[0]), s.workers[w].at.bg));
    case BgGot(w) => MovePotential(s.(bgs := s.bgs.Get()), w, Waiting(s.workers[w].at.user, Some(s.bgs.items[0])));
    case Resume(w) => ResumePotential(s, w);
    case Finish(w) => MovePotential(TaskDone(s, s.workers[w].at.lane), w, Top);
    case Drain => DrainKeeps(s);
    case _ =>
  }

  lemma ResumePotential(s: State, w: nat)
    requires Enabled(s, Resume(w))
    ensures Potential(Do(s, Resume(w))) < Potential(s)
  {
    var at := s.workers[w].at;
    if at.user.None? {
      TakePotential(s, w, at.bg.value, Bg);
    } else if at.bg.None? {
      TakePotential(s, w, at.user.value, User);
    } else {
      assert Potential(PutBack(s, at.bg.value)) <= Potential(s) + 6;
      TakePotential(PutBack(s, at.bg.value), w, at.user.value, User);
    }
  }

  lemma NothingAfterStop(s: State, es: seq<Step>, t: State)
    requires s.phase == Stopped && Runs(s, es, t)
    ensures es == [] && t == s
  {
  }

  /** Left to itself a stopping pool comes to its end: within Potential steps, and it cannot stop before. */
  lemma {:induction false} ShutdownEnds(t: State, es: seq<Step>, u: State)
    requires StopInv(t) && t.phase.Stopping? && Runs(t, es, u)
    requires forall i :: 0 <= i < |es| ==> !Emits(es[i])
    ensures |es| <= Potential(t)
    ensures u.phase == Stopped || exists e :: Enabled(u, e) && !Emits(e)
    decreases |es|
  {
    if es == [] {
      var e := StepWhileStopping(t);
    } else {
      StepStopInv(t, es[0]);
      StepPotential(t, es[0]);
      OnlyDrainStops(t, es[0]);
      if es[0] == Drain {
        DrainKeeps(t);
        NothingAfterStop(Do(t, es[0]), es[1..], u);
      } else {
        PhaseChange(t, es[0]);
        ShutdownEnds(Do(t, es[0]), es[1..], u);
      }
    }
  }
}
