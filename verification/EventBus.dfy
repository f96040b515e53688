// The two-lane event bus of backend/events.py as a state machine: emitters, workers, shutdown.
module EventBus {
  import opened Wrappers
  import opened Totals

  // A queued item, known by its done flag, or the None that tells a worker to exit.
  datatype Item = Sentinel | Work(id: nat)

  datatype Lane = User | Bg

  // An asyncio.Queue: its items, its bound (none when not positive) and its count of gets not yet marked done.
  datatype Queue = Queue(items: seq<Item>, max: int, open: int) {
    predicate Full() {
      max > 0 && |items| >= max
    }

    function Put(x: Item): Queue {
      Queue(items + [x], max, open + 1)
    }

    function Get(): Queue
      requires items != []
    {
      Queue(items[1..], max, open)
    }

    function TaskDone(): Queue {
      Queue(items, max, open - 1)
    }
  }

  // Where a worker is: at the top of its loop, waiting on both lanes with what its two gets have, running, or gone.
  datatype Place = Top | Waiting(user: Option<Item>, bg: Option<Item>) | Running(id: nat, lane: Lane) | Exited

  datatype Worker = Worker(reserved: bool, at: Place)

  datatype Fate = Ran | Overflowed | PutBackFull | LeftOver

  datatype Entry = Entry(item: Item, lane: Lane, fate: Fate)

  datatype Phase = Up | Stopping(toPut: nat) | Stopped

  datatype Counters = Counters(user: nat, bg: nat, overflow: nat, overflowHard: nat, putBackFull: nat)

  // log, accepted, before and early are history: what became of the items, which were ever queued,
  // and of the user items queued before the stop, which and how many of them are still queued.
  datatype State = State(users: Queue, bgs: Queue, workers: seq<Worker>, counters: Counters,
                         done: set<nat>, phase: Phase,
                         log: seq<Entry>, accepted: set<nat>, before: set<nat>, early: nat)

  datatype Step =
    | EmitUser(id: nat)
    | EmitBg(id: nat)
    | Pop(w: nat)
    | Wait(w: nat)
    | UserGot(w: nat)
    | BgGot(w: nat)
    | Resume(w: nat)
    | Finish(w: nat)
    | BeginStop
    | PutSentinel
    | Drain

  predicate AllExited(s: State) {
    forall i :: 0 <= i < |s.workers| ==> s.workers[i].at == Exited
  }

  predicate Enabled(s: State, e: Step) {
    if s.phase == Stopped then false
    else
      match e
      case EmitUser(id) => id !in s.accepted && !s.users.Full()
      case EmitBg(id) => id !in s.accepted
      case Pop(w) => w < |s.workers| && s.workers[w].at == Top && s.users.items != []
      case Wait(w) => w < |s.workers| && s.workers[w].at == Top && !s.workers[w].reserved && s.users.items == []
      case UserGot(w) => w < |s.workers| && s.workers[w].at.Waiting? && s.workers[w].at.user.None? &&
        s.users.items != []
      case BgGot(w) => w < |s.workers| && s.workers[w].at.Waiting? && s.workers[w].at.bg.None? && s.bgs.items != []
      case Resume(w) => w < |s.workers| && s.workers[w].at.Waiting? &&
        (s.workers[w].at.user.Some? || s.workers[w].at.bg.Some?)
      case Finish(w) => w < |s.workers| && s.workers[w].at.Running?
      case BeginStop => s.phase == Up && s.workers != []
      case PutSentinel => s.phase.Stopping? && s.phase.toPut > 0 && !s.users.Full()
      case Drain => s.phase.Stopping? && s.phase.toPut == 0 && AllExited(s)
  }

  function Move(s: State, w: nat, at: Place): State
    requires w < |s.workers|
  {
    s.(workers := s.workers[w := Worker(s.workers[w].reserved, at)])
  }

  /** The item is settled: its done flag, if it has one, is set. */
  function Settle(s: State, item: Item, lane: Lane, fate: Fate): State {
    s.(done := s.done + if item.Work? then {item.id} else {}, log := s.log + [Entry(item, lane, fate)])
  }

  function TaskDone(s: State, lane: Lane): State {
    if lane == User then s.(users := s.users.TaskDone()) else s.(bgs := s.bgs.TaskDone())
  }

  function GetUser(s: State): State
    requires s.users.items != []
  {
    s.(users := s.users.Get(), early := if s.early > 0 then s.early - 1 else 0)
  }

  /** A worker with an item in hand: a sentinel ends it, anything else it runs. */
  function Take(s: State, w: nat, item: Item, lane: Lane): State
    requires w < |s.workers|
  {
    if item.Sentinel? then Settle(Move(TaskDone(s, lane), w, Exited), item, lane, Ran)
    else Move(s, w, Running(item.id, lane))
  }

  /** Both gets completed: the bg item goes back to the tail, or is lost when the lane has filled up meanwhile. */
  function PutBack(s: State, item: Item): State {
    var t := TaskDone(s, Bg);
    if t.bgs.Full() then Settle(t.(counters := t.counters.(putBackFull := t.counters.putBackFull + 1)), item, Bg,
                                PutBackFull)
    else t.(bgs := t.bgs.Put(item))
  }

  /** Put on the bg lane, dropping the oldest item when it is full. */
  function PutDropOldest(s: State, item: Item): State {
    if !s.bgs.Full() then s.(bgs := s.bgs.Put(item))
    else
      var t := if s.bgs.items == [] then s
               else Settle(s.(bgs := s.bgs.Get().TaskDone()), s.bgs.items[0], Bg, Overflowed);
      var u := t.(counters := t.counters.(overflow := t.counters.overflow + 1));
      if u.bgs.Full() then Settle(u.(counters := u.counters.(overflowHard := u.counters.overflowHard + 1)), item, Bg,
                                  Overflowed)
      else u.(bgs := u.bgs.Put(item))
  }

  function Leave(s: State, items: seq<Item>, lane: Lane): State
    decreases |items|
  {
    if items == [] then s else Leave(Settle(s, items[0], lane, LeftOver), items[1..], lane)
  }

  function Do(s: State, e: Step): State
    requires Enabled(s, e)
  {
    match e
    case EmitUser(id) =>
      s.(users := s.users.Put(Work(id)), accepted := s.accepted + {id},
         counters := s.counters.(user := s.counters.user + 1))
    case EmitBg(id) =>
      PutDropOldest(s.(accepted := s.accepted + {id}, counters := s.counters.(bg := s.counters.bg + 1)), Work(id))
    case Pop(w) => Take(GetUser(s), w, s.users.items[0], User)
    case Wait(w) => Move(s, w, Waiting(None, None))
    case UserGot(w) => Move(GetUser(s), w, Waiting(Some(s.users.items[0]), s.workers[w].at.bg))
    case BgGot(w) => Move(s.(bgs := s.bgs.Get()), w, Waiting(s.workers[w].at.user, Some(s.bgs.items[0])))
    case Resume(w) =>
      var at := s.workers[w].at;
      if at.user.None? then Take(s, w, at.bg.value, Bg)
      else if at.bg.None? then Take(s, w, at.user.value, User)
      else Take(PutBack(s, at.bg.value), w, at.user.value, User)
    case Finish(w) =>
      var at := s.workers[w].at;
      Settle(Move(TaskDone(s, at.lane), w, Top), Work(at.id), at.lane, Ran)
    case BeginStop => s.(phase := Stopping(|s.workers|), before := s.before + Queued(s.users.items),
                         early := |s.users.items|)
    case PutSentinel => s.(users := s.users.Put(Sentinel), phase := Stopping(s.phase.toPut - 1))
    case Drain =>
      var t := Leave(s, s.users.items, User);
      var u := Leave(t, s.bgs.items, Bg);
      u.(users := Queue([], s.users.max, s.users.open), bgs := Queue([], s.bgs.max, s.bgs.open), phase := Stopped)
  }

  function Queued(items: seq<Item>): set<nat> {
    set i | 0 <= i < |items| && items[i].Work? :: items[i].id
  }

  /** A run: the state after the steps, each enabled where it is taken. */
  ghost predicate Runs(s: State, es: seq<Step>, t: State)
    decreases |es|
  {
    if es == [] then t == s else Enabled(s, es[0]) && Runs(Do(s, es[0]), es[1..], t)
  }

  predicate Start(s: State) {
    && s.users.items == s.bgs.items == [] && s.log == [] && s.users.open == s.bgs.open == 0
    && s.counters.user == 0 && s.counters.bg == 0 && s.counters.overflow == 0
    && s.counters.overflowHard == 0 && s.counters.putBackFull == 0
    && s.done == s.accepted == s.before == {} && s.early == 0 && s.phase == Up
    && forall i :: 0 <= i < |s.workers| ==> s.workers[i].at == Top
  }

  // ---- one conservation law ------------------------------------------------------------------

  // A weight for what is on each lane; a worker carries the weight of what it has, and so does the log.
  datatype Weight = Weight(user: Item -> nat, bg: Item -> nat)

  function OnLane(wt: Weight, lane: Lane, item: Item): nat {
    if lane == User then wt.user(item) else wt.bg(item)
  }

  function Had(got: Option<Item>, weight: Item -> nat): nat {
    if got.Some? then weight(got.value) else 0
  }

  function CarriedAt(wt: Weight, at: Place): nat {
    match at
    case Waiting(user, bg) => Had(user, wt.user) + Had(bg, wt.bg)
    case Running(id, lane) => OnLane(wt, lane, Work(id))
    case _ => 0
  }

  function Carried(wt: Weight): Worker -> nat {
    (w: Worker) => CarriedAt(wt, w.at)
  }

  function Logged(wt: Weight): Entry -> nat {
    (x: Entry) => OnLane(wt, x.lane, x.item)
  }

  function Mass(s: State, wt: Weight): nat {
    Total(s.users.items, wt.user) + Total(s.bgs.items, wt.bg) + Total(s.workers, Carried(wt)) + Total(s.log, Logged(wt))
  }

  /** What a step brings in. */
  function Enters(e: Step, wt: Weight): nat {
    match e
    case EmitUser(id) => wt.user(Work(id))
    case EmitBg(id) => wt.bg(Work(id))
    case PutSentinel => wt.user(Sentinel)
    case _ => 0
  }

  lemma MoveMass(s: State, w: nat, at: Place, wt: Weight)
    requires w < |s.workers|
    ensures Mass(Move(s, w, at), wt) + Carried(wt)(s.workers[w]) ==
            Mass(s, wt) + Carried(wt)(Worker(s.workers[w].reserved, at))
  {
    TotalUpdate(s.workers, w, Worker(s.workers[w].reserved, at), Carried(wt));
  }

  lemma SettleMass(s: State, item: Item, lane: Lane, fate: Fate, wt: Weight)
    ensures Mass(Settle(s, item, lane, fate), wt) == Mass(s, wt) + OnLane(wt, lane, item)
  {
    TotalSnoc(s.log, Entry(item, lane, fate), Logged(wt));
  }

  lemma TakeMass(s: State, w: nat, item: Item, lane: Lane, wt: Weight)
    requires w < |s.workers|
    ensures Mass(Take(s, w, item, lane), wt) + Carried(wt)(s.workers[w]) == Mass(s, wt) + OnLane(wt, lane, item)
  {
    if item.Sentinel? {
      MoveMass(TaskDone(s, lane), w, Exited, wt);
      SettleMass(Move(TaskDone(s, lane), w, Exited), item, lane, Ran, wt);
    } else {
      MoveMass(s, w, Running(item.id, lane), wt);
    }
  }

  lemma PutBgMass(s: State, item: Item, wt: Weight)
    ensures Mass(s.(bgs := s.bgs.Put(item)), wt) == Mass(s, wt) + wt.bg(item)
  {
    TotalSnoc(s.bgs.items, item, wt.bg);
  }

  lemma PutBackMass(s: State, item: Item, wt: Weight)
    ensures Mass(PutBack(s, item), wt) == Mass(s, wt) + wt.bg(item)
  {
    var t := TaskDone(s, Bg);
    if t.bgs.Full() {
      SettleMass(t.(counters := t.counters.(putBackFull := t.counters.putBackFull + 1)), item, Bg, PutBackFull, wt);
    } else {
      PutBgMass(t, item, wt);
    }
  }

  lemma PutDropOldestMass(s: State, item: Item, wt: Weight)
    ensures Mass(PutDropOldest(s, item), wt) == Mass(s, wt) + wt.bg(item)
  {
    if !s.bgs.Full() {
      PutBgMass(s, item, wt);
    } else {
      var t := if s.bgs.items == [] then s
               else Settle(s.(bgs := s.bgs.Get().TaskDone()), s.bgs.items[0], Bg, Overflowed);
      if s.bgs.items != [] {
        SettleMass(s.(bgs := s.bgs.Get().TaskDone()), s.bgs.items[0], Bg, Overflowed, wt);
      }
      assert Mass(t, wt) == Mass(s, wt);
      var u := t.(counters := t.counters.(overflow := t.counters.overflow + 1));
      if u.bgs.Full() {
        SettleMass(u.(counters := u.counters.(overflowHard := u.counters.overflowHard + 1)), item, Bg, Overflowed, wt);
      } else {
        PutBgMass(u, item, wt);
      }
    }
  }

  lemma {:induction false} LeaveMass(s: State, items: seq<Item>, lane: Lane, wt: Weight)
    ensures var t := Leave(s, items, lane);
            t.users == s.users && t.bgs == s.bgs && t.workers == s.workers &&
            Mass(t, wt) == Mass(s, wt) + Total(items, if lane == User then wt.user else wt.bg)
    decreases |items|
  {
    if items != [] {
      SettleMass(s, items[0], lane, LeftOver, wt);
      LeaveMass(Settle(s, items[0], lane, LeftOver), items[1..], lane, wt);
    }
  }

  lemma ResumeMass(s: State, w: nat, wt: Weight)
    requires Enabled(s, Resume(w))
    ensures Mass(Do(s, Resume(w)), wt) == Mass(s, wt)
  {
    var at := s.workers[w].at;
    if at.user.None? {
      TakeMass(s, w, at.bg.value, Bg, wt);
    } else if at.bg.None? {
      TakeMass(s, w, at.user.value, User, wt);
    } else {
      PutBackMass(s, at.bg.value, wt);
      TakeMass(PutBack(s, at.bg.value), w, at.user.value, User, wt);
    }
  }

  lemma FinishMass(s: State, w: nat, wt: Weight)
    requires Enabled(s, Finish(w))
    ensures Mass(Do(s, Finish(w)), wt) == Mass(s, wt)
  {
    var at := s.workers[w].at;
    MoveMass(TaskDone(s, at.lane), w, Top, wt);
    SettleMass(Move(TaskDone(s, at.lane), w, Top), Work(at.id), at.lane, Ran, wt);
  }

  lemma GotMass(s: State, w: nat, wt: Weight)
    ensures Enabled(s, UserGot(w)) ==> Mass(Do(s, UserGot(w)), wt) == Mass(s, wt)
    ensures Enabled(s, BgGot(w)) ==> Mass(Do(s, BgGot(w)), wt) == Mass(s, wt)
  {
    if Enabled(s, UserGot(w)) {
      MoveMass(GetUser(s), w, Waiting(Some(s.users.items[0]), s.workers[w].at.bg), wt);
    }
    if Enabled(s, BgGot(w)) {
      MoveMass(s.(bgs := s.bgs.Get()), w, Waiting(s.workers[w].at.user, Some(s.bgs.items[0])), wt);
    }
  }

  lemma DrainMass(s: State, wt: Weight)
    requires Enabled(s, Drain)
    ensures Mass(Do(s, Drain), wt) == Mass(s, wt)
  {
    LeaveMass(s, s.users.items, User, wt);
    LeaveMass(Leave(s, s.users.items, User), s.bgs.items, Bg, wt);
  }

  /** Whatever items are made to weigh, nothing is lost and nothing is made: a step changes the mass by what it brings
      in. */
  lemma Conservation(s: State, e: Step, wt: Weight)
    requires Enabled(s, e)
    ensures Mass(Do(s, e), wt) == Mass(s, wt) + Enters(e, wt)
  {
    match e
    case EmitUser(id) => TotalSnoc(s.users.items, Work(id), wt.user);
    case EmitBg(id) =>
      PutDropOldestMass(s.(accepted := s.accepted + {id}, counters := s.counters.(bg := s.counters.bg + 1)), Work(id),
                        wt);
    case Pop(w) => TakeMass(GetUser(s), w, s.users.items[0], User, wt);
    case Wait(w) => MoveMass(s, w, Waiting(None, None), wt);
    case UserGot(w) => GotMass(s, w, wt);
    case BgGot(w) => GotMass(s, w, wt);
    case Resume(w) => ResumeMass(s, w, wt);
    case Finish(w) => FinishMass(s, w, wt);
    case BeginStop =>
    case PutSentinel => TotalSnoc(s.users.items, Sentinel, wt.user);
    case Drain => DrainMass(s, wt);
  }
}
