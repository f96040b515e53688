// What every run of the event bus keeps: one place per item, balanced counters, bounds.
module EventBusSafety {
  import opened Totals
  import opened Wrappers
  import opened EventBus

  function IsItem(id: nat): Item -> nat {
    (x: Item) => if x == Work(id) then 1 else 0
  }

  function Nothing(): Item -> nat {
    (x: Item) => 0
  }

  function Everything(): Item -> nat {
    (x: Item) => 1
  }

  /** One item, wherever it is. */
  function One(id: nat): Weight {
    Weight(IsItem(id), IsItem(id))
  }

  /** All that is on one lane. */
  function On(lane: Lane): Weight {
    if lane == User then Weight(Everything(), Nothing()) else Weight(Nothing(), Everything())
  }

  function FateIs(fate: Fate): Entry -> nat {
    (x: Entry) => if x.fate == fate then 1 else 0
  }

  /** Every item ever queued is in exactly one place: on a lane, with a worker, or settled. */
  ghost predicate InOnePlace(s: State) {
    forall id: nat :: Mass(s, One(id)) == if id in s.accepted then 1 else 0
  }

  /** A done flag is set exactly for the settled items. */
  ghost predicate DoneIfSettled(s: State) {
    forall id: nat :: id in s.done <==> Total(s.log, Logged(One(id))) > 0
  }

  /** Each lane's count of open gets is what is on the lane and with the workers, so task_done never goes below zero. */
  ghost predicate OpenIsHeld(s: State) {
    && s.users.open == |s.users.items| + Total(s.workers, Carried(On(User)))
    && s.bgs.open == |s.bgs.items| + Total(s.workers, Carried(On(Bg)))
  }

  ghost predicate Counts(s: State) {
    && Mass(s, On(Bg)) == s.counters.bg
    && Total(s.log, FateIs(Overflowed)) == s.counters.overflow
    && Total(s.log, FateIs(PutBackFull)) == s.counters.putBackFull
    && s.counters.overflowHard == 0
  }

  /** User items are never dropped, and only user items and sentinels travel on the user lane. */
  predicate OnlyBgDropped(s: State) {
    forall i :: 0 <= i < |s.log| && (s.log[i].fate == Overflowed || s.log[i].fate == PutBackFull) ==>
      s.log[i].lane == Bg
  }

  predicate InLane(w: Worker) {
    match w.at
    case Waiting(user, bg) => !w.reserved && (bg.Some? ==> bg.value.Work?)
    case Running(id, lane) => w.reserved ==> lane == User
    case _ => true
  }

  /** The bg lane keeps to its bound and holds no sentinel; a reserved worker has nothing to do with it. */
  predicate Lanes(s: State) {
    && (s.bgs.max > 0 ==> |s.bgs.items| <= s.bgs.max)
    && (forall i :: 0 <= i < |s.bgs.items| ==> s.bgs.items[i].Work?)
    && (forall i :: 0 <= i < |s.workers| ==> InLane(s.workers[i]))
  }

  ghost predicate Inv(s: State) {
    InOnePlace(s) && DoneIfSettled(s) && Lanes(s) && OnlyBgDropped(s) && Counts(s) &&
      (s.phase != Stopped ==> OpenIsHeld(s))
  }

  lemma StartInv(s: State)
    requires Start(s)
    ensures Inv(s)
  {
    forall wt: Weight ensures Mass(s, wt) == 0 && Total(s.workers, Carried(wt)) == 0 {
      TotalZero(s.workers, Carried(wt));
    }
    assert forall id: nat :: Mass(s, One(id)) == 0;
    assert Mass(s, On(Bg)) == 0 && Total(s.workers, Carried(On(User))) == 0 && Total(s.workers, Carried(On(Bg))) == 0;
  }

  // ---- lanes ---------------------------------------------------------------------------------

  lemma TakeLanes(s: State, w: nat, item: Item, lane: Lane)
    requires Lanes(s) && w < |s.workers| && (s.workers[w].reserved ==> lane == User)
    ensures Lanes(Take(s, w, item, lane))
  {
  }

  lemma PutDropOldestLanes(s: State, id: nat)
    requires Lanes(s)
    ensures Lanes(PutDropOldest(s, Work(id)))
    ensures PutDropOldest(s, Work(id)).counters.overflowHard == s.counters.overflowHard
    ensures var items := PutDropOldest(s, Work(id)).bgs.items; items != [] && items[|items| - 1] == Work(id)
  {
  }

  lemma PutBackLanes(s: State, item: Item)
    requires Lanes(s) && item.Work?
    ensures Lanes(PutBack(s, item)) && PutBack(s, item).workers == s.workers
  {
  }

  lemma {:induction false} LeaveKeeps(s: State, items: seq<Item>, lane: Lane)
    requires OnlyBgDropped(s)
    ensures var t := Leave(s, items, lane);
            OnlyBgDropped(t) && t.users == s.users && t.bgs == s.bgs && t.workers == s.workers &&
              t.counters == s.counters &&
            t.accepted == s.accepted
    ensures Total(Leave(s, items, lane).log, FateIs(Overflowed)) == Total(s.log, FateIs(Overflowed))
    ensures Total(Leave(s, items, lane).log, FateIs(PutBackFull)) == Total(s.log, FateIs(PutBackFull))
    decreases |items|
  {
    if items != [] {
      var t := Settle(s, items[0], lane, LeftOver);
      TotalSnoc(s.log, Entry(items[0], lane, LeftOver), FateIs(Overflowed));
      TotalSnoc(s.log, Entry(items[0], lane, LeftOver), FateIs(PutBackFull));
      LeaveKeeps(t, items[1..], lane);
    }
  }

  lemma DrainKeeps(s: State)
    requires Enabled(s, Drain) && OnlyBgDropped(s)
    ensures var t := Do(s, Drain);
            OnlyBgDropped(t) && t.workers == s.workers && t.counters == s.counters && t.accepted == s.accepted &&
            t.users.items == [] && t.bgs.items == [] && t.bgs.max == s.bgs.max && t.phase == Stopped &&
            Total(t.log, FateIs(Overflowed)) == Total(s.log, FateIs(Overflowed)) &&
            Total(t.log, FateIs(PutBackFull)) == Total(s.log, FateIs(PutBackFull))
  {
    LeaveKeeps(s, s.users.items, User);
    LeaveKeeps(Leave(s, s.users.items, User), s.bgs.items, Bg);
  }

  lemma StepLanes(s: State, e: Step)
    requires Lanes(s) && OnlyBgDropped(s) && Enabled(s, e)
    ensures Lanes(Do(s, e))
  {
    match e
    case EmitBg(id) =>
      PutDropOldestLanes(s.(accepted := s.accepted + {id}, counters := s.counters.(bg := s.counters.bg + 1)), id);
    case Pop(w) => TakeLanes(GetUser(s), w, s.users.items[0], User);
    case Resume(w) => ResumeLanes(s, w);
    case Wait(w) => MoveLanes(s, w, Waiting(None, None));
    case UserGot(w) => MoveLanes(GetUser(s), w, Waiting(Some(s.users.items[0]), s.workers[w].at.bg));
    case BgGot(w) => MoveLanes(s.(bgs := s.bgs.Get()), w, Waiting(s.workers[w].at.user, Some(s.bgs.items[0])));
    case Finish(w) => MoveLanes(TaskDone(s, s.workers[w].at.lane), w, Top);
    case Drain => DrainKeeps(s);
    case _ =>
  }

  lemma MoveLanes(s: State, w: nat, at: Place)
    requires Lanes(s) && w < |s.workers| && InLane(Worker(s.workers[w].reserved, at))
    ensures Lanes(Move(s, w, at))
  {
  }

  lemma ResumeLanes(s: State, w: nat)
    requires Lanes(s) && Enabled(s, Resume(w))
    ensures Lanes(Do(s, Resume(w)))
  {
    var at := s.workers[w].at;
    assert InLane(s.workers[w]);
    if at.user.None? {
      TakeLanes(s, w, at.bg.value, Bg);
    } else if at.bg.None? {
      TakeLanes(s, w, at.user.value, User);
    } else {
      PutBackLanes(s, at.bg.value);
      TakeLanes(PutBack(s, at.bg.value), w, at.user.value, User);
    }
  }

  lemma StepOnlyBgDropped(s: State, e: Step)
    requires OnlyBgDropped(s) && Enabled(s, e)
    ensures OnlyBgDropped(Do(s, e))
  {
    if e == Drain {
      DrainKeeps(s);
    }
  }

  // ---- the counters --------------------------------------------------------------------------

  /** How much a settled entry adds to the two drop counters. */
  lemma SettleFates(s: State, item: Item, lane: Lane, fate: Fate)
    ensures Total(Settle(s, item, lane, fate).log, FateIs(Overflowed)) ==
            Total(s.log, FateIs(Overflowed)) + if fate == Overflowed then 1 else 0
    ensures Total(Settle(s, item, lane, fate).log, FateIs(PutBackFull)) ==
            Total(s.log, FateIs(PutBackFull)) + if fate == PutBackFull then 1 else 0
  {
    TotalSnoc(s.log, Entry(item, lane, fate), FateIs(Overflowed));
    TotalSnoc(s.log, Entry(item, lane, fate), FateIs(PutBackFull));
  }

  ghost predicate DropCounts(s: State) {
    && Total(s.log, FateIs(Overflowed)) == s.counters.overflow
    && Total(s.log, FateIs(PutBackFull)) == s.counters.putBackFull
  }

  lemma TakeDropCounts(s: State, w: nat, item: Item, lane: Lane)
    requires DropCounts(s) && w < |s.workers|
    ensures DropCounts(Take(s, w, item, lane))
  {
    SettleFates(Move(TaskDone(s, lane), w, Exited), item, lane, Ran);
  }

  lemma PutBackDropCounts(s: State, item: Item)
    requires DropCounts(s)
    ensures DropCounts(PutBack(s, item)) && PutBack(s, item).workers == s.workers
  {
    var t := TaskDone(s, Bg);
    SettleFates(t.(counters := t.counters.(putBackFull := t.counters.putBackFull + 1)), item, Bg, PutBackFull);
  }

  lemma PutDropOldestDropCounts(s: State, id: nat)
    requires DropCounts(s) && Lanes(s)
    ensures DropCounts(PutDropOldest(s, Work(id)))
  {
    if s.bgs.Full() {
      SettleFates(s.(bgs := s.bgs.Get().TaskDone()), s.bgs.items[0], Bg, Overflowed);
    }
  }

  lemma StepDropCounts(s: State, e: Step)
    requires DropCounts(s) && Lanes(s) && OnlyBgDropped(s) && Enabled(s, e)
    ensures DropCounts(Do(s, e))
  {
    match e
    case EmitBg(id) =>
      PutDropOldestDropCounts(s.(accepted := s.accepted + {id}, counters := s.counters.(bg := s.counters.bg + 1)), id);
    case Pop(w) => TakeDropCounts(GetUser(s), w, s.users.items[0], User);
    case Resume(w) =>
      var at := s.workers[w].at;
      if at.user.None? {
        TakeDropCounts(s, w, at.bg.value, Bg);
      } else if at.bg.None? {
        TakeDropCounts(s, w, at.user.value, User);
      } else {
        PutBackDropCounts(s, at.bg.value);
        TakeDropCounts(PutBack(s, at.bg.value), w, at.user.value, User);
      }
    case Finish(w) => SettleFates(Move(TaskDone(s, s.workers[w].at.lane), w, Top), Work(s.workers[w].at.id),
                                  s.workers[w].at.lane, Ran);
    case Drain => DrainKeeps(s);
    case _ =>
  }

  lemma StepCounters(s: State, e: Step)
    requires Lanes(s) && OnlyBgDropped(s) && Enabled(s, e)
    ensures Do(s, e).counters.bg == s.counters.bg + Enters(e, On(Bg))
    ensures Do(s, e).counters.overflowHard == s.counters.overflowHard
    ensures Do(s, e).accepted == s.accepted + match e case EmitUser(id) => {id} case EmitBg(id) => {id} case _ => {}
  {
    match e
    case EmitBg(id) =>
      PutDropOldestLanes(s.(accepted := s.accepted + {id}, counters := s.counters.(bg := s.counters.bg + 1)), id);
    case Drain => DrainKeeps(s);
    case _ =>
  }

  // ---- done flags and open gets --------------------------------------------------------------

  lemma SettleDone(s: State, item: Item, lane: Lane, fate: Fate)
    requires DoneIfSettled(s)
    ensures DoneIfSettled(Settle(s, item, lane, fate))
  {
    forall id: nat ensures id in Settle(s, item, lane, fate).done <==>
      Total(Settle(s, item, lane, fate).log, Logged(One(id))) > 0 {
      TotalSnoc(s.log, Entry(item, lane, fate), Logged(One(id)));
    }
  }

  lemma {:induction false} LeaveDone(s: State, items: seq<Item>, lane: Lane)
    requires DoneIfSettled(s)
    ensures DoneIfSettled(Leave(s, items, lane))
    decreases |items|
  {
    if items != [] {
      SettleDone(s, items[0], lane, LeftOver);
      LeaveDone(Settle(s, items[0], lane, LeftOver), items[1..], lane);
    }
  }

  lemma TakeDone(s: State, w: nat, item: Item, lane: Lane)
    requires DoneIfSettled(s) && w < |s.workers|
    ensures DoneIfSettled(Take(s, w, item, lane))
  {
    SettleDone(Move(TaskDone(s, lane), w, Exited), item, lane, Ran);
  }

  lemma PutBackDone(s: State, item: Item)
    requires DoneIfSettled(s)
    ensures DoneIfSettled(PutBack(s, item)) && PutBack(s, item).workers == s.workers
  {
    var t := TaskDone(s, Bg);
    SettleDone(t.(counters := t.counters.(putBackFull := t.counters.putBackFull + 1)), item, Bg, PutBackFull);
  }

  lemma PutDropOldestDone(s: State, id: nat)
    requires DoneIfSettled(s) && Lanes(s)
    ensures DoneIfSettled(PutDropOldest(s, Work(id)))
  {
    if s.bgs.Full() {
      SettleDone(s.(bgs := s.bgs.Get().TaskDone()), s.bgs.items[0], Bg, Overflowed);
    }
  }

  lemma StepDone(s: State, e: Step)
    requires DoneIfSettled(s) && Lanes(s) && Enabled(s, e)
    ensures DoneIfSettled(Do(s, e))
  {
    match e
    case EmitBg(id) =>
      PutDropOldestDone(s.(accepted := s.accepted + {id}, counters := s.counters.(bg := s.counters.bg + 1)), id);
    case Pop(w) => TakeDone(GetUser(s), w, s.users.items[0], User);
    case Resume(w) =>
      var at := s.workers[w].at;
      if at.user.None? {
        TakeDone(s, w, at.bg.value, Bg);
      } else if at.bg.None? {
        TakeDone(s, w, at.user.value, User);
      } else {
        PutBackDone(s, at.bg.value);
        TakeDone(PutBack(s, at.bg.value), w, at.user.value, User);
      }
    case Finish(w) => SettleDone(Move(TaskDone(s, s.workers[w].at.lane), w, Top), Work(s.workers[w].at.id),
                                 s.workers[w].at.lane, Ran);
    case Drain =>
      LeaveDone(s, s.users.items, User);
      LeaveDone(Leave(s, s.users.items, User), s.bgs.items, Bg);
    case _ =>
  }

  function OpenOn(s: State, lane: Lane): int {
    (if lane == User then s.users.open else s.bgs.open) + Total(s.log, Logged(On(lane)))
  }

  lemma {:induction false} TotalEverything(items: seq<Item>)
    ensures Total(items, Everything()) == |items| && Total(items, Nothing()) == 0
  {
    TotalOnes(items, Everything());
    TotalZero(items, Nothing());
  }

  /** The open counts are right exactly when, with what was settled, they make up the mass of their lane. */
  lemma OpenAsMass(s: State)
    ensures OpenIsHeld(s) <==> OpenOn(s, User) == Mass(s, On(User)) && OpenOn(s, Bg) == Mass(s, On(Bg))
  {
    TotalEverything(s.users.items);
    TotalEverything(s.bgs.items);
  }

  lemma SettleOpen(s: State, item: Item, lane: Lane, fate: Fate, on: Lane)
    ensures OpenOn(Settle(s, item, lane, fate), on) == OpenOn(s, on) + if lane == on then 1 else 0
  {
    TotalSnoc(s.log, Entry(item, lane, fate), Logged(On(on)));
  }

  lemma TakeOpen(s: State, w: nat, item: Item, lane: Lane, on: Lane)
    requires w < |s.workers|
    ensures OpenOn(Take(s, w, item, lane), on) == OpenOn(s, on)
  {
    SettleOpen(Move(TaskDone(s, lane), w, Exited), item, lane, Ran, on);
  }

  lemma PutBackOpen(s: State, item: Item, on: Lane)
    ensures OpenOn(PutBack(s, item), on) == OpenOn(s, on) && PutBack(s, item).workers == s.workers
  {
    var t := TaskDone(s, Bg);
    SettleOpen(t.(counters := t.counters.(putBackFull := t.counters.putBackFull + 1)), item, Bg, PutBackFull, on);
  }

  lemma PutDropOldestOpen(s: State, id: nat, on: Lane)
    requires Lanes(s)
    ensures OpenOn(PutDropOldest(s, Work(id)), on) == OpenOn(s, on) + if on == Bg then 1 else 0
  {
    if s.bgs.Full() {
      SettleOpen(s.(bgs := s.bgs.Get().TaskDone()), s.bgs.items[0], Bg, Overflowed, on);
    }
  }

  lemma StepOpen(s: State, e: Step, on: Lane)
    requires Lanes(s) && Enabled(s, e) && e != Drain
    ensures OpenOn(Do(s, e), on) == OpenOn(s, on) + Enters(e, On(on))
  {
    match e
    case EmitBg(id) =>
      PutDropOldestOpen(s.(accepted := s.accepted + {id}, counters := s.counters.(bg := s.counters.bg + 1)), id, on);
    case Pop(w) => TakeOpen(GetUser(s), w, s.users.items[0], User, on);
    case Resume(w) =>
      var at := s.workers[w].at;
      if at.user.None? {
        TakeOpen(s, w, at.bg.value, Bg, on);
      } else if at.bg.None? {
        TakeOpen(s, w, at.user.value, User, on);
      } else {
        PutBackOpen(s, at.bg.value, on);
        TakeOpen(PutBack(s, at.bg.value), w, at.user.value, User, on);
      }
    case Finish(w) =>
      SettleOpen(Move(TaskDone(s, s.workers[w].at.lane), w, Top), Work(s.workers[w].at.id), s.workers[w].at.lane, Ran,
                 on);
    case _ =>
  }

  // ---- every run -----------------------------------------------------------------------------

  lemma StepInOnePlace(s: State, e: Step)
    requires InOnePlace(s) && Lanes(s) && OnlyBgDropped(s) && Enabled(s, e)
    ensures InOnePlace(Do(s, e))
  {
    StepCounters(s, e);
    forall id: nat ensures Mass(Do(s, e), One(id)) == if id in Do(s, e).accepted then 1 else 0 {
      Conservation(s, e, One(id));
    }
  }

  lemma StepOpenIsHeld(s: State, e: Step)
    requires OpenIsHeld(s) && Lanes(s) && Enabled(s, e) && e != Drain
    ensures OpenIsHeld(Do(s, e))
  {
    OpenAsMass(s);
    OpenAsMass(Do(s, e));
    StepOpen(s, e, User);
    StepOpen(s, e, Bg);
    Conservation(s, e, On(User));
    Conservation(s, e, On(Bg));
  }

  lemma OnlyDrainStops(s: State, e: Step)
    requires Enabled(s, e) && OnlyBgDropped(s)
    ensures Do(s, e).phase == Stopped <==> e == Drain
  {
    if e == Drain {
      DrainKeeps(s);
    }
  }

  lemma StepInv(s: State, e: Step)
    requires Inv(s) && Enabled(s, e)
    ensures Inv(Do(s, e))
  {
    StepInOnePlace(s, e);
    StepDone(s, e);
    StepLanes(s, e);
    StepOnlyBgDropped(s, e);
    StepDropCounts(s, e);
    StepCounters(s, e);
    Conservation(s, e, On(Bg));
    OnlyDrainStops(s, e);
    if e != Drain {
      StepOpenIsHeld(s, e);
    }
  }

  lemma {:induction false} RunInv(s: State, es: seq<Step>, t: State)
    requires Inv(s) && Runs(s, es, t)
    ensures Inv(t)
    decreases |es|
  {
    if es != [] {
      StepInv(s, es[0]);
      RunInv(Do(s, es[0]), es[1..], t);
    }
  }

  // ---- what the invariant says ---------------------------------------------------------------

  function RanOn(lane: Lane): Entry -> nat {
    (x: Entry) => if x.lane == lane && x.fate == Ran then 1 else 0
  }

  function LeftOn(lane: Lane): Entry -> nat {
    (x: Entry) => if x.lane == lane && x.fate == LeftOver then 1 else 0
  }

  lemma {:induction false} FatesOfBg(log: seq<Entry>)
    requires forall i :: 0 <= i < |log| && (log[i].fate == Overflowed || log[i].fate == PutBackFull) ==>
             log[i].lane == Bg
    ensures Total(log, Logged(On(Bg))) ==
            Total(log, RanOn(Bg)) + Total(log, LeftOn(Bg)) + Total(log, FateIs(Overflowed)) +
              Total(log, FateIs(PutBackFull))
  {
    if log != [] {
      FatesOfBg(log[1..]);
    }
  }

  /** In every reachable state the bg items taken in are those queued, with workers, run, left over, and the two drop
      counters. */
  lemma BgEquation(s: State, es: seq<Step>, t: State)
    requires Start(s) && Runs(s, es, t)
    ensures t.counters.bg == |t.bgs.items| + Total(t.workers, Carried(On(Bg))) + Total(t.log, RanOn(Bg)) +
                             Total(t.log, LeftOn(Bg)) + t.counters.overflow + t.counters.putBackFull
    ensures t.counters.overflowHard == 0
    ensures t.bgs.max > 0 ==> |t.bgs.items| <= t.bgs.max
  {
    StartInv(s);
    RunInv(s, es, t);
    FatesOfBg(t.log);
    TotalEverything(t.users.items);
    TotalEverything(t.bgs.items);
  }

  /** In every reachable state an item is queued, with a worker, or settled, never two of these, and done exactly when
      settled. */
  lemma ExactlyOnePlace(s: State, es: seq<Step>, t: State, id: nat)
    requires Start(s) && Runs(s, es, t)
    ensures Total(t.users.items, IsItem(id)) + Total(t.bgs.items, IsItem(id)) + Total(t.workers, Carried(One(id))) +
            Total(t.log, Logged(One(id))) == if id in t.accepted then 1 else 0
    ensures id in t.done <==> Total(t.log, Logged(One(id))) == 1
  {
    StartInv(s);
    RunInv(s, es, t);
    assert Mass(t, One(id)) == if id in t.accepted then 1 else 0;
  }

  /** In every reachable state the bg lane keeps its bound and holds no sentinel, a reserved worker has nothing to do
      with it, and no user item is dropped. */
  lemma LanesKept(s: State, es: seq<Step>, t: State)
    requires Start(s) && Runs(s, es, t)
    ensures t.bgs.max > 0 ==> |t.bgs.items| <= t.bgs.max
    ensures forall i :: 0 <= i < |t.bgs.items| ==> t.bgs.items[i].Work?
    ensures forall i :: 0 <= i < |t.workers| && t.workers[i].reserved ==>
              !t.workers[i].at.Waiting? && (t.workers[i].at.Running? ==> t.workers[i].at.lane == User)
    ensures forall i :: 0 <= i < |t.log| && t.log[i].lane == User ==> t.log[i].fate == Ran || t.log[i].fate == LeftOver
  {
    StartInv(s);
    RunInv(s, es, t);
    assert forall i :: 0 <= i < |t.workers| ==> InLane(t.workers[i]);
  }

  /** A bg item just emitted is at the tail of its lane whatever was dropped for it. */
  lemma NewestSurvives(s: State, es: seq<Step>, t: State, id: nat)
    requires Start(s) && Runs(s, es, t) && Enabled(t, EmitBg(id))
    ensures var items := Do(t, EmitBg(id)).bgs.items; items != [] && items[|items| - 1] == Work(id)
  {
    StartInv(s);
    RunInv(s, es, t);
    PutDropOldestLanes(t.(accepted := t.accepted + {id}, counters := t.counters.(bg := t.counters.bg + 1)), id);
  }

  /** task_done is never called once too often. */
  lemma TaskDoneIsSafe(s: State, es: seq<Step>, t: State, w: nat)
    requires Start(s) && Runs(s, es, t)
    ensures Enabled(t, Finish(w)) ==> (if t.workers[w].at.lane == User then t.users.open else t.bgs.open) > 0
    ensures Enabled(t, Resume(w)) && t.workers[w].at.bg.Some? ==> t.bgs.open > 0
    ensures Enabled(t, Resume(w)) && t.workers[w].at.user.Some? ==> t.users.open > 0
    ensures t.phase != Stopped && t.bgs.Full() ==> t.bgs.open > 0
  {
    StartInv(s);
    RunInv(s, es, t);
    if w < |t.workers| {
      TotalAt(t.workers, w, Carried(On(User)));
      TotalAt(t.workers, w, Carried(On(Bg)));
    }
  }
}
