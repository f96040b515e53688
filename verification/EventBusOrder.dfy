// The order of the event bus: lanes are first in, first out, and users go first.
module EventBusOrder {
  import opened Wrappers
  import opened Totals
  import opened Sequences
  import opened EventBus
  import opened EventBusSafety

  /** What a worker has after getting an item: it runs it, or has left on a sentinel. */
  function InHand(w: Worker): seq<Item> {
    match w.at
    case Running(id, _) => [Work(id)]
    case Exited => [Sentinel]
    case _ => []
  }

  function Got(o: Option<Item>): seq<Item> {
    if o.Some? then [o.value] else []
  }

  // ---- the user lane ---------------------------------------------------------------------------

  /** What a step puts on the user lane. */
  function JoinsUsers(e: Step): seq<Item> {
    match e
    case EmitUser(id) => [Work(id)]
    case PutSentinel => [Sentinel]
    case _ => []
  }

  /** What a step takes off it, told by what the worker has afterwards. */
  function LeavesUsers(s: State, e: Step): seq<Item>
    requires Enabled(s, e)
  {
    match e
    case Pop(w) => InHand(Do(s, e).workers[w])
    case UserGot(w) => Got(Do(s, e).workers[w].at.user)
    case _ => []
  }

  lemma UsersStep(s: State, e: Step)
    requires Enabled(s, e) && !e.Drain?
    ensures s.users.items + JoinsUsers(e) == LeavesUsers(s, e) + Do(s, e).users.items
  {
    if e.Pop? || e.UserGot? {
      assert s.users.items == [s.users.items[0]] + s.users.items[1..];
    }
  }

  /** What a run puts on the lane, and what it takes off, in order. */
  function JoinedUsers(es: seq<Step>): seq<Item>
    decreases |es|
  {
    if es == [] then [] else JoinsUsers(es[0]) + JoinedUsers(es[1..])
  }

  function LeftUsers(s: State, es: seq<Step>): seq<Item>
    decreases |es|
  {
    if es == [] || !Enabled(s, es[0]) then [] else LeavesUsers(s, es[0]) + LeftUsers(Do(s, es[0]), es[1..])
  }

  predicate NoDrain(es: seq<Step>) {
    forall i :: 0 <= i < |es| ==> !es[i].Drain?
  }

  /** First in, first out: until the bus drains, the user items taken are the first of those put, in order, and the lane
      holds the rest. */
  lemma {:induction false} UsersInOrder(s: State, es: seq<Step>, t: State)
    requires Runs(s, es, t) && NoDrain(es)
    ensures s.users.items + JoinedUsers(es) == LeftUsers(s, es) + t.users.items
    decreases |es|
  {
    if es != [] {
      UsersStep(s, es[0]);
      UsersInOrder(Do(s, es[0]), es[1..], t);
      Shift(s.users.items, JoinsUsers(es[0]), JoinedUsers(es[1..]), LeavesUsers(s, es[0]), Do(s, es[0]).users.items,
            LeftUsers(Do(s, es[0]), es[1..]), t.users.items);
    }
  }

  lemma Shift<T>(items: seq<T>, joins: seq<T>, joined: seq<T>, leaves: seq<T>, next: seq<T>, left: seq<T>, last: seq<T>)
    requires items + joins == leaves + next && next + joined == left + last
    ensures items + (joins + joined) == leaves + left + last
  {
    calc {
      items + (joins + joined);
      (items + joins) + joined;
      leaves + next + joined;
      leaves + (next + joined);
      leaves + (left + last);
      leaves + left + last;
    }
  }

  // ---- the bg lane -----------------------------------------------------------------------------

  /** An emitted item goes to the tail, and so does one that a worker puts back for a user item, where there is room. */
  function JoinsBgs(s: State, e: Step): seq<Item>
    requires Enabled(s, e)
  {
    match e
    case EmitBg(id) => [Work(id)]
    case Resume(w) =>
      var at := s.workers[w].at;
      if at.user.Some? && at.bg.Some? && Do(s, e).counters.putBackFull == s.counters.putBackFull then [at.bg.value]
      else []
    case _ => []
  }

  /** An item leaves the lane for a worker or, when a new one finds it full, dropped and logged. */
  function LeavesBgs(s: State, e: Step): seq<Item>
    requires Enabled(s, e)
  {
    match e
    case BgGot(w) => Got(Do(s, e).workers[w].at.bg)
    case EmitBg(_) =>
      var log := Do(s, e).log;
      if |log| > |s.log| then [log[|s.log|].item] else []
    case _ => []
  }

  lemma BgsStep(s: State, e: Step)
    requires Lanes(s) && Enabled(s, e) && !e.Drain?
    ensures s.bgs.items + JoinsBgs(s, e) == LeavesBgs(s, e) + Do(s, e).bgs.items
  {
    if s.bgs.items != [] {
      assert s.bgs.items == [s.bgs.items[0]] + s.bgs.items[1..];
    }
    if e.EmitBg? && s.bgs.Full() {
      Associates([s.bgs.items[0]], s.bgs.items[1..], [Work(e.id)]);
    }
  }

  function JoinedBgs(s: State, es: seq<Step>): seq<Item>
    decreases |es|
  {
    if es == [] || !Enabled(s, es[0]) then [] else JoinsBgs(s, es[0]) + JoinedBgs(Do(s, es[0]), es[1..])
  }

  function LeftBgs(s: State, es: seq<Step>): seq<Item>
    decreases |es|
  {
    if es == [] || !Enabled(s, es[0]) then [] else LeavesBgs(s, es[0]) + LeftBgs(Do(s, es[0]), es[1..])
  }

  lemma {:induction false} BgsAlong(s: State, es: seq<Step>, t: State)
    requires Inv(s) && Runs(s, es, t) && NoDrain(es)
    ensures s.bgs.items + JoinedBgs(s, es) == LeftBgs(s, es) + t.bgs.items
    decreases |es|
  {
    if es != [] {
      StepInv(s, es[0]);
      BgsStep(s, es[0]);
      BgsAlong(Do(s, es[0]), es[1..], t);
      Shift(s.bgs.items, JoinsBgs(s, es[0]), JoinedBgs(Do(s, es[0]), es[1..]), LeavesBgs(s, es[0]),
            Do(s, es[0]).bgs.items, LeftBgs(Do(s, es[0]), es[1..]), t.bgs.items);
    }
  }

  /** The bg lane is first in, first out too, drops and items put back included: what is dropped is the oldest. */
  lemma BgsInOrder(s: State, es: seq<Step>, t: State)
    requires Start(s) && Runs(s, es, t) && NoDrain(es)
    ensures JoinedBgs(s, es) == LeftBgs(s, es) + t.bgs.items
  {
    StartInv(s);
    BgsAlong(s, es, t);
    assert [] + JoinedBgs(s, es) == JoinedBgs(s, es);
  }

  // ---- the two lanes ---------------------------------------------------------------------------

  /** A worker that got both items goes on with the user's, and one that got one goes on with that. */
  lemma UserItemFirst(s: State, w: nat)
    requires Enabled(s, Resume(w))
    ensures var at := s.workers[w].at;
            var next := Do(s, Resume(w)).workers[w];
            && InHand(next) == Got(if at.user.Some? then at.user else at.bg)
            && (next.at.Running? ==> next.at.lane == if at.user.Some? then User else Bg)
  {
  }

  /** A worker waits on both lanes only after finding no user item queued, and a reserved one never does. */
  lemma UserLaneFirst(s: State, w: nat)
    requires Enabled(s, Wait(w))
    ensures s.users.items == [] && !s.workers[w].reserved && Do(s, Wait(w)).workers[w].at == Waiting(None, None)
  {
  }

  /** A full user lane holds emitters up: it never holds more than it is set up for. */
  lemma {:induction false} UsersBounded(s: State, es: seq<Step>, t: State)
    requires s.users.max > 0 ==> |s.users.items| <= s.users.max
    requires Runs(s, es, t)
    ensures t.users.max == s.users.max && (t.users.max > 0 ==> |t.users.items| <= t.users.max)
    decreases |es|
  {
    if es != [] {
      UsersBoundedStep(s, es[0]);
      UsersBounded(Do(s, es[0]), es[1..], t);
    }
  }

  lemma UsersBoundedStep(s: State, e: Step)
    requires s.users.max > 0 ==> |s.users.items| <= s.users.max
    requires Enabled(s, e)
    ensures var t := Do(s, e); t.users.max == s.users.max && (t.users.max > 0 ==> |t.users.items| <= t.users.max)
  {
    if e.Drain? {
      LeaveUsers(s, s.users.items, User);
      LeaveUsers(Leave(s, s.users.items, User), s.bgs.items, Bg);
    }
  }

  lemma {:induction false} LeaveUsers(s: State, items: seq<Item>, lane: Lane)
    ensures Leave(s, items, lane).users == s.users && Leave(s, items, lane).bgs == s.bgs
    decreases |items|
  {
    if items != [] {
      LeaveUsers(Settle(s, items[0], lane, LeftOver), items[1..], lane);
    }
  }

  // ---- how many user items there are -----------------------------------------------------------

  function IsWork(): Item -> nat {
    (x: Item) => if x.Work? then 1 else 0
  }

  function UserWork(): Weight {
    Weight(IsWork(), Nothing())
  }

  lemma {:induction false} UserWorkCounted(s: State, es: seq<Step>, t: State)
    requires Runs(s, es, t)
    ensures Mass(t, UserWork()) - Mass(s, UserWork()) == t.counters.user - s.counters.user
    decreases |es|
  {
    if es != [] {
      Conservation(s, es[0], UserWork());
      CountedStep(s, es[0]);
      UserWorkCounted(Do(s, es[0]), es[1..], t);
    }
  }

  lemma CountedStep(s: State, e: Step)
    requires Enabled(s, e)
    ensures Do(s, e).counters.user == s.counters.user + if e.EmitUser? then 1 else 0
  {
    if e.Drain? {
      LeaveCounters(s, s.users.items, User);
      LeaveCounters(Leave(s, s.users.items, User), s.bgs.items, Bg);
    }
  }

  lemma {:induction false} LeaveCounters(s: State, items: seq<Item>, lane: Lane)
    ensures Leave(s, items, lane).counters == s.counters && Leave(s, items, lane).bgs == s.bgs
    decreases |items|
  {
    if items != [] {
      LeaveCounters(Settle(s, items[0], lane, LeftOver), items[1..], lane);
    }
  }

  /** The user counter is the number of user items queued, held, run and left over: none is ever dropped or made up. */
  lemma UserEquation(s: State, es: seq<Step>, t: State)
    requires Start(s) && Runs(s, es, t)
    ensures t.counters.user == Mass(t, UserWork())
  {
    TotalZero(s.workers, Carried(UserWork()));
    UserWorkCounted(s, es, t);
  }
}
