// The life of a job entry across crashes (dorian/exec/worker.py, claimer.py).
module JobLifecycle {
  import opened Totals

  datatype Status = Unread | Pending | Acked

  // An entry of the jobs stream: its status and delivery count in the consumer group, and, as history,
  // how often _handle_one was entered for it and how many copies of it went to the dead-letter stream.
  datatype Job = Job(status: Status, times: nat, entered: nat, copies: nat)

  // One delivery of an entry to a consumer: the entry and the number of that delivery.
  datatype Item = Item(entry: nat, delivery: nat)

  // What a consumer is doing: filling its batch, (a claimer) about to ask for the delivery counts, going through the
  // batch, handling an entry, copying it to the dead-letter stream, or about to acknowledge it.
  datatype Doing = Filling | Counting | Going | Handling(entry: nat) | Copying(entry: nat) | Acking(entry: nat)

  datatype Consumer = Consumer(claimer: bool, todo: seq<Item>, doing: Doing, counts: map<nat, nat>)

  datatype State = State(jobs: seq<Job>, consumers: seq<Consumer>, max: int)

  // Delivering one entry of a batch is a step of its own, which only allows more interleavings.
  datatype Step =
    | Publish
    | Deliver(c: nat, entry: nat)
    | EndBatch(c: nat)
    | Count(c: nat, covered: set<nat>)
    | Next(c: nat)
    | Copy(c: nat, ok: bool)
    | Finish(c: nat)
    | Cancel(c: nat)
    | Ack(c: nat, ok: bool)
    | Rest(c: nat)
    | Crash(c: nat)

  /** What a holder of entry numbers refers to exists. */
  predicate WellFormed(s: State) {
    forall i :: 0 <= i < |s.consumers| ==>
      && (forall k :: 0 <= k < |s.consumers[i].todo| ==> s.consumers[i].todo[k].entry < |s.jobs|)
      && (match s.consumers[i].doing
          case Handling(e) => e < |s.jobs|
          case Copying(e) => e < |s.jobs|
          case Acking(e) => e < |s.jobs|
          case _ => true)
  }

  /** A slot reads entries nobody has read; a claimer takes over pending ones. */
  predicate Enabled(s: State, e: Step) {
    WellFormed(s) &&
    match e
    case Publish => true
    case Deliver(c, j) =>
      && c < |s.consumers| && s.consumers[c].doing == Filling && j < |s.jobs|
      && s.jobs[j].status == if s.consumers[c].claimer then Pending else Unread
    case EndBatch(c) => c < |s.consumers| && s.consumers[c].doing == Filling && s.consumers[c].todo != []
    case Count(c, covered) =>
      && c < |s.consumers| && s.consumers[c].doing == Counting
      && forall j :: j in covered ==> j < |s.jobs| && s.jobs[j].status == Pending
    case Next(c) => c < |s.consumers| && s.consumers[c].doing == Going && s.consumers[c].todo != []
    case Copy(c, _) => c < |s.consumers| && s.consumers[c].doing.Copying?
    case Finish(c) => c < |s.consumers| && s.consumers[c].doing.Handling?
    case Cancel(c) => c < |s.consumers| && s.consumers[c].doing.Handling?
    case Ack(c, _) => c < |s.consumers| && s.consumers[c].doing.Acking?
    case Rest(c) => c < |s.consumers| && s.consumers[c].doing == Going && s.consumers[c].todo == []
    case Crash(c) => c < |s.consumers|
  }

  function With(s: State, c: nat, x: Consumer): State
    requires c < |s.consumers|
  {
    s.(consumers := s.consumers[c := x])
  }

  function Update(s: State, j: nat, job: Job): State
    requires j < |s.jobs|
  {
    s.(jobs := s.jobs[j := job])
  }

  /** The delivery count the claimer found, 0 when the answer did not list the entry. */
  function Found(x: Consumer, j: nat): nat {
    if j in x.counts then x.counts[j] else 0
  }

  function Do(s: State, e: Step): State
    requires Enabled(s, e)
  {
    match e
    case Publish => s.(jobs := s.jobs + [Job(Unread, 0, 0, 0)])
    case Deliver(c, j) =>
      var job, x := s.jobs[j], s.consumers[c];
      With(Update(s, j, job.(status := Pending, times := job.times + 1)), c,
           x.(todo := x.todo + [Item(j, job.times + 1)]))
    case EndBatch(c) =>
      var x := s.consumers[c];
      With(s, c, x.(doing := if x.claimer then Counting else Going, counts := map[]))
    case Count(c, covered) =>
      var x := s.consumers[c];
      With(s, c, x.(doing := Going, counts := map j | j in covered :: s.jobs[j].times))
    case Next(c) =>
      var x := s.consumers[c];
      var j := x.todo[0].entry;
      var rest := x.(todo := x.todo[1..]);
      if x.claimer && Found(x, j) > s.max then With(s, c, rest.(doing := Copying(j)))
      else With(Update(s, j, s.jobs[j].(entered := s.jobs[j].entered + 1)), c, rest.(doing := Handling(j)))
    case Copy(c, ok) =>
      var x := s.consumers[c];
      var j := x.doing.entry;
      if ok then With(Update(s, j, s.jobs[j].(copies := s.jobs[j].copies + 1)), c, x.(doing := Acking(j)))
      else With(s, c, x.(doing := Going))
    case Finish(c) => With(s, c, s.consumers[c].(doing := Acking(s.consumers[c].doing.entry)))
    case Cancel(c) => With(s, c, s.consumers[c].(doing := Acking(s.consumers[c].doing.entry), todo := []))
    case Ack(c, ok) =>
      var x := s.consumers[c];
      var j := x.doing.entry;
      With(if ok then Update(s, j, s.jobs[j].(status := Acked)) else s, c, x.(doing := Going))
    case Rest(c) => With(s, c, s.consumers[c].(doing := Filling))
    case Crash(c) => With(s, c, s.consumers[c].(doing := Filling, todo := []))
  }

  ghost predicate Runs(s: State, es: seq<Step>, t: State)
    decreases |es|
  {
    if es == [] then t == s else Enabled(s, es[0]) && Runs(Do(s, es[0]), es[1..], t)
  }

  predicate Start(s: State) {
    s.jobs == [] && forall c :: 0 <= c < |s.consumers| ==> s.consumers[c].todo == [] && s.consumers[c].doing == Filling
  }

  // ---- in every run --------------------------------------------------------------------------

  predicate JobOk(job: Job, max: int) {
    && (job.status == Acked ==> job.entered > 0 || job.copies > 0)
    && (job.copies > 0 ==> job.times > max)
    && (job.entered > 0 || job.copies > 0 ==> job.times > 0)
    && (job.status == Unread <==> job.times == 0)
  }

  predicate ConsumerOk(jobs: seq<Job>, x: Consumer, max: int) {
    && (match x.doing
        case Handling(j) => j < |jobs| && jobs[j].entered > 0
        case Copying(j) => j < |jobs| && jobs[j].times > max && jobs[j].times > 0
        case Acking(j) => j < |jobs| && (jobs[j].entered > 0 || jobs[j].copies > 0)
        case _ => true)
    && (x.doing != Filling ==> forall j :: j in x.counts ==> j < |jobs| && x.counts[j] <= jobs[j].times)
    && (forall k :: 0 <= k < |x.todo| ==>
        x.todo[k].entry < |jobs| && 1 <= x.todo[k].delivery <= jobs[x.todo[k].entry].times)
    && (!x.claimer ==> x.doing != Counting && forall k :: 0 <= k < |x.todo| ==> x.todo[k].delivery == 1)
  }

  predicate Safe(s: State) {
    && (forall j :: 0 <= j < |s.jobs| ==> JobOk(s.jobs[j], s.max))
    && (forall c :: 0 <= c < |s.consumers| ==> ConsumerOk(s.jobs, s.consumers[c], s.max))
  }

  /** Jobs only move on: nothing a consumer relies on is taken back. */
  predicate Onward(before: seq<Job>, after: seq<Job>) {
    && |before| <= |after|
    && forall j :: 0 <= j < |before| ==>
         before[j].times <= after[j].times && before[j].entered <= after[j].entered &&
           before[j].copies <= after[j].copies
  }

  lemma OnwardKeeps(before: seq<Job>, after: seq<Job>, x: Consumer, max: int)
    requires Onward(before, after) && ConsumerOk(before, x, max)
    ensures ConsumerOk(after, x, max)
  {
  }

  /** The consumer a step belongs to; Publish belongs to none. */
  function Actor(e: Step): int {
    if e.Publish? then -1 else e.c
  }

  lemma StepOnward(s: State, e: Step)
    requires Enabled(s, e)
    ensures Onward(s.jobs, Do(s, e).jobs) && |Do(s, e).consumers| == |s.consumers| && Do(s, e).max == s.max
    ensures forall c :: 0 <= c < |s.consumers| && c != Actor(e) ==> Do(s, e).consumers[c] == s.consumers[c]
  {
  }

  lemma DeliverOk(s: State, c: nat, j: nat)
    requires Safe(s) && Enabled(s, Deliver(c, j))
    ensures ConsumerOk(Do(s, Deliver(c, j)).jobs, Do(s, Deliver(c, j)).consumers[c], s.max)
  {
    var x := s.consumers[c];
    StepOnward(s, Deliver(c, j));
    OnwardKeeps(s.jobs, Do(s, Deliver(c, j)).jobs, x, s.max);
    assert s.jobs[j].status == Unread ==> JobOk(s.jobs[j], s.max);
  }

  lemma NextOk(s: State, c: nat)
    requires Safe(s) && Enabled(s, Next(c))
    ensures ConsumerOk(Do(s, Next(c)).jobs, Do(s, Next(c)).consumers[c], s.max)
  {
    var x := s.consumers[c];
    StepOnward(s, Next(c));
    OnwardKeeps(s.jobs, Do(s, Next(c)).jobs, x.(todo := x.todo[1..]), s.max);
  }

  lemma ActorOk(s: State, e: Step)
    requires Safe(s) && Enabled(s, e) && !e.Publish?
    ensures ConsumerOk(Do(s, e).jobs, Do(s, e).consumers[e.c], s.max)
  {
    assert ConsumerOk(s.jobs, s.consumers[e.c], s.max);
    match e
    case Deliver(c, j) => DeliverOk(s, c, j);
    case Next(c) => NextOk(s, c);
    case _ =>
  }

  lemma JobsOk(s: State, e: Step)
    requires Safe(s) && Enabled(s, e)
    ensures forall j :: 0 <= j < |Do(s, e).jobs| ==> JobOk(Do(s, e).jobs[j], s.max)
  {
    forall j | 0 <= j < |Do(s, e).jobs| ensures JobOk(Do(s, e).jobs[j], s.max) {
      if j < |s.jobs| {
        assert JobOk(s.jobs[j], s.max);
        if !e.Publish? {
          var x := s.consumers[e.c];
          assert ConsumerOk(s.jobs, x, s.max);
          if e.Next? {
            assert 1 <= x.todo[0].delivery <= s.jobs[x.todo[0].entry].times;
          }
        }
      }
    }
  }

  lemma StepSafe(s: State, e: Step)
    requires Safe(s) && Enabled(s, e)
    ensures Safe(Do(s, e))
  {
    StepOnward(s, e);
    JobsOk(s, e);
    var t := Do(s, e);
    forall c | 0 <= c < |t.consumers| ensures ConsumerOk(t.jobs, t.consumers[c], t.max) {
      if c == Actor(e) {
        ActorOk(s, e);
      } else {
        OnwardKeeps(s.jobs, t.jobs, s.consumers[c], s.max);
      }
    }
  }

  lemma {:induction false} RunSafe(s: State, es: seq<Step>, t: State)
    requires Safe(s) && Runs(s, es, t)
    ensures Safe(t) && t.max == s.max && WellFormed(t)
    decreases |es|
  {
    if es != [] {
      StepSafe(s, es[0]);
      RunSafe(Do(s, es[0]), es[1..], t);
    }
  }

  /**
   * Whatever crashes: an acknowledged entry has entered _handle_one or has a copy in the dead-letter stream, and a copy
   * is made only of an entry delivered more than max times.
   */
  lemma NoSilentAck(s: State, es: seq<Step>, t: State, j: nat)
    requires Start(s) && Runs(s, es, t) && j < |t.jobs|
    ensures t.jobs[j].status == Acked ==> t.jobs[j].entered > 0 || t.jobs[j].copies > 0
    ensures t.jobs[j].copies > 0 ==> t.jobs[j].times > s.max
  {
    RunSafe(s, es, t);
  }

  /** An entry that never entered _handle_one is acknowledged only after its copy was made. */
  lemma CopyPrecedesAck(s: State, es: seq<Step>, t: State, e: Step, j: nat)
    requires Start(s) && Runs(s, es, t) && Enabled(t, e) && j < |t.jobs|
    requires t.jobs[j].status != Acked && Do(t, e).jobs[j].status == Acked && t.jobs[j].entered == 0
    ensures t.jobs[j].copies > 0
  {
    RunSafe(s, es, t);
    assert e.Ack? && ConsumerOk(t.jobs, t.consumers[e.c], t.max);
  }

  // ---- once per delivery ---------------------------------------------------------------------

  /** A delivery of entry j numbered at most b. */
  function Counts(j: nat, b: int): Item -> nat {
    (i: Item) => if i.entry == j && i.delivery <= b then 1 else 0
  }

  function Awaits(j: nat, b: int): Consumer -> nat {
    (x: Consumer) => Total(x.todo, Counts(j, b))
  }

  function Load(s: State, j: nat, b: int): nat
    requires j < |s.jobs|
  {
    s.jobs[j].entered + Total(s.consumers, Awaits(j, b))
  }

  function Min(a: int, b: int): int {
    if a <= b then a else b
  }

  /** What has entered and what still may enter, of the first b deliveries, is no more than these deliveries. */
  ghost predicate OncePerDelivery(s: State, b: int) {
    forall j :: 0 <= j < |s.jobs| ==> Load(s, j, b) <= Min(s.jobs[j].times, b)
  }

  lemma WithLoad(s: State, c: nat, x: Consumer, j: nat, b: int)
    requires c < |s.consumers| && j < |s.jobs|
    ensures Load(With(s, c, x), j, b) + Total(s.consumers[c].todo, Counts(j, b)) ==
            Load(s, j, b) + Total(x.todo, Counts(j, b))
  {
    TotalUpdate(s.consumers, c, x, Awaits(j, b));
  }

  lemma DeliverLoad(s: State, c: nat, k: nat, j: nat, b: int)
    requires Enabled(s, Deliver(c, k)) && j < |s.jobs|
    ensures Load(Do(s, Deliver(c, k)), j, b) == Load(s, j, b) + if j == k && s.jobs[k].times + 1 <= b then 1 else 0
  {
    var x := s.consumers[c];
    var y := x.(todo := x.todo + [Item(k, s.jobs[k].times + 1)]);
    var mid := Update(s, k, s.jobs[k].(status := Pending, times := s.jobs[k].times + 1));
    assert Load(mid, j, b) == Load(s, j, b);
    WithLoad(mid, c, y, j, b);
    TotalSnoc(x.todo, Item(k, s.jobs[k].times + 1), Counts(j, b));
  }

  /** The entry a consumer takes up next goes to the dead-letter stream, or is one of the first b deliveries. */
  predicate Within(x: Consumer, max: int, b: int)
    requires x.todo != []
  {
    (x.claimer && Found(x, x.todo[0].entry) > max) || x.todo[0].delivery <= b
  }

  lemma NextLoad(s: State, c: nat, j: nat, b: int)
    requires Enabled(s, Next(c)) && j < |s.jobs|
    requires Within(s.consumers[c], s.max, b)
    ensures Load(Do(s, Next(c)), j, b) <= Load(s, j, b)
  {
    var x := s.consumers[c];
    var k := x.todo[0].entry;
    var rest := x.(todo := x.todo[1..]);
    if x.claimer && Found(x, k) > s.max {
      WithLoad(s, c, rest.(doing := Copying(k)), j, b);
    } else {
      var mid := Update(s, k, s.jobs[k].(entered := s.jobs[k].entered + 1));
      WithLoad(mid, c, rest.(doing := Handling(k)), j, b);
      assert Load(mid, j, b) == Load(s, j, b) + if j == k then 1 else 0;
    }
  }

  /** A step that neither delivers nor takes up an entry leaves no more to enter. */
  lemma OtherLoad(s: State, e: Step, j: nat, b: int)
    requires Enabled(s, e) && !e.Deliver? && !e.Next? && j < |s.jobs|
    ensures Load(Do(s, e), j, b) <= Load(s, j, b)
  {
    if !e.Publish? {
      var t := Do(s, e);
      var mid := s.(jobs := t.jobs);
      assert t.jobs[j].entered == s.jobs[j].entered;
      assert t == With(mid, e.c, t.consumers[e.c]);
      WithLoad(mid, e.c, t.consumers[e.c], j, b);
    }
  }

  lemma StepOnce(s: State, e: Step, b: int)
    requires OncePerDelivery(s, b) && Enabled(s, e) && b >= 0
    requires e.Next? ==> Within(s.consumers[e.c], s.max, b)
    ensures |s.jobs| <= |Do(s, e).jobs|
    ensures forall j :: 0 <= j < |s.jobs| ==> Load(Do(s, e), j, b) <= Min(Do(s, e).jobs[j].times, b)
  {
    StepOnward(s, e);
    forall j | 0 <= j < |s.jobs| ensures Load(Do(s, e), j, b) <= Min(Do(s, e).jobs[j].times, b) {
      match e
      case Deliver(c, k) => DeliverLoad(s, c, k, j, b);
      case Next(c) => NextLoad(s, c, j, b);
      case _ => OtherLoad(s, e, j, b);
    }
  }

  lemma PublishOnce(s: State, b: int)
    requires Safe(s) && OncePerDelivery(s, b) && Enabled(s, Publish) && b >= 0
    ensures OncePerDelivery(Do(s, Publish), b)
  {
    var t := Do(s, Publish);
    forall j | 0 <= j < |t.jobs| ensures Load(t, j, b) <= Min(t.jobs[j].times, b) {
      if j == |s.jobs| {
        forall c | 0 <= c < |t.consumers| ensures Awaits(j, b)(t.consumers[c]) == 0 {
          assert ConsumerOk(s.jobs, s.consumers[c], s.max);
          TotalZero(t.consumers[c].todo, Counts(j, b));
        }
        TotalZero(t.consumers, Awaits(j, b));
      } else {
        assert Load(t, j, b) == Load(s, j, b);
      }
    }
  }

  // ---- never beyond the threshold, when the counts are there ---------------------------------

  /** The answer of the pending query lists everything the claimer has in its batch. */
  predicate Covers(s: State, e: Step) {
    e.Count? && e.c < |s.consumers| ==>
      forall k :: 0 <= k < |s.consumers[e.c].todo| ==> s.consumers[e.c].todo[k].entry in e.covered
  }

  ghost predicate CoveredRun(s: State, es: seq<Step>)
    decreases |es|
  {
    es == [] || (Enabled(s, es[0]) ==> Covers(s, es[0]) && CoveredRun(Do(s, es[0]), es[1..]))
  }

  /** A claimer past its count knows a count at least the number of each delivery in its batch. */
  predicate Knows(x: Consumer) {
    x.claimer && !x.doing.Filling? && !x.doing.Counting? ==>
      forall k :: 0 <= k < |x.todo| ==> x.todo[k].entry in x.counts && x.counts[x.todo[k].entry] >= x.todo[k].delivery
  }

  ghost predicate AllKnow(s: State) {
    forall c :: 0 <= c < |s.consumers| ==> Knows(s.consumers[c])
  }

  lemma StepKnows(s: State, e: Step)
    requires Safe(s) && AllKnow(s) && Enabled(s, e) && Covers(s, e)
    ensures AllKnow(Do(s, e))
  {
    StepOnward(s, e);
    if !e.Publish? {
      assert Knows(s.consumers[e.c]) && ConsumerOk(s.jobs, s.consumers[e.c], s.max);
      assert Knows(Do(s, e).consumers[e.c]);
    }
  }

  /** At least one: a first delivery is always handled, whatever the threshold. */
  function Limit(max: int): nat {
    if max >= 1 then max else 1
  }

  lemma NextIsWithin(s: State, c: nat)
    requires Safe(s) && AllKnow(s) && Enabled(s, Next(c))
    ensures Within(s.consumers[c], s.max, Limit(s.max))
  {
    assert Knows(s.consumers[c]) && ConsumerOk(s.jobs, s.consumers[c], s.max);
  }

  lemma StepCovered(s: State, e: Step)
    requires Safe(s) && AllKnow(s) && OncePerDelivery(s, Limit(s.max)) && Enabled(s, e) && Covers(s, e)
    ensures Safe(Do(s, e)) && AllKnow(Do(s, e)) && OncePerDelivery(Do(s, e), Limit(s.max)) && Do(s, e).max == s.max
  {
    StepSafe(s, e);
    StepKnows(s, e);
    StepOnward(s, e);
    if e.Publish? {
      PublishOnce(s, Limit(s.max));
    } else {
      if e.Next? {
        NextIsWithin(s, e.c);
      }
      StepOnce(s, e, Limit(s.max));
      assert |Do(s, e).jobs| == |s.jobs|;
    }
  }

  lemma {:induction false} RunCovered(s: State, es: seq<Step>, t: State)
    requires Safe(s) && AllKnow(s) && OncePerDelivery(s, Limit(s.max)) && Runs(s, es, t) && CoveredRun(s, es)
    ensures OncePerDelivery(t, Limit(s.max))
    decreases |es|
  {
    if es != [] {
      StepCovered(s, es[0]);
      RunCovered(Do(s, es[0]), es[1..], t);
    }
  }

  /** When the pending queries cover the claimed entries, no entry is handled more than max times, or once if max is
      less. */
  lemma HandledAtMost(s: State, es: seq<Step>, t: State, j: nat)
    requires Start(s) && Runs(s, es, t) && CoveredRun(s, es) && j < |t.jobs|
    ensures t.jobs[j].entered <= if s.max >= 1 then s.max else 1
    ensures t.jobs[j].entered <= t.jobs[j].times
  {
    RunCovered(s, es, t);
    assert Load(t, j, Limit(s.max)) <= Min(t.jobs[j].times, Limit(s.max));
  }

  // ---- a batch gone through ------------------------------------------------------------------

  /** An entry becomes acknowledged only by an acknowledgement that got through, of the consumer that is at it. */
  lemma AckedOnlyByAck(s: State, e: Step, j: nat)
    requires Enabled(s, e) && j < |s.jobs|
    ensures s.jobs[j].status != Acked && Do(s, e).jobs[j].status == Acked ==>
              e.Ack? && e.ok && s.consumers[e.c].doing == Acking(j)
    ensures s.jobs[j].status == Acked ==> Do(s, e).jobs[j].status == Acked
  {
  }

  /** The consumer is not cut short, and its acknowledgements and its copies get through. */
  predicate GoesWell(es: seq<Step>, c: nat) {
    forall i :: 0 <= i < |es| ==>
      es[i] != Crash(c) && es[i] != Cancel(c) && es[i] != Rest(c) && es[i] != Ack(c, false) && es[i] != Copy(c, false)
  }

  /** The entry is still in the consumer's batch, or the consumer is at it, or it is acknowledged. */
  predicate OnItsWay(s: State, c: nat, j: nat)
    requires c < |s.consumers| && j < |s.jobs|
  {
    || s.jobs[j].status == Acked
    || (exists k :: 0 <= k < |s.consumers[c].todo| && s.consumers[c].todo[k].entry == j)
    || s.consumers[c].doing == Handling(j) || s.consumers[c].doing == Copying(j) || s.consumers[c].doing == Acking(j)
  }

  lemma StillOnItsWay(s: State, e: Step, c: nat, j: nat)
    requires Enabled(s, e) && c < |s.consumers| && j < |s.jobs| && OnItsWay(s, c, j) && GoesWell([e], c)
    ensures OnItsWay(Do(s, e), c, j)
  {
    assert e == [e][0];
    AckedOnlyByAck(s, e, j);
    if s.jobs[j].status != Acked {
      if k: nat :| k < |s.consumers[c].todo| && s.consumers[c].todo[k].entry == j {
        TodoKept(s, e, c, k);
      }
    }
  }

  /** The k-th entry of the batch stays in it, one further on once the first is taken up. */
  lemma TodoKept(s: State, e: Step, c: nat, k: nat)
    requires Enabled(s, e) && c < |s.consumers| && k < |s.consumers[c].todo| && GoesWell([e], c)
    ensures var (x, y) := (s.consumers[c], Do(s, e).consumers[c]);
            if e == Next(c) then
              if k > 0 then k - 1 < |y.todo| && y.todo[k - 1] == x.todo[k]
              else y.doing == Handling(x.todo[0].entry) || y.doing == Copying(x.todo[0].entry)
            else k < |y.todo| && y.todo[k] == x.todo[k]
  {
    assert e == [e][0];
  }

  /** A consumer that goes through its batch, neither crashing nor cancelled and with its acknowledgements and copies
      getting through, leaves no entry of it unacknowledged, whatever the others do meanwhile. */
  lemma {:induction false} BatchIsAcked(s: State, es: seq<Step>, t: State, c: nat, j: nat)
    requires Runs(s, es, t) && c < |s.consumers| && j < |s.jobs| && OnItsWay(s, c, j) && GoesWell(es, c)
    ensures c < |t.consumers| && j < |t.jobs| && OnItsWay(t, c, j)
    ensures t.consumers[c].todo == [] && t.consumers[c].doing == Going ==> t.jobs[j].status == Acked
    decreases |es|
  {
    if es != [] {
      assert es[0] == [es[0]][0];
      StillOnItsWay(s, es[0], c, j);
      assert forall i :: 0 <= i < |es[1..]| ==> es[1..][i] == es[i + 1];
      BatchIsAcked(Do(s, es[0]), es[1..], t, c, j);
    }
  }

  /** Cut short in the middle of an entry, a consumer goes on to acknowledge that one and leaves the others of its batch
      as they are; crashing it leaves them all. */
  lemma CutShort(s: State, c: nat)
    requires c < |s.consumers|
    ensures Enabled(s, Cancel(c)) ==>
              var t := Do(s, Cancel(c));
              t.jobs == s.jobs && t.consumers[c].todo == [] &&
                t.consumers[c].doing == Acking(s.consumers[c].doing.entry)
    ensures Enabled(s, Crash(c)) ==>
              var t := Do(s, Crash(c));
              t.jobs == s.jobs && t.consumers[c].todo == [] && t.consumers[c].doing == Filling
  {
  }

  // ---- when they are not ---------------------------------------------------------------------

  /** Nobody holds anything. */
  predicate Quiet(s: State) {
    forall i :: 0 <= i < |s.consumers| ==> s.consumers[i].todo == [] && s.consumers[i].doing == Filling
  }

  /** A single entry, pending after its consumer went down, and an idle claimer. */
  predicate Stuck(s: State, c: nat) {
    && Quiet(s) && c < |s.consumers| && s.consumers[c].claimer
    && |s.jobs| == 1 && s.jobs[0].status == Pending && s.max >= 0
  }

  /** The claimer takes the entry over, and its pending query misses it. */
  lemma ClaimUncovered(s: State, c: nat) returns (t: State)
    requires Stuck(s, c)
    ensures Runs(s, [Deliver(c, 0), EndBatch(c), Count(c, {})], t) && t.max == s.max
    ensures t.jobs == [s.jobs[0].(times := s.jobs[0].times + 1)]
    ensures |t.consumers| == |s.consumers| && t.consumers == s.consumers[c := t.consumers[c]]
    ensures t.consumers[c].claimer && t.consumers[c].doing == Going && 0 !in t.consumers[c].counts
    ensures t.consumers[c].todo == [Item(0, s.jobs[0].times + 1)]
  {
    var s1 := Do(s, Deliver(c, 0));
    var s2 := Do(s1, EndBatch(c));
    t := Do(s2, Count(c, {}));
    assert Runs(s2, [Count(c, {})], t) by { assert [Count(c, {})][1..] == []; }
    assert [EndBatch(c), Count(c, {})][1..] == [Count(c, {})];
    assert [Deliver(c, 0), EndBatch(c), Count(c, {})][1..] == [EndBatch(c), Count(c, {})];
  }

  /** A consumer that does not find the entry above the threshold hands it to _handle_one and goes down. */
  lemma HandleAndCrash(s: State, c: nat) returns (t: State)
    requires WellFormed(s) && |s.jobs| == 1 && c < |s.consumers| && s.consumers[c].doing == Going
    requires |s.consumers[c].todo| == 1 && s.consumers[c].todo[0].entry == 0
    requires s.consumers[c].claimer ==> 0 !in s.consumers[c].counts && s.max >= 0
    ensures Runs(s, [Next(c), Crash(c)], t) && t.max == s.max
    ensures t.jobs == [s.jobs[0].(entered := s.jobs[0].entered + 1)]
    ensures |t.consumers| == |s.consumers| && t.consumers == s.consumers[c := t.consumers[c]]
    ensures t.consumers[c].claimer == s.consumers[c].claimer && t.consumers[c].doing == Filling &&
            t.consumers[c].todo == []
  {
    var s1 := Do(s, Next(c));
    t := Do(s1, Crash(c));
    assert Runs(s1, [Crash(c)], t) by { assert [Crash(c)][1..] == []; }
    assert [Next(c), Crash(c)][1..] == [Crash(c)];
  }

  /** One claimer whose pending query misses the entry: each round hands the entry to _handle_one once more. */
  function Round(c: nat): seq<Step> {
    [Deliver(c, 0), EndBatch(c), Count(c, {})] + [Next(c), Crash(c)]
  }

  lemma RoundRuns(s: State, c: nat) returns (t: State)
    requires Stuck(s, c)
    ensures Runs(s, Round(c), t) && Stuck(t, c) && t.max == s.max
    ensures t.jobs[0].entered == s.jobs[0].entered + 1
  {
    var mid := ClaimUncovered(s, c);
    t := HandleAndCrash(mid, c);
    RunsConcat(s, [Deliver(c, 0), EndBatch(c), Count(c, {})], mid, [Next(c), Crash(c)], t);
  }

  lemma {:induction false} RunsConcat(s: State, es: seq<Step>, t: State, fs: seq<Step>, u: State)
    requires Runs(s, es, t) && Runs(t, fs, u)
    ensures Runs(s, es + fs, u)
    decreases |es|
  {
    if es == [] {
      assert es + fs == fs;
    } else {
      RunsConcat(Do(s, es[0]), es[1..], t, fs, u);
      assert (es + fs)[1..] == es[1..] + fs;
    }
  }

  lemma {:induction false} Rounds(s: State, c: nat, n: nat) returns (es: seq<Step>, t: State)
    requires Stuck(s, c)
    ensures Runs(s, es, t) && |t.jobs| == 1 && t.jobs[0].entered == s.jobs[0].entered + n
    decreases n
  {
    es, t := [], s;
    if n > 0 {
      var mid := RoundRuns(s, c);
      var rest;
      rest, t := Rounds(mid, c, n - 1);
      RunsConcat(s, Round(c), mid, rest, t);
      es := Round(c) + rest;
    }
  }

  /** From the start: an entry is published, read by a slot, and its consumer goes down while handling it. */
  lemma FirstCrash(s: State, slot: nat) returns (es: seq<Step>, t: State)
    requires Start(s) && slot < |s.consumers| && !s.consumers[slot].claimer
    ensures Runs(s, es, t) && Quiet(t) && t.max == s.max && t.jobs == [Job(Pending, 1, 1, 0)]
    ensures |t.consumers| == |s.consumers|
    ensures forall i :: 0 <= i < |s.consumers| ==> t.consumers[i].claimer == s.consumers[i].claimer
  {
    var s1 := Do(s, Publish);
    var s2 := Do(s1, Deliver(slot, 0));
    var s3 := Do(s2, EndBatch(slot));
    assert Runs(s2, [EndBatch(slot)], s3) by { assert [EndBatch(slot)][1..] == []; }
    assert Runs(s1, [Deliver(slot, 0), EndBatch(slot)], s3) by {
      assert [Deliver(slot, 0), EndBatch(slot)][1..] == [EndBatch(slot)];
    }
    assert [Publish, Deliver(slot, 0), EndBatch(slot)][1..] == [Deliver(slot, 0), EndBatch(slot)];
    t := HandleAndCrash(s3, slot);
    RunsConcat(s, [Publish, Deliver(slot, 0), EndBatch(slot)], s3, [Next(slot), Crash(slot)], t);
    es := [Publish, Deliver(slot, 0), EndBatch(slot)] + [Next(slot), Crash(slot)];
  }

  /** Some run hands some entry to _handle_one at least n times. */
  ghost predicate Reaches(s: State, n: nat) {
    exists es, t, j: nat :: Runs(s, es, t) && j < |t.jobs| && t.jobs[j].entered >= n
  }

  /** There are a slot to read entries and a claimer to take them over, and the threshold lets a missing count, 0,
      pass. */
  predicate CanRepeat(s: State) {
    && (exists i :: 0 <= i < |s.consumers| && !s.consumers[i].claimer)
    && (exists i :: 0 <= i < |s.consumers| && s.consumers[i].claimer)
    && s.max >= 0
  }

  /** Without covering counts nothing bounds how often an entry is handled, as soon as it can be handled twice at
      all. */
  lemma UncoveredHasNoBound(s: State)
    requires Start(s)
    ensures (forall n: nat :: Reaches(s, n)) <==> CanRepeat(s)
    ensures !CanRepeat(s) ==> !Reaches(s, 2)
  {
    if CanRepeat(s) {
      var slot: nat :| slot < |s.consumers| && !s.consumers[slot].claimer;
      var c: nat :| c < |s.consumers| && s.consumers[c].claimer;
      forall n: nat ensures Reaches(s, n) {
        var first, mid := FirstCrash(s, slot);
        var rest, t := Rounds(mid, c, n);
        RunsConcat(s, first, mid, rest, t);
        assert t.jobs[0].entered >= n;
      }
    } else {
      forall es, t, j: nat | Runs(s, es, t) && j < |t.jobs| ensures t.jobs[j].entered <= 1 {
        if forall i :: 0 <= i < |s.consumers| ==> s.consumers[i].claimer {
          RunUntouched(s, es, t);
          RunSafe(s, es, t);
          assert JobOk(t.jobs[j], t.max);
        } else {
          RunTame(s, es, t);
          assert Load(t, j, 1) <= Min(t.jobs[j].times, 1);
        }
      }
      assert !Reaches(s, 2);
    }
  }

  /** No slot has read anything, so no claimer has anything to take over. */
  predicate Untouched(s: State) {
    && Quiet(s)
    && (forall i :: 0 <= i < |s.consumers| ==> s.consumers[i].claimer)
    && (forall j :: 0 <= j < |s.jobs| ==> s.jobs[j].status == Unread)
  }

  lemma {:induction false} RunUntouched(s: State, es: seq<Step>, t: State)
    requires Untouched(s) && Runs(s, es, t)
    ensures Untouched(t)
    decreases |es|
  {
    if es != [] {
      assert es[0].Publish? || es[0].Crash?;
      RunUntouched(Do(s, es[0]), es[1..], t);
    }
  }

  /** No claimer ever handles: there is none, or every count found is above the threshold. */
  predicate Tame(s: State) {
    s.max < 0 || forall i :: 0 <= i < |s.consumers| ==> !s.consumers[i].claimer
  }

  lemma TameStays(s: State, e: Step)
    requires Tame(s) && Enabled(s, e)
    ensures Tame(Do(s, e))
  {
    StepOnward(s, e);
    if !e.Publish? {
      assert Do(s, e).consumers[e.c].claimer == s.consumers[e.c].claimer;
    }
  }

  lemma NextIsTame(s: State, c: nat)
    requires Safe(s) && Tame(s) && Enabled(s, Next(c))
    ensures Within(s.consumers[c], s.max, 1)
  {
    assert ConsumerOk(s.jobs, s.consumers[c], s.max);
  }

  lemma StepTame(s: State, e: Step)
    requires Safe(s) && Tame(s) && OncePerDelivery(s, 1) && Enabled(s, e)
    ensures OncePerDelivery(Do(s, e), 1)
  {
    if e.Publish? {
      PublishOnce(s, 1);
    } else {
      if e.Next? {
        NextIsTame(s, e.c);
      }
      StepOnce(s, e, 1);
      assert |Do(s, e).jobs| == |s.jobs|;
    }
  }

  lemma {:induction false} RunTame(s: State, es: seq<Step>, t: State)
    requires Safe(s) && Tame(s) && OncePerDelivery(s, 1) && Runs(s, es, t)
    ensures OncePerDelivery(t, 1)
    decreases |es|
  {
    if es != [] {
      StepSafe(s, es[0]);
      TameStays(s, es[0]);
      StepTame(s, es[0]);
      RunTame(Do(s, es[0]), es[1..], t);
    }
  }
}
