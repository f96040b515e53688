// One event type's queue and workers under a scaling pool (backend/eventbus_subscriber.py).
module Subscriber {
  import opened Totals

  datatype Lane = User | Bg

  // An entry is known by its stream and its position there.
  datatype Entry = Entry(lane: Lane, at: nat)

  // A worker waits on the queue, or is dispatching an entry and has run the first ran of its handlers.
  datatype Worker = Idle | Dispatching(entry: Entry, ran: nat)

  // How the pool is set up: the queue's bound (none when not positive), the pool's bounds, the depth at which it grows,
  // and how many handlers the type has.
  datatype Setup = Setup(cap: int, minWorkers: nat, maxWorkers: nat, threshold: nat, handlers: nat)

  // userNext and bgNext are where the two consume loops stand in their streams. puts, starts, runs, acks, skips and cut
  // are history: what was enqueued, taken up, run (entry, handler), acknowledged by a worker, acknowledged unqueued,
  // and cancelled with how many handlers run.
  datatype State = State(setup: Setup, userNext: nat, bgNext: nat, queue: seq<Entry>, workers: seq<Worker>,
                         puts: seq<Entry>, starts: seq<Entry>, runs: seq<(Entry, nat)>, acks: seq<Entry>,
                         skips: seq<Entry>, cut: seq<(Entry, nat)>)

  // Pass: the lane's next entry is for another type or another consumer. Skip: it is acknowledged at once. Put: it is
  // queued.
  datatype Step = Pass(lane: Lane) | Skip(lane: Lane) | Put(lane: Lane) | Get(w: nat) | RunOne(w: nat) | Finish(w: nat)
    | Spawn | Retire

  /** Put waits while a bounded queue is full; the pool grows at its threshold and shrinks on an empty queue. */
  predicate Enabled(s: State, e: Step) {
    match e
    case Pass(_) => true
    case Skip(_) => true
    case Put(_) => !(s.setup.cap > 0 && |s.queue| >= s.setup.cap)
    case Get(w) => w < |s.workers| && s.workers[w].Idle? && s.queue != []
    case RunOne(w) => w < |s.workers| && s.workers[w].Dispatching? && s.workers[w].ran < s.setup.handlers
    case Finish(w) => w < |s.workers| && s.workers[w].Dispatching? && s.workers[w].ran >= s.setup.handlers
    case Spawn => |s.workers| < s.setup.maxWorkers && |s.queue| >= s.setup.threshold
    case Retire => |s.workers| > s.setup.minWorkers && s.queue == []
  }

  /** The lane's next entry. */
  function Next(s: State, lane: Lane): Entry {
    Entry(lane, if lane == User then s.userNext else s.bgNext)
  }

  function Read(s: State, lane: Lane): State {
    if lane == User then s.(userNext := s.userNext + 1) else s.(bgNext := s.bgNext + 1)
  }

  function Do(s: State, e: Step): State
    requires Enabled(s, e)
  {
    match e
    case Pass(lane) => Read(s, lane)
    case Skip(lane) => Read(s, lane).(skips := s.skips + [Next(s, lane)])
    case Put(lane) => Read(s, lane).(queue := s.queue + [Next(s, lane)], puts := s.puts + [Next(s, lane)])
    case Get(w) =>
      s.(queue := s.queue[1..], workers := s.workers[w := Dispatching(s.queue[0], 0)],
         starts := s.starts + [s.queue[0]])
    case RunOne(w) =>
      var entry, ran := s.workers[w].entry, s.workers[w].ran;
      s.(workers := s.workers[w := Dispatching(entry, ran + 1)], runs := s.runs + [(entry, ran)])
    case Finish(w) => s.(workers := s.workers[w := Idle], acks := s.acks + [s.workers[w].entry])
    case Spawn => s.(workers := s.workers + [Idle])
    case Retire =>
      // The youngest worker is cancelled; if it is dispatching, its entry is acknowledged on the way out.
      var rest, last := s.workers[..|s.workers| - 1], s.workers[|s.workers| - 1];
      match last
      case Idle => s.(workers := rest)
      case Dispatching(entry, ran) => s.(workers := rest, acks := s.acks + [entry], cut := s.cut + [(entry, ran)])
  }

  ghost predicate Runs(s: State, es: seq<Step>, t: State)
    decreases |es|
  {
    if es == [] then t == s else Enabled(s, es[0]) && Runs(Do(s, es[0]), es[1..], t)
  }

  predicate Start(s: State) {
    && s.userNext == s.bgNext == 0 && s.queue == s.puts == s.starts == s.acks == s.skips == [] && s.runs == s.cut == []
    && |s.workers| == s.setup.minWorkers <= s.setup.maxWorkers &&
         forall i :: 0 <= i < |s.workers| ==> s.workers[i] == Idle
  }

  // ---- counting ------------------------------------------------------------------------------

  function Is(entry: Entry): Entry -> nat {
    (x: Entry) => if x == entry then 1 else 0
  }

  function Has(entry: Entry): Worker -> nat {
    (w: Worker) => if w.Dispatching? && w.entry == entry then 1 else 0
  }

  /** The k-th handler has run for the entry the worker has. */
  function RanBy(entry: Entry, k: nat): Worker -> nat {
    (w: Worker) => if w.Dispatching? && w.entry == entry && k < w.ran then 1 else 0
  }

  function IsRun(entry: Entry, k: nat): ((Entry, nat)) -> nat {
    (r: (Entry, nat)) => if r == (entry, k) then 1 else 0
  }

  /** The entry was cut short before its k-th handler. */
  function CutBefore(entry: Entry, k: nat): ((Entry, nat)) -> nat {
    (c: (Entry, nat)) => if c.0 == entry && c.1 <= k then 1 else 0
  }

  /** What was queued is on the queue, with a worker, or acknowledged, as often as it was queued. */
  ghost predicate Kept(s: State) {
    forall entry: Entry ::
      Total(s.puts, Is(entry)) == Total(s.queue, Is(entry)) + Total(s.workers, Has(entry)) + Total(s.acks, Is(entry))
  }

  /** A handler has run once for each entry that is past it: held there or acknowledged, and not cut short before. */
  ghost predicate RunOnce(s: State) {
    forall entry: Entry, k: nat :: k < s.setup.handlers ==> RanOnce(s, entry, k)
  }

  ghost predicate RanOnce(s: State, entry: Entry, k: nat) {
    Total(s.runs, IsRun(entry, k)) + Total(s.cut, CutBefore(entry, k)) ==
    Total(s.workers, RanBy(entry, k)) + Total(s.acks, Is(entry))
  }

  ghost predicate FreshPuts(s: State) {
    && (forall entry: Entry :: Total(s.puts, Is(entry)) + Total(s.skips, Is(entry)) <= 1)
    && s.starts + s.queue == s.puts
    && forall i :: 0 <= i < |s.workers| && s.workers[i].Dispatching? ==> s.workers[i].ran <= s.setup.handlers
  }

  /** Entries of one lane come in the order of its stream. */
  predicate InStreamOrder(es: seq<Entry>) {
    forall i, j :: 0 <= i < j < |es| && es[i].lane == es[j].lane ==> es[i].at < es[j].at
  }

  predicate Behind(es: seq<Entry>, userNext: nat, bgNext: nat) {
    forall i :: 0 <= i < |es| ==> es[i].at < if es[i].lane == User then userNext else bgNext
  }

  /** Each lane's entries were queued in the order of its stream, all of them before where its loop stands. */
  predicate LaneOrder(s: State) {
    InStreamOrder(s.puts) && Behind(s.puts, s.userNext, s.bgNext) && Behind(s.skips, s.userNext, s.bgNext)
  }

  predicate Sized(s: State) {
    s.setup.minWorkers <= |s.workers| <= s.setup.maxWorkers && (s.setup.cap > 0 ==> |s.queue| <= s.setup.cap)
  }

  ghost predicate Inv(s: State) {
    Kept(s) && RunOnce(s) && FreshPuts(s) && LaneOrder(s) && Sized(s)
  }

  lemma StartInv(s: State)
    requires Start(s)
    ensures Inv(s)
  {
    forall entry: Entry ensures Total(s.workers, Has(entry)) == 0 {
      TotalZero(s.workers, Has(entry));
    }
    forall entry: Entry, k: nat ensures Total(s.workers, RanBy(entry, k)) == 0 {
      TotalZero(s.workers, RanBy(entry, k));
    }
  }

  lemma StepKept(s: State, e: Step)
    requires Kept(s) && Enabled(s, e)
    ensures Kept(Do(s, e))
  {
    var t := Do(s, e);
    forall entry: Entry
      ensures Total(t.puts, Is(entry)) ==
              Total(t.queue, Is(entry)) + Total(t.workers, Has(entry)) + Total(t.acks, Is(entry))
    {
      match e
      case Put(lane) =>
        TotalSnoc(s.puts, Next(s, lane), Is(entry));
        TotalSnoc(s.queue, Next(s, lane), Is(entry));
      case Get(w) => TotalUpdate(s.workers, w, Dispatching(s.queue[0], 0), Has(entry));
      case RunOne(w) => TotalUpdate(s.workers, w, Dispatching(s.workers[w].entry, s.workers[w].ran + 1), Has(entry));
      case Finish(w) =>
        TotalUpdate(s.workers, w, Idle, Has(entry));
        TotalSnoc(s.acks, s.workers[w].entry, Is(entry));
      case Spawn => TotalSnoc(s.workers, Idle, Has(entry));
      case Retire => RetireTotals(s, Has(entry), entry);
      case _ =>
    }
  }

  /** Retiring takes the last worker out of a total, and its entry into the acknowledged ones. */
  lemma RetireTotals(s: State, f: Worker -> nat, entry: Entry)
    requires Enabled(s, Retire)
    ensures Total(s.workers, f) == Total(Do(s, Retire).workers, f) + f(s.workers[|s.workers| - 1])
    ensures Total(Do(s, Retire).acks, Is(entry)) == Total(s.acks, Is(entry)) + Has(entry)(s.workers[|s.workers| - 1])
  {
    var rest, last := s.workers[..|s.workers| - 1], s.workers[|s.workers| - 1];
    assert s.workers == rest + [last];
    TotalSnoc(rest, last, f);
    if last.Dispatching? {
      TotalSnoc(s.acks, last.entry, Is(entry));
    }
  }

  lemma RunOneRanOnce(s: State, w: nat, entry: Entry, k: nat)
    requires RanOnce(s, entry, k) && Enabled(s, RunOne(w))
    ensures RanOnce(Do(s, RunOne(w)), entry, k)
  {
    TotalUpdate(s.workers, w, Dispatching(s.workers[w].entry, s.workers[w].ran + 1), RanBy(entry, k));
    TotalSnoc(s.runs, (s.workers[w].entry, s.workers[w].ran), IsRun(entry, k));
  }

  lemma FinishRanOnce(s: State, w: nat, entry: Entry, k: nat)
    requires RanOnce(s, entry, k) && k < s.setup.handlers && Enabled(s, Finish(w))
    ensures RanOnce(Do(s, Finish(w)), entry, k)
  {
    TotalUpdate(s.workers, w, Idle, RanBy(entry, k));
    TotalSnoc(s.acks, s.workers[w].entry, Is(entry));
  }

  lemma StepRanOnce(s: State, e: Step, entry: Entry, k: nat)
    requires RanOnce(s, entry, k) && k < s.setup.handlers && Enabled(s, e) && e != Retire
    ensures RanOnce(Do(s, e), entry, k)
  {
    match e
    case Get(w) => TotalUpdate(s.workers, w, Dispatching(s.queue[0], 0), RanBy(entry, k));
    case RunOne(w) => RunOneRanOnce(s, w, entry, k);
    case Finish(w) => FinishRanOnce(s, w, entry, k);
    case Spawn => TotalSnoc(s.workers, Idle, RanBy(entry, k));
    case _ =>
  }

  lemma RetireRanOnce(s: State, entry: Entry, k: nat)
    requires RanOnce(s, entry, k) && k < s.setup.handlers && Enabled(s, Retire)
    ensures RanOnce(Do(s, Retire), entry, k)
  {
    var last := s.workers[|s.workers| - 1];
    RetireTotals(s, RanBy(entry, k), entry);
    if last.Dispatching? {
      TotalSnoc(s.cut, (last.entry, last.ran), CutBefore(entry, k));
    }
  }

  lemma StepRunOnce(s: State, e: Step)
    requires RunOnce(s) && Enabled(s, e)
    ensures RunOnce(Do(s, e))
  {
    forall entry: Entry, k: nat | k < s.setup.handlers ensures RanOnce(Do(s, e), entry, k) {
      assert RanOnce(s, entry, k);
      if e == Retire {
        RetireRanOnce(s, entry, k);
      } else {
        StepRanOnce(s, e, entry, k);
      }
    }
  }

  lemma {:induction false} CountIfThere(s: seq<Entry>, entry: Entry)
    ensures Total(s, Is(entry)) > 0 <==> entry in s
  {
    if entry in s {
      var i :| 0 <= i < |s| && s[i] == entry;
      TotalAt(s, i, Is(entry));
    }
    if Total(s, Is(entry)) > 0 {
      var i := TotalWitness(s, Is(entry));
      assert s[i] == entry;
    }
  }

  lemma ReadKeeps(s: State, lane: Lane, es: seq<Entry>)
    requires Behind(es, s.userNext, s.bgNext)
    ensures Behind(es, Read(s, lane).userNext, Read(s, lane).bgNext)
    ensures Behind(es + [Next(s, lane)], Read(s, lane).userNext, Read(s, lane).bgNext)
    ensures InStreamOrder(es) ==> InStreamOrder(es + [Next(s, lane)])
  {
  }

  lemma StepLaneOrder(s: State, e: Step)
    requires LaneOrder(s) && Enabled(s, e)
    ensures LaneOrder(Do(s, e))
  {
    if e.Pass? || e.Skip? || e.Put? {
      ReadKeeps(s, e.lane, s.puts);
      ReadKeeps(s, e.lane, s.skips);
    }
  }

  lemma NextIsNew(s: State, lane: Lane)
    requires LaneOrder(s)
    ensures Total(s.puts, Is(Next(s, lane))) == 0 && Total(s.skips, Is(Next(s, lane))) == 0
  {
    CountIfThere(s.puts, Next(s, lane));
    CountIfThere(s.skips, Next(s, lane));
  }

  lemma StepReads(s: State, e: Step, entry: Entry)
    requires Enabled(s, e) && (e.Put? || e.Skip?)
    ensures Total(Do(s, e).puts, Is(entry)) + Total(Do(s, e).skips, Is(entry)) ==
            Total(s.puts, Is(entry)) + Total(s.skips, Is(entry)) + Is(entry)(Next(s, e.lane))
  {
    TotalSnoc(s.puts, Next(s, e.lane), Is(entry));
    TotalSnoc(s.skips, Next(s, e.lane), Is(entry));
  }

  lemma StepQueueSplit(s: State, e: Step)
    requires s.starts + s.queue == s.puts && Enabled(s, e)
    ensures Do(s, e).starts + Do(s, e).queue == Do(s, e).puts
  {
    if e.Get? {
      assert s.starts + s.queue == s.starts + [s.queue[0]] + s.queue[1..];
    } else if e.Put? {
      assert s.starts + s.queue + [Next(s, e.lane)] == s.starts + (s.queue + [Next(s, e.lane)]);
    }
  }

  lemma StepFreshPuts(s: State, e: Step)
    requires FreshPuts(s) && LaneOrder(s) && Enabled(s, e)
    ensures FreshPuts(Do(s, e))
  {
    var t := Do(s, e);
    StepQueueSplit(s, e);
    forall entry: Entry ensures Total(t.puts, Is(entry)) + Total(t.skips, Is(entry)) <= 1 {
      if e.Put? || e.Skip? {
        NextIsNew(s, e.lane);
        StepReads(s, e, entry);
      }
    }
  }

  lemma StepInv(s: State, e: Step)
    requires Inv(s) && Enabled(s, e)
    ensures Inv(Do(s, e)) && Do(s, e).setup == s.setup
  {
    StepKept(s, e);
    StepRunOnce(s, e);
    StepLaneOrder(s, e);
    StepFreshPuts(s, e);
  }

  lemma {:induction false} RunInv(s: State, es: seq<Step>, t: State)
    requires Inv(s) && Runs(s, es, t)
    ensures Inv(t) && t.setup == s.setup
    decreases |es|
  {
    if es != [] {
      StepInv(s, es[0]);
      RunInv(Do(s, es[0]), es[1..], t);
    }
  }

  // ---- what every run keeps ------------------------------------------------------------------

  /** In every reachable state, whatever is spawned and retired: an entry is acknowledged at most once, only off the
      queue. */
  lemma AckedAtMostOnce(s: State, es: seq<Step>, t: State, entry: Entry)
    requires Start(s) && Runs(s, es, t)
    ensures Total(t.acks, Is(entry)) + Total(t.skips, Is(entry)) <= 1
    ensures entry in t.acks ==> entry !in t.queue && Total(t.workers, Has(entry)) == 0
  {
    StartInv(s);
    RunInv(s, es, t);
    assert Total(t.puts, Is(entry)) + Total(t.skips, Is(entry)) <= 1;
    CountIfThere(t.acks, entry);
    CountIfThere(t.queue, entry);
  }

  /** Each handler of an acknowledged entry ran exactly once, or not at all exactly when the entry was cut short before
      it. */
  lemma HandlersOfAcked(s: State, es: seq<Step>, t: State, entry: Entry, k: nat)
    requires Start(s) && Runs(s, es, t) && entry in t.acks && k < t.setup.handlers
    ensures Total(t.runs, IsRun(entry, k)) + Total(t.cut, CutBefore(entry, k)) == 1
  {
    AckedAtMostOnce(s, es, t, entry);
    StartInv(s);
    RunInv(s, es, t);
    CountIfThere(t.acks, entry);
    assert RanOnce(t, entry, k);
    if Total(t.workers, RanBy(entry, k)) > 0 {
      var i := TotalWitness(t.workers, RanBy(entry, k));
      TotalAt(t.workers, i, Has(entry));
    }
  }

  /** The pool is pinned, or its queue is too short ever to reach the depth at which it grows. */
  predicate NeverGrows(setup: Setup) {
    setup.minWorkers == setup.maxWorkers || 0 < setup.cap < setup.threshold
  }

  /** A pool pinned to n, like any that never grows, has n workers forever and cuts nothing short. */
  lemma {:induction false} PinnedPool(s: State, es: seq<Step>, t: State)
    requires Inv(s) && NeverGrows(s.setup) && |s.workers| == s.setup.minWorkers && Runs(s, es, t)
    ensures |t.workers| == s.setup.minWorkers && t.cut == s.cut
    decreases |es|
  {
    if es != [] {
      StepInv(s, es[0]);
      PinnedPool(Do(s, es[0]), es[1..], t);
    }
  }

  /** Entries start in the order they were queued, and each lane's in the order of its stream, whatever the number of
      workers. */
  lemma StartsInOrder(s: State, es: seq<Step>, t: State)
    requires Start(s) && Runs(s, es, t)
    ensures t.starts + t.queue == t.puts
    ensures InStreamOrder(t.starts)
  {
    StartInv(s);
    RunInv(s, es, t);
    assert forall i :: 0 <= i < |t.starts| ==> t.starts[i] == t.puts[i];
  }

  // ---- one worker ----------------------------------------------------------------------------

  function HandlersOf(entry: Entry, n: nat): seq<(Entry, nat)> {
    seq(n, k requires 0 <= k < n => (entry, k))
  }

  function AllOf(entries: seq<Entry>, n: nat): seq<(Entry, nat)> {
    if entries == [] then [] else AllOf(entries[..|entries| - 1], n) + HandlersOf(entries[|entries| - 1], n)
  }

  /** One worker has run all handlers of all it finished, in order, and the first few of what it has. */
  ghost predicate Serial(s: State) {
    && |s.workers| == s.setup.minWorkers == s.setup.maxWorkers == 1
    && match s.workers[0]
       case Idle => s.starts == s.acks && s.runs == AllOf(s.acks, s.setup.handlers)
       case Dispatching(entry, ran) =>
         ran <= s.setup.handlers && s.starts == s.acks + [entry] &&
           s.runs == AllOf(s.acks, s.setup.handlers) + HandlersOf(entry, ran)
  }

  lemma StepSerial(s: State, e: Step)
    requires Serial(s) && Enabled(s, e)
    ensures Serial(Do(s, e))
  {
    match e
    case Get(w) => assert AllOf(s.acks, s.setup.handlers) + HandlersOf(s.queue[0], 0) ==
      AllOf(s.acks, s.setup.handlers);
    case RunOne(w) =>
      var entry, ran := s.workers[0].entry, s.workers[0].ran;
      assert HandlersOf(entry, ran + 1) == HandlersOf(entry, ran) + [(entry, ran)];
    case Finish(w) =>
      var entry := s.workers[0].entry;
      assert (s.acks + [entry])[..|s.acks|] == s.acks;
    case _ =>
  }

  lemma {:induction false} RunSerial(s: State, es: seq<Step>, t: State)
    requires Serial(s) && Runs(s, es, t)
    ensures Serial(t)
    decreases |es|
  {
    if es != [] {
      StepSerial(s, es[0]);
      RunSerial(Do(s, es[0]), es[1..], t);
    }
  }

  /** A type pinned to one worker handles its entries one after the other, in the order queued and so in each lane's
      order. */
  lemma OneWorkerIsSerial(s: State, es: seq<Step>, t: State)
    requires Start(s) && s.setup.minWorkers == s.setup.maxWorkers == 1 && Runs(s, es, t)
    ensures t.acks <= t.puts && |t.starts| <= |t.acks| + 1
    ensures AllOf(t.acks, t.setup.handlers) <= t.runs
    ensures InStreamOrder(t.acks)
  {
    StartInv(s);
    RunInv(s, es, t);
    RunSerial(s, es, t);
    assert t.acks <= t.starts;
    assert forall i :: 0 <= i < |t.acks| ==> t.acks[i] == t.puts[i];
  }

  // ---- what scaling down can cost ------------------------------------------------------------

  /** In every run every acknowledged entry has had each of its handlers run exactly once. */
  ghost predicate AlwaysRunsAll(s: State) {
    forall es, t, entry, k: nat ::
      Runs(s, es, t) && entry in t.acks && k < t.setup.handlers ==> Total(t.runs, IsRun(entry, k)) == 1
  }

  /** Every acknowledged entry always has all its handlers run, exactly when there are none or the pool never grows. */
  lemma RunsAllIff(s: State)
    requires Start(s)
    ensures AlwaysRunsAll(s) <==> s.setup.handlers == 0 || NeverGrows(s.setup)
  {
    StartInv(s);
    if s.setup.handlers == 0 || NeverGrows(s.setup) {
      forall es, t, entry, k: nat | Runs(s, es, t) && entry in t.acks && k < t.setup.handlers
        ensures Total(t.runs, IsRun(entry, k)) == 1
      {
        RunInv(s, es, t);
        PinnedPool(s, es, t);
        HandlersOfAcked(s, es, t, entry, k);
      }
    } else {
      var es, t, entry := RetiredMidway(s);
      assert Total(t.runs, IsRun(entry, 0)) == 0;
    }
  }

  /** Growing under load and retiring a worker in the middle of an entry acknowledges the entry with no handler run. */
  lemma RetiredMidway(s: State) returns (es: seq<Step>, t: State, entry: Entry)
    requires Start(s) && s.setup.handlers > 0 && !NeverGrows(s.setup)
    ensures Runs(s, es, t) && t.setup == s.setup && entry in t.acks && Total(t.runs, IsRun(entry, 0)) == 0
  {
    var n := if s.setup.threshold > 0 then s.setup.threshold else 1;
    var w := s.setup.minWorkers;
    var filling, full := Fill(s, n);
    var grown := Do(full, Spawn);
    RunsSnoc(s, filling, full, Spawn);
    var serving, served := ServeAllButOne(grown, w);
    RunsConcat(s, filling + [Spawn], grown, serving, served);
    var taken := Do(served, Get(w));
    RunsSnoc(s, filling + [Spawn] + serving, served, Get(w));
    t, entry := Do(taken, Retire), served.queue[0];
    RunsSnoc(s, filling + [Spawn] + serving + [Get(w)], taken, Retire);
    es := filling + [Spawn] + serving + [Get(w)] + [Retire];
    assert t.acks[|taken.acks|] == entry && t.cut[|taken.cut|] == (entry, 0);
    TotalAt(t.cut, |taken.cut|, CutBefore(entry, 0));
    HandlersOfAcked(s, es, t, entry, 0);
  }

  /** Queueing n entries before any worker takes one. */
  lemma {:induction false} Fill(s: State, n: nat) returns (es: seq<Step>, t: State)
    requires s.setup.cap > 0 ==> |s.queue| + n <= s.setup.cap
    ensures Runs(s, es, t) && t.setup == s.setup && t.workers == s.workers && |t.queue| == |s.queue| + n
    decreases n
  {
    es, t := [], s;
    if n > 0 {
      var rest;
      rest, t := Fill(Do(s, Put(User)), n - 1);
      es := [Put(User)] + rest;
      assert es[1..] == rest;
    }
  }

  /** An idle worker serves the queue until one entry is left. */
  lemma {:induction false} ServeAllButOne(s: State, w: nat) returns (es: seq<Step>, t: State)
    requires w < |s.workers| && s.workers[w] == Idle && s.queue != []
    ensures Runs(s, es, t) && t.setup == s.setup && |t.queue| == 1 && t.workers == s.workers
    decreases |s.queue|
  {
    es, t := [], s;
    if |s.queue| > 1 {
      var first, mid := RunAll(Do(s, Get(w)), w);
      assert mid.workers == s.workers;
      var rest;
      rest, t := ServeAllButOne(mid, w);
      es := [Get(w)] + first;
      assert es[1..] == first;
      RunsConcat(s, es, mid, rest, t);
      es := es + rest;
    }
  }

  /** A worker runs the handlers that are left for its entry and acknowledges it. */
  lemma {:induction false} RunAll(s: State, w: nat) returns (es: seq<Step>, t: State)
    requires w < |s.workers| && s.workers[w].Dispatching?
    ensures Runs(s, es, t) && t.setup == s.setup && t.queue == s.queue && t.workers == s.workers[w := Idle]
    decreases s.setup.handlers - s.workers[w].ran
  {
    if s.workers[w].ran < s.setup.handlers {
      var mid := Do(s, RunOne(w));
      var rest;
      rest, t := RunAll(mid, w);
      es := [RunOne(w)] + rest;
      assert es[1..] == rest;
      assert mid.workers[w := Idle] == s.workers[w := Idle];
    } else {
      es, t := [Finish(w)], Do(s, Finish(w));
      assert es[1..] == [];
    }
  }

  lemma RunsSnoc(s: State, es: seq<Step>, t: State, e: Step)
    requires Runs(s, es, t) && Enabled(t, e)
    ensures Runs(s, es + [e], Do(t, e))
  {
    assert [e][1..] == [];
    RunsConcat(s, es, t, [e], Do(t, e));
  }

  lemma {:induction false} RunsConcat(s: State, es: seq<Step>, t: State, fs: seq<Step>, u: State)
    requires Runs(s, es, t) && Runs(t, fs, u)
    ensures Runs(s, es + fs, u)
    decreases |es|
  {
    if es == [] {
      assert es + fs == fs;
    } else {
      RunsConcat(Do(s, es[0]), es[1..], t, fs, u);
      assert (es + fs)[1..] == es[1..] + fs;
    }
  }
}
