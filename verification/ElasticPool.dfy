// The auto-scaling pool of backend/eventbus_elastic.py: its size and when it must scale.
module ElasticPool {
  import opened Wrappers
  import opened PyText

  /** The bounds of a type's pool: a positive override pins both, anything else leaves the global ones. */
  function BoundsForType(override: string, defaultMin: int, defaultMax: int): (r: (int, int))
    ensures r.0 <= r.1
    ensures r.0 < r.1 ==> r == (defaultMin, defaultMax) && (ParseInt(override).None? || ParseInt(override).value <= 0)
  {
    var lo, hi := defaultMin, if defaultMax >= defaultMin then defaultMax else defaultMin;
    match ParseInt(override)
    case Some(n) => if n > 0 then (n, n) else (lo, hi)
    case None => (lo, hi)
  }

  /** The decimal of a positive number pins the pool to it; what is no positive numeral leaves the defaults. */
  lemma BoundsOf(override: string, defaultMin: int, defaultMax: int)
    ensures forall n: nat :: n > 0 && override == Digits(n) ==>
            BoundsForType(override, defaultMin, defaultMax) == (n, n)
    ensures forall digits, n :: n > 0 && IsNumeral(override, digits, n) ==>
              BoundsForType(override, defaultMin, defaultMax) == (n, n)
    ensures (forall digits, n :: IsNumeral(override, digits, n) ==> n <= 0) ==>
              var r := BoundsForType(override, defaultMin, defaultMax);
              r.0 == defaultMin && defaultMin <= r.1 && defaultMax <= r.1 && r.1 in {defaultMin, defaultMax}
  {
    forall n: nat | n > 0 && override == Digits(n)
      ensures BoundsForType(override, defaultMin, defaultMax) == (n, n)
    {
      ParseDecimal(n);
    }
    forall digits, n | IsNumeral(override, digits, n) ensures ParseInt(override) == Some(n) {
      NumeralIsRead(override, digits, n);
    }
    if ParseInt(override).Some? {
      ParseIntIff(override, ParseInt(override).value);
    }
  }

  // ---- one tick of the scaler, on values ---------------------------------------------------------

  datatype Config = Config(min: nat, max: nat, threshold: nat, up: real, down: real)

  // What the scaler goes by: the number of workers and since when the queue was long, or empty; 0.0 is "not now".
  datatype Scaler = Scaler(size: nat, high: real, idle: real)

  // What a tick of the scaler saw.
  datatype Tick = Tick(depth: nat, now: real)

  predicate MustGrow(c: Config, s: Scaler, t: Tick) {
    t.depth >= c.threshold && s.high != 0.0 && t.now - s.high >= c.up && s.size < c.max
  }

  predicate MustShrink(c: Config, s: Scaler, t: Tick) {
    t.depth == 0 && s.idle != 0.0 && t.now - s.idle >= c.down && s.size > c.min
  }

  function AfterUp(c: Config, s: Scaler, t: Tick): Scaler {
    if t.depth < c.threshold then s.(high := 0.0)
    else if MustGrow(c, s, t) then s.(size := s.size + 1, high := t.now)
    else if s.high == 0.0 then s.(high := t.now)
    else s
  }

  function AfterDown(c: Config, s: Scaler, t: Tick): Scaler {
    if t.depth > 0 then s.(idle := 0.0)
    else if MustShrink(c, s, t) then s.(size := s.size - 1, idle := t.now)
    else if s.idle == 0.0 then s.(idle := t.now)
    else s
  }

  function AfterTicks(c: Config, s: Scaler, ticks: seq<Tick>): Scaler
    decreases |ticks|
  {
    if ticks == [] then s else AfterTicks(c, AfterDown(c, AfterUp(c, s, ticks[0]), ticks[0]), ticks[1..])
  }

  /** A later time at every tick, and none at 0.0. */
  predicate Onward(ticks: seq<Tick>) {
    forall i :: 0 <= i < |ticks| ==> ticks[i].now > 0.0 && (i > 0 ==> ticks[i - 1].now <= ticks[i].now)
  }

  predicate Loaded(c: Config, ticks: seq<Tick>) {
    forall i :: 0 <= i < |ticks| ==> ticks[i].depth >= c.threshold && ticks[i].depth > 0
  }

  predicate Unused(ticks: seq<Tick>) {
    forall i :: 0 <= i < |ticks| ==> ticks[i].depth == 0
  }

  /** A queue that stays at the threshold for the cooldown makes a pool below its maximum grow. */
  lemma {:induction false} GrowsUnderLoad(c: Config, s: Scaler, ticks: seq<Tick>, since: real)
    requires ticks != [] && Onward(ticks) && Loaded(c, ticks) && s.size < c.max
    requires since <= ticks[0].now && (s.high != 0.0 ==> s.high <= since) && (s.high == 0.0 ==> since == ticks[0].now)
    requires ticks[|ticks| - 1].now - since >= c.up && (s.high == 0.0 ==> |ticks| > 1)
    ensures AfterTicks(c, s, ticks).size > s.size
    decreases |ticks|
  {
    var next := AfterDown(c, AfterUp(c, s, ticks[0]), ticks[0]);
    assert Loaded(c, ticks[1..]) && Onward(ticks[1..]);
    if MustGrow(c, s, ticks[0]) {
      NeverShrinksUnderLoad(c, next, ticks[1..]);
    } else {
      assert |ticks| > 1;
      GrowsUnderLoad(c, next, ticks[1..], since);
    }
  }

  lemma {:induction false} NeverShrinksUnderLoad(c: Config, s: Scaler, ticks: seq<Tick>)
    requires Loaded(c, ticks)
    ensures AfterTicks(c, s, ticks).size >= s.size
    decreases |ticks|
  {
    if ticks != [] {
      NeverShrinksUnderLoad(c, AfterDown(c, AfterUp(c, s, ticks[0]), ticks[0]), ticks[1..]);
    }
  }

  /** A queue that stays empty for the cooldown makes a pool above its minimum shrink. */
  lemma {:induction false} ShrinksWhenUnused(c: Config, s: Scaler, ticks: seq<Tick>, since: real)
    requires ticks != [] && Onward(ticks) && Unused(ticks) && c.threshold > 0 && c.min < s.size
    requires since <= ticks[0].now && (s.idle != 0.0 ==> s.idle <= since) && (s.idle == 0.0 ==> since == ticks[0].now)
    requires ticks[|ticks| - 1].now - since >= c.down && (s.idle == 0.0 ==> |ticks| > 1)
    ensures AfterTicks(c, s, ticks).size < s.size
    decreases |ticks|
  {
    var next := AfterDown(c, AfterUp(c, s, ticks[0]), ticks[0]);
    assert Unused(ticks[1..]) && Onward(ticks[1..]);
    if MustShrink(c, s, ticks[0]) {
      NeverGrowsUnused(c, next, ticks[1..]);
    } else {
      assert |ticks| > 1;
      ShrinksWhenUnused(c, next, ticks[1..], since);
    }
  }

  lemma {:induction false} NeverGrowsUnused(c: Config, s: Scaler, ticks: seq<Tick>)
    requires Unused(ticks) && c.threshold > 0
    ensures AfterTicks(c, s, ticks).size <= s.size
    decreases |ticks|
  {
    if ticks != [] {
      NeverGrowsUnused(c, AfterDown(c, AfterUp(c, s, ticks[0]), ticks[0]), ticks[1..]);
    }
  }

  /** From some tick at the given time on, every tick so far satisfied the condition on the depth. */
  ghost predicate HeldSince(history: seq<Tick>, time: real, holds: nat -> bool) {
    exists i :: 0 <= i < |history| && history[i].now == time && forall k :: i <= k < |history| ==>
      holds(history[k].depth)
  }

  function AtLeast(threshold: nat): nat -> bool {
    (depth: nat) => depth >= threshold
  }

  function Empty(): nat -> bool {
    (depth: nat) => depth == 0
  }

  lemma StillHeld(history: seq<Tick>, time: real, tick: Tick, holds: nat -> bool)
    requires HeldSince(history, time, holds) && holds(tick.depth)
    ensures HeldSince(history + [tick], time, holds)
  {
    var i :| 0 <= i < |history| && history[i].now == time && forall k :: i <= k < |history| ==> holds(history[k].depth);
    assert (history + [tick])[i].now == time;
  }

  lemma HeldFromNow(history: seq<Tick>, tick: Tick, holds: nat -> bool)
    requires holds(tick.depth)
    ensures HeldSince(history + [tick], tick.now, holds)
  {
    assert (history + [tick])[|history|] == tick;
  }

  class ElasticPool {
    const minWorkers: nat
    const maxWorkers: nat
    const threshold: nat
    const upCooldown: real
    const downCooldown: real
    // The indices of the live workers, oldest first.
    var workers: seq<nat>
    var nextIdx: nat
    var peak: nat
    var scaleUps: nat
    var scaleDowns: nat
    var highSince: real
    var idleSince: real
    ghost var started: bool
    ghost var history: seq<Tick>

    ghost predicate Ordered()
      reads this
    {
      && minWorkers <= maxWorkers && |workers| <= peak <= maxWorkers
      && (forall i, j :: 0 <= i < j < |workers| ==> workers[i] < workers[j])
      && (forall i :: 0 <= i < |workers| ==> workers[i] < nextIdx)
    }

    function Cfg(): Config {
      Config(minWorkers, maxWorkers, threshold, upCooldown, downCooldown)
    }

    function View(): Scaler
      reads this
    {
      Scaler(|workers|, highSince, idleSince)
    }

    /** The live workers are within bounds and the counters account for them. */
    ghost predicate Sizes()
      reads this
    {
      && Ordered()
      && (started ==> |workers| >= minWorkers && |workers| == minWorkers + scaleUps - scaleDowns)
      && (!started ==> scaleUps == scaleDowns == 0)
    }

    ghost predicate Valid()
      reads this
    {
      && Sizes() && (!started ==> workers == [] && history == [])
      && (highSince != 0.0 ==> HeldSince(history, highSince, AtLeast(threshold)))
      && (idleSince != 0.0 ==> HeldSince(history, idleSince, Empty()))
    }

    constructor (minWorkers: nat, maxWorkers: nat, threshold: nat, upCooldown: real, downCooldown: real)
      requires minWorkers <= maxWorkers
      ensures Valid() && !started
      ensures this.minWorkers == minWorkers && this.maxWorkers == maxWorkers && this.threshold == threshold
      ensures this.upCooldown == upCooldown && this.downCooldown == downCooldown
    {
      this.minWorkers, this.maxWorkers, this.threshold := minWorkers, maxWorkers, threshold;
      this.upCooldown, this.downCooldown := upCooldown, downCooldown;
      workers, nextIdx, peak, scaleUps, scaleDowns := [], 0, 0, 0, 0;
      highSince, idleSince, started, history := 0.0, 0.0, false, [];
    }

    method SpawnOne()
      requires Ordered() && |workers| < maxWorkers
      modifies this`workers, this`nextIdx, this`peak
      ensures Ordered()
      ensures workers == old(workers) + [old(nextIdx)] && nextIdx == old(nextIdx) + 1
      ensures peak == if |workers| > old(peak) then |workers| else old(peak)
    {
      workers := workers + [nextIdx];
      nextIdx := nextIdx + 1;
      if |workers| > peak {
        peak := |workers|;
      }
    }

    /** The youngest worker goes, unless the pool is at its minimum. */
    method RetireOne() returns (retired: Option<nat>)
      modifies this`workers
      ensures if |old(workers)| <= minWorkers then retired.None? && workers == old(workers)
              else retired == Some(old(workers)[|old(workers)| - 1]) && workers == old(workers)[..|old(workers)| - 1]
    {
      if |workers| <= minWorkers {
        return None;
      }
      retired := Some(workers[|workers| - 1]);
      workers := workers[..|workers| - 1];
    }

    /** Starting spawns exactly the minimum; a pool that has workers is left as it is. */
    method Start()
      requires Valid()
      modifies this
      ensures Valid() && started && history == old(history) && scaleUps == old(scaleUps) &&
              scaleDowns == old(scaleDowns)
      ensures if old(workers) != [] then workers == old(workers) else |workers| == minWorkers
    {
      if workers != [] {
        return;
      }
      ghost var restarted := started;
      var n := 0;
      while n < minWorkers
        invariant n == |workers| <= minWorkers && Ordered() && started == restarted
        invariant started ==> minWorkers == 0 && scaleUps == scaleDowns
        invariant highSince == old(highSince) && idleSince == old(idleSince) && history == old(history)
        invariant scaleUps == old(scaleUps) && scaleDowns == old(scaleDowns)
      {
        SpawnOne();
        n := n + 1;
      }
      started := true;
    }

    /** The first half of a tick: a worker more once the depth has been at the threshold at every tick for the
        cooldown. */
    method ScaleUp(depth: nat, now: real, ghost before: seq<Tick>)
      requires Sizes() && started && history == before + [Tick(depth, now)]
      requires highSince != 0.0 ==> HeldSince(before, highSince, AtLeast(threshold))
      modifies this`workers, this`nextIdx, this`peak, this`scaleUps, this`highSince
      ensures Sizes() && (highSince != 0.0 ==> HeldSince(history, highSince, AtLeast(threshold)))
      ensures View() == AfterUp(Cfg(), old(View()), Tick(depth, now))
      ensures scaleUps == old(scaleUps) + if MustGrow(Cfg(), old(View()), Tick(depth, now)) then 1 else 0
      ensures workers == old(workers) + if scaleUps > old(scaleUps) then [old(nextIdx)] else []
      ensures minWorkers == maxWorkers ==> workers == old(workers)
      ensures scaleUps > old(scaleUps) ==>
                now - old(highSince) >= upCooldown && HeldSince(history, old(highSince), AtLeast(threshold))
    {
      if depth >= threshold {
        HeldFromNow(before, Tick(depth, now), AtLeast(threshold));
        if highSince == 0.0 {
          highSince := now;
        } else {
          StillHeld(before, highSince, Tick(depth, now), AtLeast(threshold));
          if now - highSince >= upCooldown && |workers| < maxWorkers {
            SpawnOne();
            scaleUps := scaleUps + 1;
            highSince := now;
          }
        }
      } else {
        highSince := 0.0;
      }
    }

    /** The second half: a worker less once the queue has been empty at every tick for the other cooldown. */
    method ScaleDown(depth: nat, now: real, ghost before: seq<Tick>)
      requires Sizes() && started && history == before + [Tick(depth, now)]
      requires idleSince != 0.0 ==> HeldSince(before, idleSince, Empty())
      modifies this`workers, this`scaleDowns, this`idleSince
      ensures Sizes() && (idleSince != 0.0 ==> HeldSince(history, idleSince, Empty()))
      ensures View() == AfterDown(Cfg(), old(View()), Tick(depth, now))
      ensures scaleDowns == old(scaleDowns) + if MustShrink(Cfg(), old(View()), Tick(depth, now)) then 1 else 0
      ensures if scaleDowns > old(scaleDowns) then workers == old(workers)[..|old(workers)| - 1]
              else workers == old(workers)
      ensures scaleDowns > old(scaleDowns) ==>
                now - old(idleSince) >= downCooldown && HeldSince(history, old(idleSince), Empty())
    {
      if depth == 0 {
        HeldFromNow(before, Tick(depth, now), Empty());
        if idleSince == 0.0 {
          idleSince := now;
        } else {
          StillHeld(before, idleSince, Tick(depth, now), Empty());
          if now - idleSince >= downCooldown && |workers| > minWorkers {
            var t := RetireOne();
            if t.Some? {
              scaleDowns := scaleDowns + 1;
              idleSince := now;
            }
          }
        }
      } else {
        idleSince := 0.0;
      }
    }

    /**
     * One tick of the scaler. The size stays within its bounds and is the minimum plus the ups minus the downs; a
     * worker is added or retired only after the depth called for it at every tick for the cooldown; a pinned pool never
     * changes.
     */
    method Scale(depth: nat, now: real)
      requires Valid() && started
      modifies this
      ensures Valid() && started && history == old(history) + [Tick(depth, now)]
      ensures View() == AfterTicks(Cfg(), old(View()), [Tick(depth, now)])
      ensures minWorkers <= |workers| <= maxWorkers && |workers| == minWorkers + scaleUps - scaleDowns
      ensures minWorkers == maxWorkers ==> workers == old(workers) && |workers| == minWorkers
      ensures old(scaleUps) <= scaleUps <= old(scaleUps) + 1 && old(scaleDowns) <= scaleDowns <= old(scaleDowns) + 1
      ensures scaleUps > old(scaleUps) ==>
                now - old(highSince) >= upCooldown && HeldSince(history, old(highSince), AtLeast(threshold))
      ensures scaleDowns > old(scaleDowns) ==>
                now - old(idleSince) >= downCooldown && HeldSince(history, old(idleSince), Empty())
    {
      ghost var before := history;
      history := history + [Tick(depth, now)];
      ScaleUp(depth, now, before);
      ScaleDown(depth, now, before);
      assert AfterTicks(Cfg(), View(), []) == View();
    }

    /** `_scaler_loop`, over the ticks of a run. */
    method ScalerLoop(ticks: seq<Tick>)
      requires Valid() && started
      modifies this
      ensures Valid() && started && history == old(history) + ticks
      ensures View() == AfterTicks(Cfg(), old(View()), ticks)
      ensures minWorkers == maxWorkers ==> workers == old(workers) && |workers| == minWorkers
    {
      for i := 0 to |ticks|
        invariant Valid() && started && history == old(history) + ticks[..i]
        invariant AfterTicks(Cfg(), old(View()), ticks) == AfterTicks(Cfg(), View(), ticks[i..])
        invariant minWorkers == maxWorkers ==> workers == old(workers)
      {
        OneTick(Cfg(), View(), ticks[i..]);
        Scale(ticks[i].depth, ticks[i].now);
        assert ticks[i..][1..] == ticks[i + 1..] && ticks[..i + 1] == ticks[..i] + [ticks[i]];
      }
      assert ticks[..|ticks|] == ticks;
    }
  }

  lemma OneTick(c: Config, s: Scaler, ticks: seq<Tick>)
    requires ticks != []
    ensures AfterTicks(c, s, ticks) == AfterTicks(c, AfterTicks(c, s, [ticks[0]]), ticks[1..])
  {
    assert [ticks[0]][1..] == [];
  }

  /** A pool for a type that is overridden with n has exactly n workers, through any run of its scaler. */
  method OverriddenPool(n: nat, defaultMin: int, defaultMax: int, threshold: nat, up: real, down: real,
                        ticks: seq<Tick>)
    returns (pool: ElasticPool)
    requires n > 0
    ensures pool.Valid() && |pool.workers| == n && pool.history == ticks
    ensures pool.minWorkers == pool.maxWorkers == n
  {
    BoundsOf(Digits(n), defaultMin, defaultMax);
    var (lo, hi) := BoundsForType(Digits(n), defaultMin, defaultMax);
    pool := new ElasticPool(lo, hi, threshold, up, down);
    pool.Start();
    pool.ScalerLoop(ticks);
  }
}
