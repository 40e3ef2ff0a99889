/** Fleet admission (codna/ci_admission.py): the machine's budget, the capacity check and the bounded
    wait. The lease protocol is in module Fleet, the duration log in module DurationLog. */
module CiAdmission {
  import opened Admission
  import opened Collections
  import opened Wrappers

  datatype Budget = Budget(cpuShare: real, reserveCores: int, maxJobs: Option<int>, minFreeMemGb: real,
                           loadHeadroom: real, slaS: real, maxWaitS: real, pollS: real)

  datatype Machine = Machine(cores: int, load1: Option<real>, freeMemGb: Option<real>)

  function RealMin(a: real, b: real): real {
    if b < a then b else a
  }

  function RealMax(a: real, b: real): real {
    if a < b then b else a
  }

  /** Python's `int` on a float: towards zero. */
  function Truncate(x: real): int {
    if x >= 0.0 then x.Floor else -((-x).Floor)
  }

  // ----- the budget -----

  /** Cores the fleet may keep busy. */
  function CoreBudget(b: Budget, m: Machine): real {
    var byShare := m.cores as real * b.cpuShare;
    var byReserve := if b.reserveCores != 0 then (m.cores - b.reserveCores) as real else byShare;
    RealMax(1.0, RealMin(byShare, byReserve))
  }

  /** Concurrent jobs the machine may run. */
  function DeriveCeiling(b: Budget, m: Machine): (ceiling: int)
    ensures ceiling >= 1
  {
    if b.maxJobs.Some? then Max(1, b.maxJobs.value)
    else
      var byShare := Truncate(m.cores as real * b.cpuShare);
      var byReserve := if b.reserveCores != 0 then m.cores - b.reserveCores else byShare;
      Max(1, Min(byShare, byReserve))
  }

  /** The two ways the code writes down the machine's share agree: the derived ceiling is the core budget
      rounded down. */
  lemma CeilingIsCoreBudgetRoundedDown(b: Budget, m: Machine)
    requires b.maxJobs.None?
    ensures DeriveCeiling(b, m) == CoreBudget(b, m).Floor
  {
    var x := m.cores as real * b.cpuShare;
    if x < 0.0 {
      assert (-x).Floor >= 0;
    }
  }

  /** The ceiling is the largest number of jobs the operator allows: an explicit number, or what fits both the
      share and the reserve; one job is always allowed. */
  lemma CeilingIsLargestAllowed(b: Budget, m: Machine, n: int)
    requires n >= 1
    ensures n <= DeriveCeiling(b, m) <==>
            n == 1 || if b.maxJobs.Some? then n <= b.maxJobs.value
                      else n as real <= m.cores as real * b.cpuShare
                           && (b.reserveCores != 0 ==> n <= m.cores - b.reserveCores)
  {
    var x := m.cores as real * b.cpuShare;
    TruncationFits(x, n);
    if b.maxJobs.None? {
      var byShare := Truncate(x);
      assert DeriveCeiling(b, m) == Max(1, Min(byShare, if b.reserveCores != 0 then m.cores - b.reserveCores else byShare));
      assert n <= byShare <==> n as real <= m.cores as real * b.cpuShare;
    }
  }

  lemma TruncationFits(x: real, n: int)
    requires n >= 1
    ensures n <= Truncate(x) <==> n as real <= x
  {
    if x < 0.0 {
      assert (-x).Floor >= 0;
    }
  }

  // ----- the capacity check -----

  predicate Overloaded(b: Budget, m: Machine) {
    m.load1.Some? && m.load1.value > CoreBudget(b, m) * b.loadHeadroom
  }

  predicate ShortOfMemory(b: Budget, m: Machine) {
    m.freeMemGb.Some? && m.freeMemGb.value < b.minFreeMemGb
  }

  /** Pressure caps the ceiling at what is already running, but never below one. */
  function EffectiveCeiling(b: Budget, m: Machine, ceiling: int, live: nat): int {
    var e0 := ceiling;
    var e1 := if Overloaded(b, m) then Max(1, Min(e0, live)) else e0;
    if ShortOfMemory(b, m) then Max(1, Min(e1, live)) else e1
  }

  function DeciderConfig(b: Budget, ceiling: int): Config {
    Config(ceiling, Max(1, ceiling / 2), b.slaS, 0.10, 4000, 200)
  }

  /** `_capacity_check`: whether a fleet with `live` jobs takes one more. */
  function CapacityAdmits(b: Budget, m: Machine, ceiling: int, history: seq<real>, breach: BreachFn, live: nat): bool {
    var effective := EffectiveCeiling(b, m, ceiling, live);
    if live + 1 > effective then false
    else
      var cfg := DeciderConfig(b, effective);
      Decide(cfg, breach, live, history, DetCap(cfg, None)).admit
  }

  /** Never admit none: an idle fleet always gets its job, under any pressure, history and predictor. */
  lemma IdleFleetIsAdmitted(b: Budget, m: Machine, ceiling: int, history: seq<real>, breach: BreachFn)
    requires ceiling >= 1
    ensures CapacityAdmits(b, m, ceiling, history, breach, 0)
  {
  }

  /** Under load or memory pressure the fleet admits exactly when nothing is running. */
  lemma PressureAdmitsOnlyIdle(b: Budget, m: Machine, ceiling: int, history: seq<real>, breach: BreachFn, live: nat)
    requires ceiling >= 1 && (Overloaded(b, m) || ShortOfMemory(b, m))
    ensures CapacityAdmits(b, m, ceiling, history, breach, live) <==> live == 0
  {
  }

  /** Only whether the machine is pressed counts. */
  lemma SamePressureSameAnswer(b: Budget, m: Machine, other: Machine, ceiling: int, history: seq<real>,
                               breach: BreachFn, live: nat)
    requires Overloaded(b, m) == Overloaded(b, other) && ShortOfMemory(b, m) == ShortOfMemory(b, other)
    ensures CapacityAdmits(b, m, ceiling, history, breach, live) == CapacityAdmits(b, other, ceiling, history, breach, live)
  {
  }

  /** What a load reading does: above the core budget with its headroom it lets in only into an idle fleet,
      and otherwise it might as well not be there. */
  lemma LoadDecides(b: Budget, m: Machine, ceiling: int, history: seq<real>, breach: BreachFn, live: nat, load: real)
    requires ceiling >= 1
    ensures CapacityAdmits(b, m.(load1 := Some(load)), ceiling, history, breach, live) <==>
            if load > CoreBudget(b, m) * b.loadHeadroom then live == 0
            else CapacityAdmits(b, m.(load1 := None), ceiling, history, breach, live)
  {
    var loaded := m.(load1 := Some(load));
    assert CoreBudget(b, loaded) == CoreBudget(b, m);
    if Overloaded(b, loaded) {
      PressureAdmitsOnlyIdle(b, loaded, ceiling, history, breach, live);
    } else {
      SamePressureSameAnswer(b, loaded, m.(load1 := None), ceiling, history, breach, live);
    }
  }

  /** And so does a reading of the free memory below its limit. */
  lemma MemoryDecides(b: Budget, m: Machine, ceiling: int, history: seq<real>, breach: BreachFn, live: nat, freeGb: real)
    requires ceiling >= 1
    ensures CapacityAdmits(b, m.(freeMemGb := Some(freeGb)), ceiling, history, breach, live) <==>
            if freeGb < b.minFreeMemGb then live == 0
            else CapacityAdmits(b, m.(freeMemGb := None), ceiling, history, breach, live)
  {
    var full := m.(freeMemGb := Some(freeGb));
    assert CoreBudget(b, full) == CoreBudget(b, m.(freeMemGb := None));
    if ShortOfMemory(b, full) {
      PressureAdmitsOnlyIdle(b, full, ceiling, history, breach, live);
    } else {
      SamePressureSameAnswer(b, full, m.(freeMemGb := None), ceiling, history, breach, live);
    }
  }

  /** At least as busy and as full, by every reading there is. */
  predicate NoLessPressed(m: Machine, busy: Machine) {
    && m.cores == busy.cores
    && (m.load1.Some? ==> busy.load1.Some? && busy.load1.value >= m.load1.value)
    && (m.freeMemGb.Some? ==> busy.freeMemGb.Some? && busy.freeMemGb.value <= m.freeMemGb.value)
  }

  /** More load and less memory never let a job in that less would have kept out. */
  lemma PressureNeverAdmits(b: Budget, m: Machine, busy: Machine, ceiling: int, history: seq<real>, breach: BreachFn,
                            live: nat)
    requires ceiling >= 1 && NoLessPressed(m, busy)
    requires CapacityAdmits(b, busy, ceiling, history, breach, live)
    ensures CapacityAdmits(b, m, ceiling, history, breach, live)
  {
    if Overloaded(b, busy) || ShortOfMemory(b, busy) {
      PressureAdmitsOnlyIdle(b, busy, ceiling, history, breach, live);
      IdleFleetIsAdmitted(b, m, ceiling, history, breach);
    }
  }

  /** Admission is downward closed in the live count, pressure or not. */
  lemma CapacityIsDownwardClosed(b: Budget, m: Machine, ceiling: int, history: seq<real>, breach: BreachFn,
                                 low: nat, high: nat)
    requires ceiling >= 1 && ContentionMonotone(breach) && low <= high
    requires CapacityAdmits(b, m, ceiling, history, breach, high)
    ensures CapacityAdmits(b, m, ceiling, history, breach, low)
  {
    if Overloaded(b, m) || ShortOfMemory(b, m) {
      PressureAdmitsOnlyIdle(b, m, ceiling, history, breach, high);
    } else {
      var cfg := DeciderConfig(b, ceiling);
      DecisionIsDownwardClosed(cfg, breach, low, high, history, DetCap(cfg, None));
    }
  }

  /** So it is for the sampling predictor the fleet falls back to. */
  lemma SampledFleetIsDownwardClosed(b: Budget, m: Machine, ceiling: int, history: seq<real>, sampler: Sampler,
                                     low: nat, high: nat)
    requires ceiling >= 1 && PositiveDraws(sampler) && low <= high
    requires CapacityAdmits(b, m, ceiling, history, SampledPredictor(sampler), high)
    ensures CapacityAdmits(b, m, ceiling, history, SampledPredictor(sampler), low)
  {
    SampledPredictorIsMonotone(sampler);
    CapacityIsDownwardClosed(b, m, ceiling, history, SampledPredictor(sampler), low, high);
  }

  /** More than half the ceiling is taken, there is room and a history, and nothing presses. */
  predicate Contended(b: Budget, m: Machine, ceiling: int, history: seq<real>, live: nat) {
    && !Overloaded(b, m) && !ShortOfMemory(b, m)
    && Max(1, ceiling / 2) < live + 1 <= ceiling && history != []
  }

  /** The predictor has a say exactly there: anywhere else all predictors give the same answer, and there
      two of them differ. */
  lemma PredictorMattersIffContended(b: Budget, m: Machine, ceiling: int, history: seq<real>, live: nat)
    requires ceiling >= 1
    ensures (exists p, q :: CapacityAdmits(b, m, ceiling, history, p, live)
                            && !CapacityAdmits(b, m, ceiling, history, q, live))
            <==> Contended(b, m, ceiling, history, live)
  {
    if Contended(b, m, ceiling, history, live) {
      var never: BreachFn := (durations, contention, sla, n) => 0.0;
      var always: BreachFn := (durations, contention, sla, n) => 1.0;
      assert CapacityAdmits(b, m, ceiling, history, never, live);
      assert !CapacityAdmits(b, m, ceiling, history, always, live);
    } else {
      forall p: BreachFn, q: BreachFn
        ensures CapacityAdmits(b, m, ceiling, history, p, live) == CapacityAdmits(b, m, ceiling, history, q, live)
      {
        PredictorsAgree(b, m, ceiling, history, p, q, live);
      }
    }
  }

  /** There the forecast must stay below ten percent. */
  lemma TenPercentDecides(b: Budget, m: Machine, ceiling: int, history: seq<real>, live: nat, p: real)
    requires Contended(b, m, ceiling, history, live)
    ensures CapacityAdmits(b, m, ceiling, history, (durations, contention, sla, n) => p, live) <==> p < 0.10
  {
  }

  /** And where every sampled job took `d` seconds, one more job is let in exactly while `d`, stretched by the
      jobs per slot of half the ceiling, meets the limit. */
  lemma EqualJobsDecide(b: Budget, m: Machine, ceiling: int, history: seq<real>, sampler: Sampler, live: nat, d: real)
    requires Contended(b, m, ceiling, history, live)
    requires sampler(history, 4000) != []
    requires forall i :: 0 <= i < |sampler(history, 4000)| ==> sampler(history, 4000)[i] == d
    ensures CapacityAdmits(b, m, ceiling, history, SampledPredictor(sampler), live) <==>
            d * (live + 1) as real <= b.slaS * Max(1, ceiling / 2) as real
  {
    var cfg := DeciderConfig(b, ceiling);
    EqualDrawsDecide(cfg, sampler, live, history, DetCap(cfg, None), d);
  }

  lemma PredictorsAgree(b: Budget, m: Machine, ceiling: int, history: seq<real>, p: BreachFn, q: BreachFn, live: nat)
    requires ceiling >= 1 && !Contended(b, m, ceiling, history, live)
    ensures CapacityAdmits(b, m, ceiling, history, p, live) == CapacityAdmits(b, m, ceiling, history, q, live)
  {
    if Overloaded(b, m) || ShortOfMemory(b, m) {
      PressureAdmitsOnlyIdle(b, m, ceiling, history, p, live);
      PressureAdmitsOnlyIdle(b, m, ceiling, history, q, live);
    } else {
      var cfg := DeciderConfig(b, ceiling);
      ForecastOnlyWhenContended(cfg, p, q, live, history, DetCap(cfg, None));
    }
  }

  /** No predictor can push the fleet past its ceiling. */
  lemma AdmittedFitsCeiling(b: Budget, m: Machine, ceiling: int, history: seq<real>, breach: BreachFn, live: nat)
    requires ceiling >= 1 && CapacityAdmits(b, m, ceiling, history, breach, live)
    ensures live + 1 <= ceiling
  {
  }

  // ----- the bounded wait -----

  /** How one reservation attempt ended. */
  datatype Attempt = Granted | Refused | Crashed

  datatype Outcome = Outcome(admit: bool, leased: bool, attempts: nat, waitedS: real)

  function Ceil(x: real): (c: int)
    ensures c as real - 1.0 < x <= c as real
  {
    if x.Floor as real == x then x.Floor else x.Floor + 1
  }

  /** A monotonic clock: reading it takes time, sleeping takes at least the time asked for. */
  class Clock {
    var now: real

    method Read() returns (t: real)
      modifies this
      ensures t == now && now >= old(now)
    {
      var d: real := *;
      now := now + RealMax(0.0, d);
      t := now;
    }

    method Sleep(s: real)
      requires s >= 0.0
      modifies this
      ensures now >= old(now) + s
    {
      var d: real := *;
      now := now + s + RealMax(0.0, d);
    }
  }

  /** The least time `n` full sleeps take. */
  function SleepTime(n: nat, poll: real): real {
    if n == 0 then 0.0 else SleepTime(n - 1, poll) + poll
  }

  lemma {:induction false} SleepTimeIsProduct(n: nat, poll: real)
    ensures SleepTime(n, poll) == n as real * poll
  {
    if n > 0 {
      SleepTimeIsProduct(n - 1, poll);
      assert (n - 1) as real == n as real - 1.0;
    }
  }

  lemma PositiveFactor(a: real, p: real)
    requires p > 0.0 && a * p > 0.0
    ensures a > 0.0
  {
  }

  lemma FullSleepsFit(n: nat, poll: real, maxWait: real)
    requires poll > 0.0 && SleepTime(n, poll) < maxWait
    ensures n + 1 <= Ceil(maxWait / poll)
  {
    SleepTimeIsProduct(n, poll);
    QuotientExceeds(n as real, poll, maxWait);
  }

  lemma QuotientExceeds(a: real, p: real, w: real)
    requires p > 0.0 && a * p < w
    ensures w / p > a
  {
    var q := w / p;
    assert q * p == w;
    assert q * p - a * p == (q - a) * p;
    PositiveFactor(q - a, p);
  }

  lemma StillWaiting(sleeps: nat, poll: real, maxWait: real, t0: real, now: real)
    requires poll > 0.0 && t0 + SleepTime(sleeps, poll) <= now < t0 + maxWait
    ensures sleeps + 1 <= Ceil(maxWait / poll)
  {
    FullSleepsFit(sleeps, poll, maxWait);
  }

  /** `acquire`: poll for a slot until the wait budget is spent. It always reports admission, whatever
      happens; it holds a lease exactly when the last attempt was granted; and it makes at most
      `ceil(max_wait / poll) + 1` attempts. */
  method AcquireSlot(b: Budget, clock: Clock, attempt: nat -> Attempt) returns (r: Outcome)
    requires b.pollS > 0.0 && b.maxWaitS >= 0.0
    modifies clock
    ensures r.admit
    ensures 1 <= r.attempts <= Ceil(b.maxWaitS / b.pollS) + 1
    ensures r.attempts > 1 ==> (r.attempts - 2) as real * b.pollS < b.maxWaitS
    ensures forall i :: 0 <= i < r.attempts - 1 ==> attempt(i) == Refused
    ensures r.leased <==> attempt(r.attempts - 1) == Granted
    ensures attempt(r.attempts - 1) == Refused ==> clock.now >= old(clock.now) + b.maxWaitS
  {
    var t0 := clock.Read();
    var deadline := t0 + b.maxWaitS;
    var started := clock.Read();
    var sleeps := 0;
    ghost var limit := Ceil(b.maxWaitS / b.pollS);
    WaitIsNonNegative(b.maxWaitS, b.pollS);
    while true
      invariant 0 <= sleeps <= limit
      invariant clock.now >= t0 + SleepTime(sleeps, b.pollS) || clock.now >= deadline
      invariant t0 >= old(clock.now) && started >= t0
      invariant sleeps > 0 ==> SleepTime(sleeps - 1, b.pollS) < b.maxWaitS
      invariant forall i :: 0 <= i < sleeps ==> attempt(i) == Refused
      decreases limit - sleeps
    {
      if sleeps > 0 {
        SleepTimeIsProduct(sleeps - 1, b.pollS);
      }
      var outcome := attempt(sleeps);
      var now := clock.Read();
      if outcome == Crashed {
        return Outcome(true, false, sleeps + 1, now - started);
      }
      if outcome == Granted {
        return Outcome(true, true, sleeps + 1, now - started);
      }
      var check := clock.Read();
      if check >= deadline {
        return Outcome(true, false, sleeps + 1, now - started);
      }
      StillWaiting(sleeps, b.pollS, b.maxWaitS, t0, check);
      var again := clock.Read();
      clock.Sleep(RealMin(b.pollS, RealMax(0.0, deadline - again)));
      sleeps := sleeps + 1;
    }
  }

  lemma WaitIsNonNegative(maxWait: real, poll: real)
    requires maxWait >= 0.0 && poll > 0.0
    ensures maxWait / poll >= 0.0
  {
    DivideGrows(0.0, maxWait, poll);
  }
}
