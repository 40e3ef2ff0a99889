/** Predictive admission (codna/admission_control.py): a deterministic floor, a hard ceiling, and a
    forecast in between. */
module Admission {
  import opened Collections
  import opened Wrappers

  /** Probability that a job admitted under this contention breaches the limit. */
  type BreachFn = (seq<real>, real, real, nat) -> real

  datatype Config = Config(ceiling: int, modelRateBudget: int, slaS: real, breachThreshold: real,
                           trials: nat, window: nat)

  datatype Reason =
    | WithinDeterministicCapacity
    | AtHardCeiling
    | NoHistory
    | ForecastAdmits
    | ForecastThrottles

  datatype Verdict = Verdict(admit: bool, reason: Reason, inFlight: int, detCap: int, pBreach: Option<real>)

  // ----- the decision -----

  function DetCap(cfg: Config, modelRateBudget: Option<int>): (cap: int)
    ensures 1 <= cap <= Max(1, cfg.ceiling)
  {
    Max(1, Min(cfg.ceiling, modelRateBudget.GetOr(cfg.modelRateBudget)))
  }

  /** How much the shared capacity stretches each job at this concurrency. */
  function Contention(concurrency: int, detCap: int): (c: real)
    requires detCap >= 1
    ensures c >= 1.0
  {
    var ratio := concurrency as real / detCap as real;
    if ratio > 1.0 then ratio else 1.0
  }

  function Decide(cfg: Config, breach: BreachFn, inFlight: int, durations: seq<real>, detCap: int): Verdict
    requires detCap >= 1
  {
    var prospective := inFlight + 1;
    if prospective <= detCap then Verdict(true, WithinDeterministicCapacity, inFlight, detCap, None)
    else if prospective > cfg.ceiling then Verdict(false, AtHardCeiling, inFlight, detCap, None)
    else if durations == [] then Verdict(false, NoHistory, inFlight, detCap, None)
    else
      var p := breach(durations, Contention(prospective, detCap), cfg.slaS, cfg.trials);
      if p < cfg.breachThreshold then Verdict(true, ForecastAdmits, inFlight, detCap, Some(p))
      else Verdict(false, ForecastThrottles, inFlight, detCap, Some(p))
  }

  /** More contention never makes a breach less likely. */
  ghost predicate ContentionMonotone(breach: BreachFn) {
    forall durations, c1, c2, sla, n :: 0.0 < c1 <= c2 ==>
      breach(durations, c1, sla, n) <= breach(durations, c2, sla, n)
  }

  lemma ContentionGrows(a: int, b: int, detCap: int)
    requires a <= b && detCap >= 1
    ensures Contention(a, detCap) <= Contention(b, detCap)
  {
    DivideGrows(a as real, b as real, detCap as real);
  }

  lemma DivideGrows(x: real, y: real, d: real)
    requires x <= y && d > 0.0
    ensures x / d <= y / d
  {
    var p, q := x / d, y / d;
    assert p * d == x && q * d == y;
    assert (q - p) * d == y - x;
  }

  /** Whoever is admitted at some occupancy is admitted at every lower one. */
  lemma DecisionIsDownwardClosed(cfg: Config, breach: BreachFn, low: int, high: int, durations: seq<real>, detCap: int)
    requires ContentionMonotone(breach) && detCap >= 1 && low <= high
    requires Decide(cfg, breach, high, durations, detCap).admit
    ensures Decide(cfg, breach, low, durations, detCap).admit
  {
    ContentionGrows(low + 1, high + 1, detCap);
  }

  /** The hard ceiling holds for every predictor: whatever it answers, admission leaves at most
      `max(1, ceiling)` jobs running. */
  lemma AdmittedWithinCeiling(cfg: Config, breach: BreachFn, inFlight: int, durations: seq<real>,
                              modelRateBudget: Option<int>)
    requires Decide(cfg, breach, inFlight, durations, DetCap(cfg, modelRateBudget)).admit
    ensures inFlight + 1 <= Max(1, cfg.ceiling)
  {
  }

  /** The forecast is consulted in the contended zone only: anywhere else every predictor gives the same
      verdict. */
  lemma ForecastOnlyWhenContended(cfg: Config, b1: BreachFn, b2: BreachFn, inFlight: int, durations: seq<real>,
                                  detCap: int)
    requires detCap >= 1
    ensures Decide(cfg, b1, inFlight, durations, detCap).pBreach.Some? <==>
            detCap < inFlight + 1 <= cfg.ceiling && durations != []
    ensures !(detCap < inFlight + 1 <= cfg.ceiling && durations != []) ==>
              Decide(cfg, b1, inFlight, durations, detCap) == Decide(cfg, b2, inFlight, durations, detCap)
  {
  }

  // ----- the sampling predictor -----

  function Breaches(draws: seq<real>, contention: real, sla: real): (n: nat)
    ensures n <= |draws|
  {
    if draws == [] then 0 else
      Breaches(draws[..|draws| - 1], contention, sla) + if draws[|draws| - 1] * contention > sla then 1 else 0
  }

  /** The bootstrap estimate, with its draws made explicit. */
  function SampledBreach(durations: seq<real>, contention: real, sla: real, draws: seq<real>): real
    requires draws != []
  {
    if durations == [] then 1.0 else Breaches(draws, contention, sla) as real / |draws| as real
  }

  /** The counting loop of the predictor. */
  method SampleBreachProbability(durations: seq<real>, contention: real, sla: real, draws: seq<real>)
    returns (p: real)
    requires draws != []
    ensures p == SampledBreach(durations, contention, sla, draws)
  {
    if durations == [] {
      return 1.0;
    }
    var breaches := 0;
    for i := 0 to |draws|
      invariant breaches == Breaches(draws[..i], contention, sla)
    {
      assert draws[..i + 1][..i] == draws[..i];
      if draws[i] * contention > sla {
        breaches := breaches + 1;
      }
    }
    assert draws[..|draws|] == draws;
    p := breaches as real / |draws| as real;
  }

  lemma {:induction false} BreachesGrow(draws: seq<real>, c1: real, c2: real, sla: real)
    requires (forall i :: 0 <= i < |draws| ==> draws[i] > 0.0) && c1 <= c2
    ensures Breaches(draws, c1, sla) <= Breaches(draws, c2, sla)
  {
    if draws != [] {
      var d := draws[|draws| - 1];
      BreachesGrow(draws[..|draws| - 1], c1, c2, sla);
      assert d * (c2 - c1) >= 0.0;
      assert d * c1 <= d * c2;
    }
  }

  /** For fixed positive draws the sampling predictor is a probability and contention-monotone. */
  lemma SamplingIsContentionMonotone(durations: seq<real>, c1: real, c2: real, sla: real, draws: seq<real>)
    requires draws != [] && (forall i :: 0 <= i < |draws| ==> draws[i] > 0.0) && c1 <= c2
    ensures 0.0 <= SampledBreach(durations, c1, sla, draws) <= SampledBreach(durations, c2, sla, draws) <= 1.0
  {
    if durations != [] {
      BreachesGrow(draws, c1, c2, sla);
      FractionGrows(Breaches(draws, c1, sla), Breaches(draws, c2, sla), |draws|);
    }
  }

  lemma FractionGrows(a: nat, b: nat, n: nat)
    requires a <= b <= n && n > 0
    ensures 0.0 <= a as real / n as real <= b as real / n as real <= 1.0
  {
    var d := n as real;
    DivideGrows(0.0, a as real, d);
    DivideGrows(a as real, b as real, d);
    DivideGrows(b as real, d, d);
  }

  /** Where the draws come from: resampled from a history, and the same for every question about it. */
  type Sampler = (seq<real>, nat) -> seq<real>

  ghost predicate PositiveDraws(sampler: Sampler) {
    forall durations, n :: sampler(durations, n) != [] && forall d :: d in sampler(durations, n) ==> d > 0.0
  }

  /** The sampled frequency as the decider's predictor. */
  function SampledPredictor(sampler: Sampler): BreachFn {
    (durations, contention, sla, n: nat) =>
      var draws := sampler(durations, n);
      if draws == [] then 1.0 else SampledBreach(durations, contention, sla, draws)
  }

  lemma SampledPredictorIsMonotone(sampler: Sampler)
    requires PositiveDraws(sampler)
    ensures ContentionMonotone(SampledPredictor(sampler))
  {
    var breach := SampledPredictor(sampler);
    forall durations, c1, c2, sla, n | 0.0 < c1 <= c2
      ensures breach(durations, c1, sla, n) <= breach(durations, c2, sla, n)
    {
      var draws := sampler(durations, n);
      assert forall i :: 0 <= i < |draws| ==> draws[i] in draws;
      SamplingIsContentionMonotone(durations, c1, c2, sla, draws);
    }
  }

  lemma {:induction false} EqualDrawsBreachTogether(draws: seq<real>, d: real, contention: real, sla: real)
    requires forall i :: 0 <= i < |draws| ==> draws[i] == d
    ensures Breaches(draws, contention, sla) == if d * contention > sla then |draws| else 0
  {
    if draws != [] {
      EqualDrawsBreachTogether(draws[..|draws| - 1], d, contention, sla);
    }
  }

  lemma StretchedTooFar(d: real, n: real, k: real, sla: real)
    requires k > 0.0
    ensures d * (n / k) > sla <==> d * n > sla * k
  {
    var q := n / k;
    assert q * k == n;
    var x := d * q;
    assert x * k == d * n;
    SignTimesPositive(x - sla, k);
    assert (x - sla) * k == x * k - sla * k;
  }

  lemma SignTimesPositive(a: real, k: real)
    requires k > 0.0
    ensures a > 0.0 <==> a * k > 0.0
  {
  }

  /** Where every sampled job took the same time, the contended zone admits exactly while that time, stretched
      by the jobs per slot of the floor, still meets the limit. */
  lemma EqualDrawsDecide(cfg: Config, sampler: Sampler, inFlight: int, durations: seq<real>, detCap: int, d: real)
    requires detCap >= 1 && detCap < inFlight + 1 <= cfg.ceiling && durations != []
    requires sampler(durations, cfg.trials) != []
    requires forall i :: 0 <= i < |sampler(durations, cfg.trials)| ==> sampler(durations, cfg.trials)[i] == d
    requires 0.0 < cfg.breachThreshold <= 1.0
    ensures Decide(cfg, SampledPredictor(sampler), inFlight, durations, detCap).admit <==>
            d * (inFlight + 1) as real <= cfg.slaS * detCap as real
  {
    var draws := sampler(durations, cfg.trials);
    var contention := Contention(inFlight + 1, detCap);
    ContentionIsRatio(inFlight + 1, detCap);
    EqualDrawsBreachTogether(draws, d, contention, cfg.slaS);
    StretchedTooFar(d, (inFlight + 1) as real, detCap as real, cfg.slaS);
    AllOrNothing(|draws|);
  }

  lemma ContentionIsRatio(concurrency: int, detCap: int)
    requires 1 <= detCap <= concurrency
    ensures Contention(concurrency, detCap) == concurrency as real / detCap as real
  {
    var q := concurrency as real / detCap as real;
    assert q * detCap as real == concurrency as real;
    assert (q - 1.0) * detCap as real >= 0.0;
  }

  lemma AllOrNothing(n: nat)
    requires n > 0
    ensures n as real / n as real == 1.0 && 0 as real / n as real == 0.0
  {
  }

  // ----- the decider -----

  /** What a bounded deque keeps. */
  function LastN<T>(s: seq<T>, n: nat): (r: seq<T>)
    ensures |r| == Min(|s|, n) && r == s[|s| - |r|..]
  {
    if |s| <= n then s else s[|s| - n..]
  }

  datatype State = State(inFlight: int, durations: seq<real>)

  datatype Op = TryAdmit(modelRateBudget: Option<int>) | Finish(durationS: real)

  function Apply(cfg: Config, breach: BreachFn, s: State, op: Op): State {
    match op
    case TryAdmit(budget) =>
      if Decide(cfg, breach, s.inFlight, s.durations, DetCap(cfg, budget)).admit
      then s.(inFlight := s.inFlight + 1) else s
    case Finish(d) =>
      State(Max(0, s.inFlight - 1), if d > 0.0 then LastN(s.durations + [d], cfg.window) else s.durations)
  }

  function Run(cfg: Config, breach: BreachFn, ops: seq<Op>): State {
    if ops == [] then State(0, []) else Apply(cfg, breach, Run(cfg, breach, ops[..|ops| - 1]), ops[|ops| - 1])
  }

  /** The process-wide decider; each method is one critical section. */
  class MCAdmissionDecider {
    const cfg: Config
    const breach: BreachFn
    var inFlight: int
    var durations: seq<real>
    var arrivals: seq<real>

    ghost predicate Valid()
      reads this
    {
      0 <= inFlight && |durations| <= cfg.window && |arrivals| <= cfg.window
    }

    ghost function Value(): State
      reads this
    {
      State(inFlight, durations)
    }

    constructor (cfg: Config, breach: BreachFn)
      ensures Valid() && this.cfg == cfg && this.breach == breach && Value() == State(0, [])
    {
      this.cfg, this.breach := cfg, breach;
      inFlight, durations, arrivals := 0, [], [];
    }

    /** Check and reserve under one lock. */
    method TryAdmitOne(modelRateBudget: Option<int>, now: real) returns (verdict: Verdict)
      requires Valid()
      modifies this
      ensures Valid()
      ensures verdict == Decide(cfg, breach, old(inFlight), old(durations), DetCap(cfg, modelRateBudget))
      ensures Value() == Apply(cfg, breach, old(Value()), TryAdmit(modelRateBudget))
      ensures arrivals == if verdict.admit then LastN(old(arrivals) + [now], cfg.window) else old(arrivals)
      ensures old(inFlight) <= Max(1, cfg.ceiling) ==> inFlight <= Max(1, cfg.ceiling)
    {
      verdict := Decide(cfg, breach, inFlight, durations, DetCap(cfg, modelRateBudget));
      if verdict.admit {
        inFlight := inFlight + 1;
        arrivals := LastN(arrivals + [now], cfg.window);
      }
    }

    method FinishOne(durationS: real)
      requires Valid()
      modifies this`inFlight, this`durations
      ensures Valid()
      ensures Value() == Apply(cfg, breach, old(Value()), Finish(durationS))
    {
      inFlight := Max(0, inFlight - 1);
      if durationS > 0.0 {
        durations := LastN(durations + [durationS], cfg.window);
      }
    }
  }

  function Finished(ops: seq<Op>): seq<real> {
    if ops == [] then [] else
      var op := ops[|ops| - 1];
      Finished(ops[..|ops| - 1]) + if op.Finish? && op.durationS > 0.0 then [op.durationS] else []
  }

  /** Over every interleaving of admissions and completions the occupancy stays within the ceiling and
      the window holds exactly the latest positive durations. */
  lemma {:induction false} RunStaysWithinCeiling(cfg: Config, breach: BreachFn, ops: seq<Op>)
    ensures 0 <= Run(cfg, breach, ops).inFlight <= Max(1, cfg.ceiling)
    ensures Run(cfg, breach, ops).durations == LastN(Finished(ops), cfg.window)
  {
    if ops != [] {
      var n := |ops| - 1;
      RunStaysWithinCeiling(cfg, breach, ops[..n]);
      if ops[n].TryAdmit? && Decide(cfg, breach, Run(cfg, breach, ops[..n]).inFlight,
                                    Run(cfg, breach, ops[..n]).durations,
                                    DetCap(cfg, ops[n].modelRateBudget)).admit {
        AdmittedWithinCeiling(cfg, breach, Run(cfg, breach, ops[..n]).inFlight,
                              Run(cfg, breach, ops[..n]).durations, ops[n].modelRateBudget);
      }
      if ops[n].Finish? && ops[n].durationS > 0.0 {
        LastNTwice(Finished(ops[..n]), [ops[n].durationS], cfg.window);
      }
    }
  }

  /** The same request `n` times, and nothing finished meanwhile. */
  function Tries(n: nat, budget: Option<int>): seq<Op> {
    seq(n, _ => TryAdmit(budget))
  }

  /** Without a history the decider fills up to the deterministic floor and then holds. */
  lemma {:induction false} ColdStartFillsFloor(cfg: Config, breach: BreachFn, n: nat, budget: Option<int>)
    ensures var floor := Max(1, Min(cfg.ceiling, if budget.Some? then budget.value else cfg.modelRateBudget));
            Run(cfg, breach, Tries(n, budget)) == State(Min(n, floor), [])
  {
    if n > 0 {
      ColdStartFillsFloor(cfg, breach, n - 1, budget);
      assert Tries(n, budget)[..n - 1] == Tries(n - 1, budget);
    }
  }

  /** Cutting before appending makes no difference to the last entries. */
  lemma LastNTwice<T>(a: seq<T>, b: seq<T>, n: nat)
    ensures LastN(LastN(a, n) + b, n) == LastN(a + b, n)
  {
    SuffixOfAppend(a, LastN(a, n), b);
  }

  lemma SuffixOfAppend<T>(a: seq<T>, r: seq<T>, b: seq<T>)
    requires |r| <= |a| && r == a[|a| - |r|..]
    ensures r + b == (a + b)[|a| - |r|..]
  {
  }
}
