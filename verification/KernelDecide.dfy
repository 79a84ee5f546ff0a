/** Ranking a catalog: the single-pass loop of the kernel against the decision it stands for. */
module KernelDecide {
  import opened Wrappers
  import Orders
  import opened Kernel

  // ----- Ranking -----

  datatype Candidate = Candidate(model_id: u32, model_index: u16, quality_bps: u16, cost: u64, utility: i64)

  /** Higher utility, then lower cost, then higher quality, then lower id. */
  predicate Better(a: Candidate, b: Candidate) {
    || a.utility > b.utility
    || (a.utility == b.utility && a.cost < b.cost)
    || (a.utility == b.utility && a.cost == b.cost && a.quality_bps > b.quality_bps)
    || (a.utility == b.utility && a.cost == b.cost && a.quality_bps == b.quality_bps && a.model_id < b.model_id)
  }

  predicate IntBefore(a: int, b: int) {
    a < b
  }

  function RankKey(c: Candidate): seq<int> {
    [0 - c.utility, c.cost, 0 - c.quality_bps, c.model_id]
  }

  lemma BetterIsLexicographic(a: Candidate, b: Candidate)
    ensures Better(a, b) <==> Orders.Lex(RankKey(a), RankKey(b), IntBefore)
  {
    var x, y := RankKey(a), RankKey(b);
    assert x[1..][1..] == x[2..] && y[1..][1..] == y[2..] && x[2..][1..] == x[3..] && y[2..][1..] == y[3..];
    assert x[3..][1..] == [] && y[3..][1..] == [];
    assert Orders.Lex(x[3..], y[3..], IntBefore) <==> x[3] < y[3];
    assert Orders.Lex(x[2..], y[2..], IntBefore) <==> x[2] < y[2] || (x[2] == y[2] && x[3] < y[3]);
    assert Orders.Lex(x[1..], y[1..], IntBefore) <==> x[1] < y[1] || (x[1] == y[1] && Orders.Lex(x[2..], y[2..], IntBefore));
  }

  /** A number in 16 bits, the largest one standing for all that are larger. */
  function Saturated(n: nat): u16 {
    if n <= 0xFFFF then n else 0xFFFF
  }

  /** A catalog that the 16-bit counters of a decision can count. */
  predicate Countable(models: seq<Model>) {
    |models| <= 0xFFFF
  }

  predicate Ranked(s: Settings, models: seq<Model>, input: Input, i: int) {
    0 <= i < |models| && Judge(s, models[i], input).Eligible?
  }

  function CandidateAt(s: Settings, models: seq<Model>, input: Input, i: int): Candidate
    requires Ranked(s, models, input, i)
  {
    var t := Judge(s, models[i], input).terms;
    Candidate(models[i].model_id, Saturated(i), models[i].quality_bps, t.cost, t.utility)
  }

  predicate Beats(s: Settings, models: seq<Model>, input: Input, i: int, j: int)
    requires Ranked(s, models, input, i) && Ranked(s, models, input, j)
  {
    Better(CandidateAt(s, models, input, i), CandidateAt(s, models, input, j))
  }

  /** The best of the first `n` models other than `skip`; the earlier one on a complete tie. */
  function BestOf(s: Settings, models: seq<Model>, input: Input, n: nat, skip: int): (r: Option<nat>)
    requires n <= |models|
    ensures r.Some? ==> r.value < n && r.value != skip && Ranked(s, models, input, r.value)
  {
    if n == 0 then None
    else
      var r := BestOf(s, models, input, n - 1, skip);
      if n - 1 == skip || !Ranked(s, models, input, n - 1) then r
      else if r.None? || Beats(s, models, input, n - 1, r.value) then Some(n - 1)
      else r
  }

  /** `b` is the maximum of the ranked models among the first `n`, leaving `skip` out. */
  ghost predicate IsBest(s: Settings, models: seq<Model>, input: Input, n: nat, skip: int, b: nat)
  {
    && b < n && b != skip && Ranked(s, models, input, b)
    && forall i :: 0 <= i < n && i != skip && i != b && Ranked(s, models, input, i) ==>
         || Beats(s, models, input, b, i)
         || (!Beats(s, models, input, i, b) && models[i].model_id == models[b].model_id && b < i)
  }

  lemma {:induction false} BestIsBest(s: Settings, models: seq<Model>, input: Input, n: nat, skip: int)
    requires n <= |models|
    ensures var r := BestOf(s, models, input, n, skip);
      && (r.None? <==> forall i :: 0 <= i < n && i != skip ==> !Ranked(s, models, input, i))
      && (r.Some? ==> IsBest(s, models, input, n, skip, r.value))
  {
    hide Judge;
    if n > 0 {
      BestIsBest(s, models, input, n - 1, skip);
    }
  }

  /** Being the best determines which one it is. */
  lemma BestUnique(s: Settings, models: seq<Model>, input: Input, n: nat, skip: int, b: nat)
    requires n <= |models| && IsBest(s, models, input, n, skip, b)
    ensures BestOf(s, models, input, n, skip) == Some(b)
  {
    hide Judge;
    BestIsBest(s, models, input, n, skip);
    assert Ranked(s, models, input, b);
  }

  lemma {:induction false} SkipOutside(s: Settings, models: seq<Model>, input: Input, n: nat, skip: int)
    requires n <= |models| && (skip < 0 || n <= skip)
    ensures BestOf(s, models, input, n, skip) == BestOf(s, models, input, n, -1)
  {
    hide Ranked, Beats;
    if n > 0 {
      SkipOutside(s, models, input, n - 1, skip);
    }
  }

  // ----- Counting -----

  datatype Cause =
    | Off | LowQuality | OverRisk | Slow | Incapable | Unavailable | Elsewhere | TooDear | Worthless

  /** What a rejected candidate is counted under; nothing for an eligible one. */
  function CauseOf(v: Verdict): Option<Cause> {
    match v
    case Rejected(gate) => Some(GateCause(gate))
    case OverBudget(_) => Some(TooDear)
    case NonPositiveUtility(_) => Some(Worthless)
    case Eligible(_) => None
  }

  function GateCause(gate: Gate): Cause {
    match gate
    case Disabled => Off
    case Quality => LowQuality
    case Latency => Slow
    case Capability => Incapable
    case ProviderUnrepresentable => Unavailable
    case ProviderNotAllowed => Unavailable
    case Region => Elsewhere
    case RiskCeiling => OverRisk
  }

  datatype Histogram = Histogram(
    disabled: u16, quality: u16, risk_ceiling: u16, latency: u16, capability: u16, provider: u16, region: u16,
    budget: u16, utility: u16)

  /** What a counter shows after `n` rejections: two of them wrap around, the others saturate. */
  function Shown(c: Cause, n: nat): u16 {
    if c.TooDear? || c.Worthless? then n % 0x1_0000 else Saturated(n)
  }

  const NoRejections := Histogram(0, 0, 0, 0, 0, 0, 0, 0, 0)

  function Get(h: Histogram, c: Cause): u16 {
    match c
    case Off => h.disabled
    case LowQuality => h.quality
    case OverRisk => h.risk_ceiling
    case Slow => h.latency
    case Incapable => h.capability
    case Unavailable => h.provider
    case Elsewhere => h.region
    case TooDear => h.budget
    case Worthless => h.utility
  }

  function Bump(h: Histogram, c: Cause): Histogram {
    var n := Shown(c, Get(h, c) + 1);
    match c
    case Off => h.(disabled := n)
    case LowQuality => h.(quality := n)
    case OverRisk => h.(risk_ceiling := n)
    case Slow => h.(latency := n)
    case Incapable => h.(capability := n)
    case Unavailable => h.(provider := n)
    case Elsewhere => h.(region := n)
    case TooDear => h.(budget := n)
    case Worthless => h.(utility := n)
  }

  lemma BumpGet(h: Histogram, c: Cause)
    ensures forall d :: Get(Bump(h, c), d) == if c == d then Shown(c, Get(h, c) + 1) else Get(h, d)
  {
  }

  /** How many of the first `n` models end with cause `c` (`None`: eligible). */
  function Count(s: Settings, models: seq<Model>, input: Input, n: nat, c: Option<Cause>): (r: nat)
    requires n <= |models|
    ensures r <= n
  {
    if n == 0 then 0
    else Count(s, models, input, n - 1, c) + if CauseOf(Judge(s, models[n - 1], input)) == c then 1 else 0
  }

  ghost predicate Counts(h: Histogram, s: Settings, models: seq<Model>, input: Input, n: nat)
    requires n <= |models|
  {
    forall c :: Get(h, c) == Shown(c, Count(s, models, input, n, Some(c)))
  }

  function HistogramOf(s: Settings, models: seq<Model>, input: Input): (h: Histogram)
    ensures Counts(h, s, models, input, |models|)
  {
    var at := (c: Cause) => Shown(c, Count(s, models, input, |models|, Some(c)));
    Histogram(at(Off), at(LowQuality), at(OverRisk), at(Slow), at(Incapable), at(Unavailable), at(Elsewhere),
              at(TooDear), at(Worthless))
  }

  function Total(h: Histogram): nat {
    h.disabled + h.quality + h.risk_ceiling + h.latency + h.capability + h.provider + h.region + h.budget + h.utility
  }

  /** Nothing is lost: every candidate is counted once, as rejected or as eligible. */
  lemma {:induction false} CountsCover(s: Settings, models: seq<Model>, input: Input, n: nat, h: Histogram)
    requires n <= |models| && n <= 0xFFFF && Counts(h, s, models, input, n)
    ensures Total(h) + Count(s, models, input, n, None) == n
  {
    hide Judge, Count, Counts, Shown, Get, Total;
    CountsSum(s, models, input, n);
    forall c
      ensures Get(h, c) == Count(s, models, input, n, Some(c))
    {
      CountedExactly(s, models, input, n, h, c);
    }
    TotalOf(h);
  }

  lemma TotalOf(h: Histogram)
    ensures Total(h) == Get(h, Off) + Get(h, LowQuality) + Get(h, OverRisk) + Get(h, Slow) + Get(h, Incapable)
                        + Get(h, Unavailable) + Get(h, Elsewhere) + Get(h, TooDear) + Get(h, Worthless)
  {
  }

  /** Counters that have not reached their limit are the numbers they count. */
  lemma CountedExactly(s: Settings, models: seq<Model>, input: Input, n: nat, h: Histogram, c: Cause)
    requires n <= |models| && n <= 0xFFFF && Counts(h, s, models, input, n)
    ensures Get(h, c) == Count(s, models, input, n, Some(c))
  {
    hide Get, Count;
  }

  function CountAll(s: Settings, models: seq<Model>, input: Input, n: nat): nat
    requires n <= |models|
  {
    var at := c => Count(s, models, input, n, c);
    at(Some(Off)) + at(Some(LowQuality)) + at(Some(OverRisk)) + at(Some(Slow)) + at(Some(Incapable))
    + at(Some(Unavailable)) + at(Some(Elsewhere)) + at(Some(TooDear)) + at(Some(Worthless)) + at(None)
  }

  lemma OneCause(c: Option<Cause>)
    ensures || c == None || c == Some(Off) || c == Some(LowQuality) || c == Some(OverRisk) || c == Some(Slow)
            || c == Some(Incapable) || c == Some(Unavailable) || c == Some(Elsewhere) || c == Some(TooDear)
            || c == Some(Worthless)
  {
    match c
    case None =>
    case Some(Off) =>
    case Some(_) =>
  }

  lemma {:induction false} CountsSum(s: Settings, models: seq<Model>, input: Input, n: nat)
    requires n <= |models|
    ensures CountAll(s, models, input, n) == n
  {
    hide Judge, CauseOf;
    if n > 0 {
      CountsSum(s, models, input, n - 1);
      OneCause(CauseOf(Judge(s, models[n - 1], input)));
    }
  }

  lemma {:induction false} NoneEligible(s: Settings, models: seq<Model>, input: Input, n: nat)
    requires n <= |models|
    ensures Count(s, models, input, n, None) == 0 <==> forall i :: 0 <= i < n ==> !Ranked(s, models, input, i)
  {
    hide Judge;
    if n > 0 {
      NoneEligible(s, models, input, n - 1);
      assert Ranked(s, models, input, n - 1) <==> CauseOf(Judge(s, models[n - 1], input)) == None;
    }
  }

  // ----- The decision -----

  datatype Action = ExecuteRequested | Substitute | Reject

  datatype Reason =
    | RequestedModelMaximizesUtility | AlternativeMaximizesUtility | RiskHardLimit | ConfidenceHardLimit
    | Because(cause: Cause)

  datatype Decision = Decision(
    request_sequence: u64, action: Action, reason: Reason, selected_model_id: u32, selected_model_index: u16,
    estimated_cost: u64, expected_utility: i64, counterfactual_model_id: u32, counterfactual_utility: i64,
    evaluated_models: u16, eligible_models: u16, policy_epoch: u64, catalog_epoch: u64)

  function Refuse(s: Settings, input: Input, reason: Reason, evaluated: u16, eligible: u16): Decision {
    Decision(input.request_sequence, Reject, reason, 0, 0xFFFF, 0, 0, 0, 0, evaluated, eligible,
             s.policy_epoch, s.catalog_epoch)
  }

  function Accept(s: Settings, input: Input, best: Candidate, second: Option<Candidate>, evaluated: u16, eligible: u16): Decision {
    var action := if best.model_id == input.requested_model_id then ExecuteRequested else Substitute;
    Decision(input.request_sequence, action,
             if action.ExecuteRequested? then RequestedModelMaximizesUtility else AlternativeMaximizesUtility,
             best.model_id, best.model_index, best.cost, best.utility,
             if second.Some? then second.value.model_id else 0, if second.Some? then second.value.utility else 0,
             evaluated, eligible, s.policy_epoch, s.catalog_epoch)
  }

  /** The cause with the highest count; the last of `causes` on a tie. */
  function LastMax(h: Histogram, causes: seq<Cause>): (c: Cause)
    requires causes != []
    ensures c in causes && forall d :: d in causes ==> Get(h, d) <= Get(h, c)
  {
    var last := causes[|causes| - 1];
    if |causes| == 1 then last
    else
      var c := LastMax(h, causes[..|causes| - 1]);
      if Get(h, last) >= Get(h, c) then last else c
  }

  /** On a tie the cause listed last is reported. */
  lemma {:induction false} LastMaxIsLast(h: Histogram, causes: seq<Cause>) returns (i: nat)
    requires causes != []
    ensures i < |causes| && causes[i] == LastMax(h, causes)
    ensures forall j :: i < j < |causes| ==> Get(h, causes[j]) < Get(h, causes[i])
  {
    hide Get;
    i := |causes| - 1;
    if LastMax(h, causes) != causes[i] {
      i := LastMaxIsLast(h, causes[..|causes| - 1]);
    }
  }

  const CauseOrder := [Incapable, Elsewhere, Unavailable, LowQuality, OverRisk, Slow, TooDear, Worthless, Off]

  function Dominant(h: Histogram): Cause {
    var c := LastMax(h, CauseOrder);
    if Get(h, c) > 0 then c else Off
  }

  predicate Blocked(s: Settings, input: Input) {
    input.risk_bps >= s.hard_risk_limit_bps || input.confidence_bps < s.minimum_confidence_bps
  }

  function SecondOf(s: Settings, models: seq<Model>, input: Input, n: nat): Option<nat>
    requires n <= |models|
  {
    var best := BestOf(s, models, input, n, -1);
    if best.None? then None else BestOf(s, models, input, n, best.value)
  }

  function Pick(s: Settings, models: seq<Model>, input: Input, i: Option<nat>): Option<Candidate>
    requires (i.Some? ==> Ranked(s, models, input, i.value))
  {
    if i.Some? then Some(CandidateAt(s, models, input, i.value)) else None
  }

  /**
   * The decision the kernel stands for: hard limits first, then the best candidate over unbounded
   * integers with the best of the rest beside it, or the dominant cause of rejection.
   */
  function Decide(s: Settings, models: seq<Model>, input: Input): Decision
  {
    if input.risk_bps >= s.hard_risk_limit_bps then Refuse(s, input, RiskHardLimit, 0, 0)
    else if input.confidence_bps < s.minimum_confidence_bps then Refuse(s, input, ConfidenceHardLimit, 0, 0)
    else
      var best := BestOf(s, models, input, |models|, -1);
      var eligible := Count(s, models, input, |models|, None);
      var evaluated := Saturated(|models|);
      if best.None? then Refuse(s, input, Because(Dominant(HistogramOf(s, models, input))), evaluated, Saturated(eligible))
      else
        Accept(s, input, CandidateAt(s, models, input, best.value), Pick(s, models, input, SecondOf(s, models, input, |models|)),
               evaluated, Saturated(eligible))
  }

  ghost predicate Sound(p: Policy) {
    forall i :: 0 <= i < |p.models| ==> Bounded(p, p.models[i])
  }

  /** One step of the incremental ranking agrees with ranking from scratch. */
  lemma RankStep(s: Settings, models: seq<Model>, input: Input, n: nat)
    requires n < |models|
    ensures var best, second := BestOf(s, models, input, n, -1), SecondOf(s, models, input, n);
      var best', second' := BestOf(s, models, input, n + 1, -1), SecondOf(s, models, input, n + 1);
      if !Ranked(s, models, input, n) then best' == best && second' == second
      else if best.None? then best' == Some(n) && second' == None
      else if Beats(s, models, input, n, best.value) then best' == Some(n) && second' == best
      else best' == best && second' == if second.None? || Beats(s, models, input, n, second.value) then Some(n) else second
  {
    SkipOutside(s, models, input, n, n);
  }

  // ----- The loop -----

  /** What the two best candidates of the loop are after `n` models. */
  ghost predicate Leading(
    s: Settings, models: seq<Model>, input: Input, n: nat, best: Option<Candidate>, second: Option<Candidate>)
    requires n <= |models|
  {
    && best == Pick(s, models, input, BestOf(s, models, input, n, -1))
    && second == Pick(s, models, input, SecondOf(s, models, input, n))
  }

  /** What its counters are. */
  ghost predicate Counted(s: Settings, models: seq<Model>, input: Input, n: nat, eligible: nat, h: Histogram)
    requires n <= |models|
  {
    eligible == Saturated(Count(s, models, input, n, None)) && Counts(h, s, models, input, n)
  }

  /** The update of the two best candidates keeps them the best two of the models looked at. */
  method Rank(ghost s: Settings, ghost models: seq<Model>, ghost input: Input, ghost n: nat,
              c: Candidate, best: Option<Candidate>, second: Option<Candidate>)
    returns (best': Option<Candidate>, second': Option<Candidate>)
    requires n < |models| && Ranked(s, models, input, n) && c == CandidateAt(s, models, input, n)
    requires Leading(s, models, input, n, best, second)
    ensures Leading(s, models, input, n + 1, best', second')
  {
    hide Judge, Better, BestOf;
    RankStep(s, models, input, n);
    best', second' := best, second;
    match best
    case None => best' := Some(c);
    case Some(current) =>
      if Better(c, current) {
        second' := best;
        best' := Some(c);
      } else if second.None? || Better(c, second.value) {
        second' := Some(c);
      }
  }

  lemma PassedOver(
    s: Settings, models: seq<Model>, input: Input, n: nat, best: Option<Candidate>, second: Option<Candidate>)
    requires n < |models| && !Ranked(s, models, input, n) && Leading(s, models, input, n, best, second)
    ensures Leading(s, models, input, n + 1, best, second)
  {
    hide Judge, BestOf, SecondOf;
    RankStep(s, models, input, n);
  }

  lemma OneMore(s: Settings, models: seq<Model>, input: Input, n: nat, eligible: u16, h: Histogram)
    requires n < |models| && Counted(s, models, input, n, eligible, h)
    ensures var c := CauseOf(Judge(s, models[n], input));
      && (c.None? ==> Counted(s, models, input, n + 1, Saturated(eligible + 1), h))
      && (c.Some? ==> Counted(s, models, input, n + 1, eligible, Bump(h, c.value)))
  {
    hide Judge, Get, Bump, CauseOf, Shown;
    var c := CauseOf(Judge(s, models[n], input));
    if c.Some? {
      BumpGet(h, c.value);
      ShownStep(c.value, Count(s, models, input, n, c));
    }
  }

  lemma ShownStep(c: Cause, n: nat)
    ensures Shown(c, Shown(c, n) + 1) == Shown(c, n + 1)
  {
  }

  /** The verdict the loop computes is the one that ranks or counts the model. */
  lemma JudgedAt(p: Policy, input: Input, i: nat)
    requires Sound(p) && i < |p.models|
    ensures var v, m := Judge(p.settings, p.models[i], input), p.models[i];
      && PricedVerdict(NewPricing(p, input), m, input) == v
      && (v.Eligible? <==> Ranked(p.settings, p.models, input, i)) && (v.Eligible? <==> CauseOf(v).None?)
      && (v.Eligible? ==> CandidateAt(p.settings, p.models, input, i)
                          == Candidate(m.model_id, Saturated(i), m.quality_bps, v.terms.cost, v.terms.utility))
  {
    hide Judge, PricedVerdict, NewPricing;
    GuardsSuffice(p, p.models[i], input);
  }

  lemma NothingScanned(s: Settings, models: seq<Model>, input: Input)
    ensures Leading(s, models, input, 0, None, None) && Counted(s, models, input, 0, 0, NoRejections)
  {
  }

  method Scan(p: Policy, input: Input)
    returns (best: Option<Candidate>, second: Option<Candidate>, eligible: u16, h: Histogram)
    requires Sound(p)
    ensures Leading(p.settings, p.models, input, |p.models|, best, second)
    ensures Counted(p.settings, p.models, input, |p.models|, eligible, h)
  {
    hide Leading, Counted, Judge, PricedVerdict, Bump, NewPricing, Sound, Ranked, CandidateAt, CauseOf;
    var s, models := p.settings, p.models;
    best, second, eligible, h := None, None, 0, NoRejections;
    var q := NewPricing(p, input);
    NothingScanned(s, models, input);
    for i := 0 to |models|
      invariant Leading(s, models, input, i, best, second)
      invariant Counted(s, models, input, i, eligible, h)
    {
      var m := models[i];
      JudgedAt(p, input, i);
      var verdict := PricedVerdict(q, m, input);
      OneMore(s, models, input, i, eligible, h);
      if verdict.Eligible? {
        eligible := Saturated(eligible + 1);
        var candidate := Candidate(m.model_id, Saturated(i), m.quality_bps, verdict.terms.cost, verdict.terms.utility);
        best, second := Rank(s, models, input, i, candidate, best, second);
      } else {
        PassedOver(s, models, input, i, best, second);
        h := Bump(h, CauseOf(verdict).value);
      }
    }
  }

  /**
   * `prescribe_inner`: one pass keeping the best two candidates and a histogram, with the guarded
   * 64-bit arithmetic, gives exactly the decision defined over unbounded integers.
   */
  method Prescribe(p: Policy, input: Input) returns (d: Decision, h: Histogram)
    requires Sound(p)
    ensures d == Decide(p.settings, p.models, input)
    ensures if Blocked(p.settings, input) then h == NoRejections else Counts(h, p.settings, p.models, input, |p.models|)
  {
    hide Judge, Get, CandidateAt, Dominant, HistogramOf, BestOf, SecondOf;
    var s := p.settings;
    if input.risk_bps >= s.hard_risk_limit_bps {
      return Refuse(s, input, RiskHardLimit, 0, 0), NoRejections;
    }
    if input.confidence_bps < s.minimum_confidence_bps {
      return Refuse(s, input, ConfidenceHardLimit, 0, 0), NoRejections;
    }
    var best, second, eligible, h' := Scan(p, input);
    h := h';
    if best.None? {
      SameHistogram(h, HistogramOf(s, p.models, input));
      d := Refuse(s, input, Because(Dominant(h)), Saturated(|p.models|), eligible);
    } else {
      d := Accept(s, input, best.value, second, Saturated(|p.models|), eligible);
    }
  }

  lemma SameHistogram(a: Histogram, b: Histogram)
    requires forall c :: Get(a, c) == Get(b, c)
    ensures a == b
  {
    assert Get(a, Off) == Get(b, Off) && Get(a, LowQuality) == Get(b, LowQuality) && Get(a, OverRisk) == Get(b, OverRisk);
    assert Get(a, Slow) == Get(b, Slow) && Get(a, Incapable) == Get(b, Incapable);
    assert Get(a, Unavailable) == Get(b, Unavailable) && Get(a, Elsewhere) == Get(b, Elsewhere);
    assert Get(a, TooDear) == Get(b, TooDear) && Get(a, Worthless) == Get(b, Worthless);
  }
}
