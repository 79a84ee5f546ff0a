/**
 * What the numbers and fields of a decision mean, fixed by laws that do not mention how they are
 * computed: products by the inequalities that bound them, masks bit by bit, counters model by model.
 */
module KernelMeaning {
  import opened Wrappers
  import opened Division
  import opened Kernel
  import opened KernelDecide
  import opened KernelPolicy

  // ----- Masks -----

  lemma BitOrNothing(x: bv64, i: nat)
    requires i < 64
    ensures x & BitAt(i) == 0 || x & BitAt(i) == BitAt(i)
    ensures BitAt(i) != 0
  {
    assert forall y: bv64, k: bv64 {:trigger y & (1 << k)} :: k < 64 ==> y & (1 << k) == 0 || y & (1 << k) == 1 << k;
  }

  /** A required bit lacks exactly when it is not there. */
  lemma CapabilityBit(capabilities: bv64, i: nat)
    requires i < 64
    ensures LacksCapability(capabilities, BitAt(i)) <==> capabilities & BitAt(i) == 0
  {
    hide BitAt;
    BitOrNothing(capabilities, i);
  }

  lemma PartOfUnion(c: bv64, a: bv64, b: bv64)
    ensures c & (a | b) == a | b ==> c & a == a
  {
  }

  lemma UnionOfParts(c: bv64, a: bv64, b: bv64)
    ensures c & a == a && c & b == b ==> c & (a | b) == a | b
  {
  }

  /** Several bits lack exactly when one of them does, and none lack when none is required. */
  lemma CapabilityBits(capabilities: bv64, a: bv64, b: bv64)
    ensures LacksCapability(capabilities, a | b) <==> LacksCapability(capabilities, a) || LacksCapability(capabilities, b)
    ensures !LacksCapability(capabilities, 0)
  {
    PartOfUnion(capabilities, a, b);
    PartOfUnion(capabilities, b, a);
    UnionOfParts(capabilities, a, b);
    EitherOrder(a, b);
  }

  lemma EitherOrder(a: bv64, b: bv64)
    ensures a | b == b | a
  {
  }

  lemma AllBits(x: bv64)
    ensures ALL_PROVIDERS & x == x
  {
  }

  /** A provider is excluded exactly when its bit is off; under the mask of all providers none is. */
  lemma ProviderBit(provider: u16, allowed: bv64)
    requires provider <= MAX_PROVIDER_ID
    ensures ProviderExcluded(provider, allowed) <==> allowed & BitAt(provider) == 0
  {
    hide BitAt;
    BitOrNothing(allowed, provider);
    AllBits(BitAt(provider));
  }

  /** A model is outside a region that is asked for exactly when it has no bit of it in common. */
  lemma RegionBit(region: bv64, i: nat)
    requires i < 64
    ensures OutsideRegion(region, BitAt(i)) <==> region & BitAt(i) == 0
  {
    hide BitAt;
    BitOrNothing(region, i);
  }

  lemma ApartFromUnion(region: bv64, a: bv64, b: bv64)
    ensures region & (a | b) == 0 ==> region & a == 0
  {
  }

  lemma ApartFromBoth(region: bv64, a: bv64, b: bv64)
    ensures region & a == 0 && region & b == 0 ==> region & (a | b) == 0
  {
  }

  lemma NonEmptyUnion(a: bv64, b: bv64)
    ensures a != 0 ==> a | b != 0
  {
  }

  lemma RegionBits(region: bv64, a: bv64, b: bv64)
    ensures a != 0 && b != 0 ==> (OutsideRegion(region, a | b) <==> OutsideRegion(region, a) && OutsideRegion(region, b))
    ensures !OutsideRegion(region, 0)
  {
    ApartFromUnion(region, a, b);
    ApartFromUnion(region, b, a);
    ApartFromBoth(region, a, b);
    EitherOrder(a, b);
    NonEmptyUnion(a, b);
  }

  // ----- Numbers -----

  /** `q` is `n / d` rounded down. */
  predicate RoundedDown(n: int, d: nat, q: int) {
    d * q <= n < d * (q + 1)
  }

  /** `c` is `n / d` rounded up. */
  predicate RoundedUp(n: int, d: nat, c: int) {
    d * (c - 1) < n <= d * c
  }

  lemma DownIsDivision(n: nat, d: nat, q: int)
    requires 0 < d && RoundedDown(n, d, q)
    ensures n / d == q
  {
    if q < 0 {
      MulMono(d, 0, -(q + 1));
    }
    DivUnique(n, d, q, n - d * q);
  }

  lemma ScaledIs(value: nat, a: nat, b: nat, q: int)
    requires RoundedDown(value * a * b, 100_000_000, q)
    ensures Scaled(value, a, b) == q
  {
    MulMono(value, 0, a);
    MulMono(value * a, 0, b);
    DownIsDivision(value * a * b, 100_000_000, q);
  }

  lemma ChargeIs(tokens: nat, price: nat, c: int)
    requires RoundedUp(tokens * price, 1_000_000, c)
    ensures Charge(tokens, price) == c
  {
    ChargeIsCeiling(tokens, price);
  }

  /** A number brought into the range of 64 bits with sign. */
  predicate Saturates(x: int, y: int) {
    && -0x8000_0000_0000_0000 <= y <= 0x7FFF_FFFF_FFFF_FFFF
    && (-0x8000_0000_0000_0000 <= x <= 0x7FFF_FFFF_FFFF_FFFF ==> y == x)
    && (x > 0x7FFF_FFFF_FFFF_FFFF ==> y == 0x7FFF_FFFF_FFFF_FFFF)
    && (x < -0x8000_0000_0000_0000 ==> y == -0x8000_0000_0000_0000)
  }

  /** The four terms of a utility: value lost to confidence and quality, risk, price and latency. */
  ghost predicate Weighed(s: Settings, m: Model, input: Input, q: int, r: int, c: int, l: int) {
    var v := if input.business_value > 0 then input.business_value else 0;
    && RoundedDown(v * input.confidence_bps * m.quality_bps, 100_000_000, q)
    && RoundedDown(v * input.risk_bps * s.risk_penalty_multiplier_bps, 100_000_000, r)
    && Priced(m, input, c)
    && l == m.p95_latency_ms * s.latency_penalty
  }

  /** Tokens in and out at their prices for a million, each rounded up, and no more than 64 bits hold. */
  ghost predicate Priced(m: Model, input: Input, c: int) {
    exists a, b ::
      && RoundedUp(input.input_tokens * m.input_price, 1_000_000, a)
      && RoundedUp(input.output_tokens * m.output_price, 1_000_000, b)
      && c == if a + b > 0xFFFF_FFFF_FFFF_FFFF then 0xFFFF_FFFF_FFFF_FFFF else a + b
  }

  lemma CostIs(m: Model, input: Input, c: int)
    requires Priced(m, input, c)
    ensures Cost(m, input) == c
  {
    hide Charge;
    var a, b :|
      && RoundedUp(input.input_tokens * m.input_price, 1_000_000, a)
      && RoundedUp(input.output_tokens * m.output_price, 1_000_000, b)
      && c == if a + b > 0xFFFF_FFFF_FFFF_FFFF then 0xFFFF_FFFF_FFFF_FFFF else a + b;
    ChargeIs(input.input_tokens, m.input_price, a);
    ChargeIs(input.output_tokens, m.output_price, b);
  }

  lemma TermsAre(s: Settings, m: Model, input: Input, q: int, r: int, c: u64, l: int)
    requires Weighed(s, m, input, q, r, c, l)
    ensures var t := TermsOf(s, m, input, c);
      && t.quality_adjusted == q && t.risk_penalty == r && t.cost == c && t.latency_penalty == l
      && Saturates(q - r - c - l, t.utility)
  {
    hide Scaled;
    var v := Value(input);
    ScaledIs(v, input.confidence_bps, m.quality_bps, q);
    ScaledIs(v, input.risk_bps, s.risk_penalty_multiplier_bps, r);
  }

  /**
   * The verdict on a model that fails no gate: over budget by its price, or weighed by its four terms
   * and eligible exactly when what is left of them is positive.
   */
  lemma VerdictMeans(s: Settings, m: Model, input: Input, q: int, r: int, c: int, l: int)
    requires Weighed(s, m, input, q, r, c, l) && forall g :: !Fails(g, m, input)
    ensures var v := Judge(s, m, input);
      && (c > input.budget_limit ==> v == OverBudget(c))
      && (c <= input.budget_limit ==>
            && (v.Eligible? || v.NonPositiveUtility?) && (v.Eligible? <==> q - r - c - l > 0)
            && v.terms.quality_adjusted == q && v.terms.risk_penalty == r && v.terms.cost == c
            && v.terms.latency_penalty == l && Saturates(q - r - c - l, v.terms.utility))
  {
    hide Fails, TermsOf, Cost, Weighed;
    FirstGateExact(m, input);
    assert Priced(m, input, c) by {
      WeighedPrice(s, m, input, q, r, c, l);
    }
    CostIs(m, input, c);
    TermsAre(s, m, input, q, r, c, l);
  }

  lemma WeighedPrice(s: Settings, m: Model, input: Input, q: int, r: int, c: int, l: int)
    requires Weighed(s, m, input, q, r, c, l)
    ensures Priced(m, input, c)
  {
  }

  /** The numbers of a decision that selects a model are those terms of the model. */
  lemma DecisionWeighs(s: Settings, models: seq<Model>, input: Input, b: nat, q: int, r: int, c: int, l: int)
    requires DistinctIds(models) && Decide(s, models, input).action != Reject
    requires b < |models| && models[b].model_id == Decide(s, models, input).selected_model_id
    requires Weighed(s, models[b], input, q, r, c, l)
    ensures var d := Decide(s, models, input);
      && d.estimated_cost == c <= input.budget_limit && Saturates(q - r - c - l, d.expected_utility) && q - r - c - l > 0
  {
    hide Judge, HistogramOf, Count, BestOf, Weighed;
    var w := BestOf(s, models, input, |models|, -1).value;
    assert w == b;
    JudgedFree(s, models[b], input);
    VerdictMeans(s, models[b], input, q, r, c, l);
  }

  lemma JudgedFree(s: Settings, m: Model, input: Input)
    ensures Judge(s, m, input).Eligible? ==> forall g :: !Fails(g, m, input)
  {
    hide Fails, TermsOf, Cost;
    FirstGateExact(m, input);
  }

  // ----- The other fields -----

  /** What a decision repeats of the request and the policy, and what it counts. */
  lemma DecisionEchoes(s: Settings, models: seq<Model>, input: Input)
    ensures var d := Decide(s, models, input);
      && d.request_sequence == input.request_sequence && d.policy_epoch == s.policy_epoch && d.catalog_epoch == s.catalog_epoch
      && (d.action == Reject ==>
            && d.selected_model_id == 0 && d.selected_model_index == 0xFFFF && d.estimated_cost == 0 && d.expected_utility == 0
            && d.counterfactual_model_id == 0 && d.counterfactual_utility == 0)
      && (d.action == ExecuteRequested <==> d.reason == RequestedModelMaximizesUtility)
      && (d.action == Substitute <==> d.reason == AlternativeMaximizesUtility)
      && (d.action != Reject ==> (d.action == ExecuteRequested <==> d.selected_model_id == input.requested_model_id))
  {
    hide BestOf, HistogramOf, Count, CandidateAt, Dominant;
  }

  /** A request over the hard limits is refused before any model is looked at, for its risk first. */
  lemma HardLimits(s: Settings, models: seq<Model>, input: Input)
    ensures var d := Decide(s, models, input);
      && (d.reason == RiskHardLimit <==> input.risk_bps >= s.hard_risk_limit_bps)
      && (d.reason == ConfidenceHardLimit <==>
            input.risk_bps < s.hard_risk_limit_bps && input.confidence_bps < s.minimum_confidence_bps)
      && (d.reason == RiskHardLimit || d.reason == ConfidenceHardLimit ==>
            d.action == Reject && d.evaluated_models == 0 && d.eligible_models == 0)
  {
    hide BestOf, HistogramOf, Count, CandidateAt, Dominant;
  }

  /** The places of the models that are ranked. */
  ghost function RankedPlaces(s: Settings, models: seq<Model>, input: Input, n: nat): set<nat>
    requires n <= |models|
  {
    set i: nat | i < n && Ranked(s, models, input, i)
  }

  lemma {:induction false} EligibleCounts(s: Settings, models: seq<Model>, input: Input, n: nat)
    requires n <= |models|
    ensures Count(s, models, input, n, None) == |RankedPlaces(s, models, input, n)|
  {
    hide Judge;
    if n == 0 {
      assert RankedPlaces(s, models, input, 0) == {};
    } else {
      EligibleCounts(s, models, input, n - 1);
      var before, now := RankedPlaces(s, models, input, n - 1), RankedPlaces(s, models, input, n);
      if Ranked(s, models, input, n - 1) {
        assert now == before + {n - 1};
      } else {
        assert now == before;
      }
    }
  }

  /** Past the hard limits every model is looked at, and the ranked ones are counted. */
  lemma DecisionCounts(s: Settings, models: seq<Model>, input: Input)
    requires !Blocked(s, input) && Countable(models)
    ensures var d := Decide(s, models, input);
      d.evaluated_models == |models| && d.eligible_models == |RankedPlaces(s, models, input, |models|)|
  {
    hide BestOf, HistogramOf, Count, CandidateAt, Dominant, RankedPlaces;
    EligibleCounts(s, models, input, |models|);
  }

  // ----- The histogram -----

  /** The gate fails, and none before it does. */
  ghost predicate FirstFails(g: Gate, m: Model, input: Input) {
    Fails(g, m, input) && forall f :: GateRank(f) < GateRank(g) ==> !Fails(f, m, input)
  }

  /** The places of the models whose first failing gate is `g`. */
  ghost function FailedAt(models: seq<Model>, input: Input, n: nat, g: Gate): set<nat>
    requires n <= |models|
  {
    set i: nat | i < n && FirstFails(g, models[i], input)
  }

  /** The places of the models that pass every gate and cost too much. */
  ghost function DearAt(s: Settings, models: seq<Model>, input: Input, n: nat): set<nat>
    requires n <= |models|
  {
    set i: nat | i < n && (forall f :: !Fails(f, models[i], input)) && Cost(models[i], input) > input.budget_limit
  }

  lemma RejectedFirst(s: Settings, m: Model, input: Input, g: Gate)
    ensures Judge(s, m, input) == Rejected(g) <==> FirstFails(g, m, input)
    ensures Judge(s, m, input).OverBudget? <==> (forall f :: !Fails(f, m, input)) && Cost(m, input) > input.budget_limit
  {
    hide Fails, TermsOf, Cost;
    FirstGateExact(m, input);
    if Fails(g, m, input) && FirstFailedGate(m, input).Some? {
      SameRank(g, FirstFailedGate(m, input).value);
    }
  }

  lemma SameRank(a: Gate, b: Gate)
    ensures GateRank(a) == GateRank(b) ==> a == b
  {
  }

  /** How many models are judged `v`. */
  function Judged(s: Settings, models: seq<Model>, input: Input, n: nat, g: Gate): nat
    requires n <= |models|
  {
    if n == 0 then 0 else Judged(s, models, input, n - 1, g) + if Judge(s, models[n - 1], input) == Rejected(g) then 1 else 0
  }

  lemma {:induction false} JudgedCounts(s: Settings, models: seq<Model>, input: Input, n: nat, g: Gate)
    requires n <= |models|
    ensures Judged(s, models, input, n, g) == |FailedAt(models, input, n, g)|
  {
    hide Judge, FirstFails;
    if n == 0 {
      assert FailedAt(models, input, 0, g) == {};
    } else {
      JudgedCounts(s, models, input, n - 1, g);
      RejectedFirst(s, models[n - 1], input, g);
      var before, now := FailedAt(models, input, n - 1, g), FailedAt(models, input, n, g);
      if Judge(s, models[n - 1], input) == Rejected(g) {
        assert now == before + {n - 1};
      } else {
        assert now == before;
      }
    }
  }

  lemma {:induction false} CountsByGate(s: Settings, models: seq<Model>, input: Input, n: nat)
    requires n <= |models|
    ensures var at := (c: Cause) => Count(s, models, input, n, Some(c)); var of := (g: Gate) => Judged(s, models, input, n, g);
      && at(Off) == of(Disabled) && at(LowQuality) == of(Quality) && at(Slow) == of(Latency) && at(Incapable) == of(Capability)
      && at(Unavailable) == of(ProviderUnrepresentable) + of(ProviderNotAllowed) && at(Elsewhere) == of(Region)
      && at(OverRisk) == of(RiskCeiling)
  {
    hide Judge;
    if n > 0 {
      CountsByGate(s, models, input, n - 1);
    }
  }

  lemma {:induction false} CountsDear(s: Settings, models: seq<Model>, input: Input, n: nat)
    requires n <= |models|
    ensures Count(s, models, input, n, Some(TooDear)) == |DearAt(s, models, input, n)|
  {
    hide Judge, Fails, Cost;
    if n == 0 {
      assert DearAt(s, models, input, 0) == {};
    } else {
      CountsDear(s, models, input, n - 1);
      RejectedFirst(s, models[n - 1], input, Disabled);
      var before, now := DearAt(s, models, input, n - 1), DearAt(s, models, input, n);
      if Judge(s, models[n - 1], input).OverBudget? {
        assert now == before + {n - 1};
      } else {
        assert now == before;
      }
    }
  }

  /** Each field of the histogram counts the models that fail first at its gate, or cost too much; the rest is worthless. */
  lemma HistogramMeans(s: Settings, models: seq<Model>, input: Input, h: Histogram)
    requires Countable(models) && Counts(h, s, models, input, |models|)
    ensures var n := |models|; var of := (g: Gate) => |FailedAt(models, input, n, g)|;
      && h.disabled == of(Disabled) && h.quality == of(Quality) && h.latency == of(Latency) && h.capability == of(Capability)
      && h.provider == of(ProviderUnrepresentable) + of(ProviderNotAllowed) && h.region == of(Region)
      && h.risk_ceiling == of(RiskCeiling) && h.budget == |DearAt(s, models, input, n)|
      && h.utility == n - |RankedPlaces(s, models, input, n)| - h.disabled - h.quality - h.latency - h.capability
                      - h.provider - h.region - h.risk_ceiling - h.budget
  {
    hide Count, FailedAt, DearAt, RankedPlaces, Judged, Counts, Shown;
    var n := |models|;
    forall g
      ensures Judged(s, models, input, n, g) == |FailedAt(models, input, n, g)|
    {
      JudgedCounts(s, models, input, n, g);
    }
    forall c
      ensures Get(h, c) == Count(s, models, input, n, Some(c))
    {
      CountedExactly(s, models, input, n, h, c);
    }
    CountsByGate(s, models, input, n);
    CountsDear(s, models, input, n);
    EligibleCounts(s, models, input, n);
    CountsCover(s, models, input, n, h);
    assert Get(h, Off) == h.disabled && Get(h, LowQuality) == h.quality && Get(h, Slow) == h.latency;
    assert Get(h, Incapable) == h.capability && Get(h, Unavailable) == h.provider && Get(h, Elsewhere) == h.region;
    assert Get(h, OverRisk) == h.risk_ceiling && Get(h, TooDear) == h.budget;
  }

  /** Which cause is named among equally frequent ones: the higher. */
  function Precedence(c: Cause): nat {
    match c
    case Incapable => 0
    case Elsewhere => 1
    case Unavailable => 2
    case LowQuality => 3
    case OverRisk => 4
    case Slow => 5
    case TooDear => 6
    case Worthless => 7
    case Off => 8
  }

  /** The dominant cause is the most frequent one, and of several the one of highest precedence. */
  lemma DominantMeans(h: Histogram, c: Cause)
    ensures var d := Dominant(h); Get(h, c) < Get(h, d) || (Get(h, c) == Get(h, d) && Precedence(c) <= Precedence(d))
  {
    hide Get, LastMax;
    CauseListed(c);
    var i := LastMaxIsLast(h, CauseOrder);
    ListedByPrecedence(i);
    ListedByPrecedence(Precedence(c));
    PlaceOf(c);
  }

  lemma ListedByPrecedence(i: nat)
    ensures i < |CauseOrder| ==> Precedence(CauseOrder[i]) == i
    ensures |CauseOrder| == 9
  {
  }

  lemma PlaceOf(c: Cause)
    ensures Precedence(c) < 9 && CauseOrder[Precedence(c)] == c
  {
  }
}
