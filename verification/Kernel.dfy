/**
 * The decision kernel: constraint gates, pricing with guarded 64-bit arithmetic, and the wide-integer
 * meaning of both.
 */
module Kernel {
  import opened Wrappers
  import opened Division

  type u8 = x: int | 0 <= x <= 0xFF
  type u16 = x: int | 0 <= x <= 0xFFFF
  type u32 = x: int | 0 <= x <= 0xFFFF_FFFF
  type u64 = x: int | 0 <= x <= 0xFFFF_FFFF_FFFF_FFFF
  type i64 = x: int | I64_MIN <= x <= I64_MAX

  const SCALED_BASIS_POINTS: nat := 100_000_000
  const COST_SCALE: nat := 1_000_000
  const COST_ROUNDING: nat := 999_999
  const ALL_PROVIDERS: bv64 := 0xFFFF_FFFF_FFFF_FFFF
  const MAX_PROVIDER_ID: u16 := 63
  const MAX_BPS: u16 := 10_000

  /** A catalog entry; prices are microunits per million tokens. */
  datatype Model = Model(
    model_id: u32, provider_id: u16, quality_bps: u16, risk_ceiling_bps: u16, enabled: u8,
    p95_latency_ms: u32, capabilities: bv64, region_mask: bv64, input_price: u64, output_price: u64)

  datatype Input = Input(
    request_sequence: u64, requested_model_id: u32, input_tokens: u32, output_tokens: u32,
    business_value: i64, budget_limit: u64, risk_bps: u16, confidence_bps: u16, minimum_quality_bps: u16,
    max_p95_latency_ms: u32, required_capabilities: bv64, allowed_provider_mask: bv64, required_region_mask: bv64)

  datatype Settings = Settings(
    policy_epoch: u64, catalog_epoch: u64, hard_risk_limit_bps: u16, minimum_confidence_bps: u16,
    risk_penalty_multiplier_bps: u16, latency_penalty: u64)

  /** A policy with the maxima of its catalog, which the guards read. */
  datatype Policy = Policy(
    settings: Settings, max_quality_bps: u16, max_p95_latency_ms: u32, max_input_price: u64, max_output_price: u64,
    models: seq<Model>)

  // ----- Gates -----

  datatype Gate =
    | Disabled | Quality | Latency | Capability | ProviderUnrepresentable | ProviderNotAllowed | Region | RiskCeiling

  function BitAt(i: nat): bv64
    requires i < 64
  {
    (1 as bv64) << i
  }

  predicate LacksCapability(capabilities: bv64, required: bv64) {
    capabilities & required != required
  }

  predicate ProviderExcluded(provider_id: u16, allowed: bv64)
    requires provider_id <= MAX_PROVIDER_ID
  {
    allowed != ALL_PROVIDERS && allowed & BitAt(provider_id) == 0
  }

  predicate OutsideRegion(region: bv64, required: bv64) {
    required != 0 && region & required == 0
  }

  /** The first gate a model fails; the order is part of the result. */
  function FirstFailedGate(m: Model, input: Input): Option<Gate> {
    if m.enabled == 0 then Some(Disabled)
    else if m.quality_bps < input.minimum_quality_bps then Some(Quality)
    else if input.max_p95_latency_ms > 0 && m.p95_latency_ms > input.max_p95_latency_ms then Some(Latency)
    else if LacksCapability(m.capabilities, input.required_capabilities) then Some(Capability)
    else if m.provider_id > MAX_PROVIDER_ID then Some(ProviderUnrepresentable)
    else if ProviderExcluded(m.provider_id, input.allowed_provider_mask) then Some(ProviderNotAllowed)
    else if OutsideRegion(m.region_mask, input.required_region_mask) then Some(Region)
    else if input.risk_bps > m.risk_ceiling_bps then Some(RiskCeiling)
    else None
  }

  /** What each gate asks, on its own. */
  predicate Fails(gate: Gate, m: Model, input: Input) {
    match gate
    case Disabled => m.enabled == 0
    case Quality => m.quality_bps < input.minimum_quality_bps
    case Latency => 0 < input.max_p95_latency_ms < m.p95_latency_ms
    case Capability => LacksCapability(m.capabilities, input.required_capabilities)
    case ProviderUnrepresentable => MAX_PROVIDER_ID < m.provider_id
    case ProviderNotAllowed => m.provider_id <= MAX_PROVIDER_ID && ProviderExcluded(m.provider_id, input.allowed_provider_mask)
    case Region => OutsideRegion(m.region_mask, input.required_region_mask)
    case RiskCeiling => m.risk_ceiling_bps < input.risk_bps
  }

  function GateRank(gate: Gate): nat {
    match gate
    case Disabled => 0
    case Quality => 1
    case Latency => 2
    case Capability => 3
    case ProviderUnrepresentable => 4
    case ProviderNotAllowed => 5
    case Region => 6
    case RiskCeiling => 7
  }

  /** The reported gate fails and none before it does. */
  lemma FirstGateExact(m: Model, input: Input)
    ensures FirstFailedGate(m, input).None? <==> forall g :: !Fails(g, m, input)
    ensures FirstFailedGate(m, input).Some? ==>
      var gate := FirstFailedGate(m, input).value;
      Fails(gate, m, input) && forall g :: GateRank(g) < GateRank(gate) ==> !Fails(g, m, input)
  {
    hide ProviderExcluded, LacksCapability, OutsideRegion;
    var r := FirstFailedGate(m, input);
    if r.Some? {
      assert Fails(r.value, m, input);
    }
  }

  // ----- What the arithmetic means, over unbounded integers -----

  datatype Terms = Terms(quality_adjusted: nat, risk_penalty: nat, cost: u64, latency_penalty: nat, utility: i64)

  datatype Verdict =
    | Rejected(gate: Gate)
    | OverBudget(price: u64)
    | NonPositiveUtility(terms: Terms)
    | Eligible(terms: Terms)

  function Clamp(x: int): i64 {
    if x < I64_MIN then I64_MIN else if x > I64_MAX then I64_MAX else x
  }

  function Value(input: Input): nat {
    if input.business_value < 0 then 0 else input.business_value
  }

  function Scaled(value: nat, first_bps: nat, second_bps: nat): nat {
    value * first_bps * second_bps / SCALED_BASIS_POINTS
  }

  /** A charge for some tokens, rounded up. */
  function Charge(tokens: nat, price: nat): nat {
    (tokens * price + COST_ROUNDING) / COST_SCALE
  }

  lemma ChargeIsCeiling(tokens: nat, price: nat)
    ensures COST_SCALE * Charge(tokens, price) >= tokens * price
    ensures COST_SCALE * (Charge(tokens, price) - 1) < tokens * price
  {
    MulMono(tokens, 0, price);
    assert tokens * price + COST_ROUNDING
        == COST_SCALE * Charge(tokens, price) + (tokens * price + COST_ROUNDING) % COST_SCALE;
  }

  function Cost(m: Model, input: Input): u64 {
    var sum := Charge(input.input_tokens, m.input_price) + Charge(input.output_tokens, m.output_price);
    if sum > U64_MAX then U64_MAX else sum
  }

  function TermsOf(s: Settings, m: Model, input: Input, cost: u64): Terms {
    var quality_adjusted := Scaled(Value(input), input.confidence_bps, m.quality_bps);
    var risk_penalty := Scaled(Value(input), input.risk_bps, s.risk_penalty_multiplier_bps);
    var latency_penalty := m.p95_latency_ms * s.latency_penalty;
    Terms(quality_adjusted, risk_penalty, cost, latency_penalty,
          Clamp(quality_adjusted - risk_penalty - cost - latency_penalty))
  }

  /** What becomes of one candidate. */
  function Judge(s: Settings, m: Model, input: Input): Verdict {
    var gate := FirstFailedGate(m, input);
    if gate.Some? then Rejected(gate.value)
    else if Cost(m, input) > input.budget_limit then OverBudget(Cost(m, input))
    else
      var terms := TermsOf(s, m, input, Cost(m, input));
      if terms.utility <= 0 then NonPositiveUtility(terms) else Eligible(terms)
  }

  // ----- The same with 64-bit arithmetic behind guards -----

  function WrappingMul(a: u64, b: u64): u64 {
    a * b % (U64_MAX + 1)
  }

  function WrappingAdd(a: u64, b: u64): u64 {
    (a + b) % (U64_MAX + 1)
  }

  function CheckedMul(a: u64, b: u64): Option<u64> {
    if a * b > U64_MAX then None else Product(a, b)
  }

  function Product(a: u64, b: u64): Option<u64>
    requires a * b <= U64_MAX
  {
    assert 0 <= a * b;
    Some(a * b)
  }

  function CheckedAdd(a: u64, b: u64): Option<u64> {
    if a + b > U64_MAX then None else Some(a + b)
  }

  function ScaledExact(value: u64, first_bps: u64, second_bps: u64): nat {
    match CheckedMul(value, first_bps)
    case None => Scaled(value, first_bps, second_bps)
    case Some(prefix) =>
      match CheckedMul(prefix, second_bps)
      case None => Scaled(value, first_bps, second_bps)
      case Some(numerator) => numerator / SCALED_BASIS_POINTS
  }

  /** The part of the pricing that is the same for every candidate. */
  datatype Pricing = Pricing(
    value: u64, confidence_bps: u64, quality_prefix: Option<u64>, risk_penalty: nat,
    all_costs_fit: bool, all_latencies_fit: bool, latency_penalty: u64)

  function AllCostsFit(p: Policy, input_tokens: u32, output_tokens: u32): bool {
    match (CheckedMul(input_tokens, p.max_input_price), CheckedMul(output_tokens, p.max_output_price))
    case (Some(a), Some(b)) =>
      var a, b := CheckedAdd(a, COST_ROUNDING), CheckedAdd(b, COST_ROUNDING);
      a.Some? && b.Some? && CheckedAdd(a.value, b.value).Some?
    case _ => false
  }

  function NewPricing(p: Policy, input: Input): Pricing {
    var value: u64 := Value(input);
    var prefix := CheckedMul(value, input.confidence_bps);
    Pricing(
      value, input.confidence_bps,
      if prefix.Some? && CheckedMul(prefix.value, p.max_quality_bps).Some? then prefix else None,
      ScaledExact(value, input.risk_bps, p.settings.risk_penalty_multiplier_bps),
      AllCostsFit(p, input.input_tokens, input.output_tokens),
      CheckedMul(p.max_p95_latency_ms, p.settings.latency_penalty).Some?,
      p.settings.latency_penalty)
  }

  function FastCost(m: Model, input: Input): u64 {
    WrappingAdd(
      WrappingAdd(WrappingMul(input.input_tokens, m.input_price), COST_ROUNDING) / COST_SCALE,
      WrappingAdd(WrappingMul(input.output_tokens, m.output_price), COST_ROUNDING) / COST_SCALE)
  }

  function PricedCost(q: Pricing, m: Model, input: Input): u64 {
    if q.all_costs_fit then FastCost(m, input) else Cost(m, input)
  }

  function PricedTerms(q: Pricing, m: Model, cost: u64): Terms {
    var quality_adjusted :=
      if q.quality_prefix.Some? then WrappingMul(q.quality_prefix.value, m.quality_bps) / SCALED_BASIS_POINTS
      else Scaled(q.value, q.confidence_bps, m.quality_bps);
    var latency_penalty: nat :=
      if q.all_latencies_fit then WrappingMul(m.p95_latency_ms, q.latency_penalty)
      else WideProduct(m.p95_latency_ms, q.latency_penalty);
    Terms(quality_adjusted, q.risk_penalty, cost, latency_penalty,
          Clamp(quality_adjusted - q.risk_penalty - cost - latency_penalty))
  }

  /** What the loop bodies compute for one candidate. */
  function PricedVerdict(q: Pricing, m: Model, input: Input): Verdict {
    var gate := FirstFailedGate(m, input);
    if gate.Some? then Rejected(gate.value)
    else
      var cost := PricedCost(q, m, input);
      if cost > input.budget_limit then OverBudget(cost)
      else
        var terms := PricedTerms(q, m, cost);
        if terms.utility <= 0 then NonPositiveUtility(terms) else Eligible(terms)
  }

  // ----- The guards rule out every wrap -----

  /** The maxima of a policy are upper bounds of its catalog. */
  ghost predicate Bounded(p: Policy, m: Model) {
    && m.quality_bps <= p.max_quality_bps && m.p95_latency_ms <= p.max_p95_latency_ms
    && m.input_price <= p.max_input_price && m.output_price <= p.max_output_price
  }

  lemma ChargeFits(tokens: u64, price: u64, max: u64)
    requires price <= max && tokens * max + COST_ROUNDING <= U64_MAX
    ensures WrappingAdd(WrappingMul(tokens, price), COST_ROUNDING) / COST_SCALE == Charge(tokens, price)
    ensures 0 <= Charge(tokens, price) <= tokens * max + COST_ROUNDING
  {
    MulMono(tokens, price, max);
  }

  lemma CostFits(p: Policy, m: Model, input: Input)
    requires Bounded(p, m) && AllCostsFit(p, input.input_tokens, input.output_tokens)
    ensures FastCost(m, input) == Cost(m, input)
  {
    hide WrappingMul, Charge;
    ChargeFits(input.input_tokens, m.input_price, p.max_input_price);
    ChargeFits(input.output_tokens, m.output_price, p.max_output_price);
  }

  lemma ScaledIsExact(value: u64, a: u64, b: u64)
    ensures ScaledExact(value, a, b) == Scaled(value, a, b)
  {
  }

  lemma QualityFits(p: Policy, m: Model, input: Input)
    requires Bounded(p, m)
    ensures var q := NewPricing(p, input);
      q.quality_prefix.Some? ==>
        WrappingMul(q.quality_prefix.value, m.quality_bps) / SCALED_BASIS_POINTS
        == Scaled(Value(input), input.confidence_bps, m.quality_bps)
  {
    hide ScaledExact, AllCostsFit;
    var q := NewPricing(p, input);
    if q.quality_prefix.Some? {
      MulMono(q.quality_prefix.value, m.quality_bps, p.max_quality_bps);
    }
  }

  lemma LatencyFits(p: Policy, m: Model)
    requires Bounded(p, m) && CheckedMul(p.max_p95_latency_ms, p.settings.latency_penalty).Some?
    ensures WrappingMul(m.p95_latency_ms, p.settings.latency_penalty) == m.p95_latency_ms * p.settings.latency_penalty
  {
    MulMono(p.settings.latency_penalty, m.p95_latency_ms, p.max_p95_latency_ms);
  }

  lemma PricedTermsExact(p: Policy, m: Model, input: Input, cost: u64)
    requires Bounded(p, m)
    ensures PricedTerms(NewPricing(p, input), m, cost) == TermsOf(p.settings, m, input, cost)
  {
    hide ScaledExact, AllCostsFit, WrappingMul, Scaled, CheckedMul;
    ScaledIsExact(Value(input), input.risk_bps, p.settings.risk_penalty_multiplier_bps);
    QualityFits(p, m, input);
    if CheckedMul(p.max_p95_latency_ms, p.settings.latency_penalty).Some? {
      LatencyFits(p, m);
    }
  }

  /** A guard checked once, on the maxima, makes the 64-bit path exact for every model of the catalog. */
  lemma GuardsSuffice(p: Policy, m: Model, input: Input)
    requires Bounded(p, m)
    ensures PricedVerdict(NewPricing(p, input), m, input) == Judge(p.settings, m, input)
  {
    hide FirstFailedGate, PricedTerms, TermsOf, FastCost, Cost;
    var q := NewPricing(p, input);
    if q.all_costs_fit {
      CostFits(p, m, input);
    }
    PricedTermsExact(p, m, input, Cost(m, input));
  }
}
