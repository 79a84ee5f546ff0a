/** Building trusted policies, explaining decisions, and what a decision means. */
module KernelPolicy {
  import opened Wrappers
  import opened Orders
  import opened Kernel
  import opened KernelDecide

  const MAX_RISK_PENALTY_MULTIPLIER_BPS: u16 := 50_000

  // ----- What a decision means -----

  predicate DistinctIds(models: seq<Model>) {
    forall i, j :: 0 <= i < j < |models| ==> models[i].model_id != models[j].model_id
  }

  /** `i` beats every other ranked model except `skip`. */
  ghost predicate Maximum(s: Settings, models: seq<Model>, input: Input, i: int, skip: int)
  {
    && i != skip && Ranked(s, models, input, i)
    && forall j :: Ranked(s, models, input, j) && j != i && j != skip ==> Beats(s, models, input, i, j)
  }

  lemma BestIsMaximum(s: Settings, models: seq<Model>, input: Input, skip: int)
    requires DistinctIds(models)
    ensures var r := BestOf(s, models, input, |models|, skip);
      && (r.Some? <==> exists i :: i != skip && Ranked(s, models, input, i))
      && (r.Some? ==> Maximum(s, models, input, r.value, skip))
  {
    hide Judge, Better;
    BestIsBest(s, models, input, |models|, skip);
  }

  /** Past the hard limits the decision selects the maximum, and reports the maximum of the rest. */
  lemma SelectsMaximum(s: Settings, models: seq<Model>, input: Input) returns (b: nat)
    requires DistinctIds(models) && !Blocked(s, input)
    requires exists i :: Ranked(s, models, input, i)
    ensures var d := Decide(s, models, input);
      && Maximum(s, models, input, b, -1) && d.selected_model_index == Saturated(b)
      && d.action == (if models[b].model_id == input.requested_model_id then ExecuteRequested else Substitute)
      && d.selected_model_id == models[b].model_id && d.estimated_cost == Cost(models[b], input)
      && d.expected_utility == Judge(s, models[b], input).terms.utility
      && (forall k :: Maximum(s, models, input, k, b) ==>
            d.counterfactual_model_id == models[k].model_id
            && d.counterfactual_utility == Judge(s, models[k], input).terms.utility)
      && ((forall k :: Ranked(s, models, input, k) ==> k == b) ==>
            d.counterfactual_model_id == 0 && d.counterfactual_utility == 0)
  {
    hide Better, Maximum, BestOf, Judge, HistogramOf, Count;
    BestIsMaximum(s, models, input, -1);
    var i :| Ranked(s, models, input, i);
    assert i != -1;
    b := BestOf(s, models, input, |models|, -1).value;
    RankedCost(s, models[b], input);
    BestIsMaximum(s, models, input, b);
    forall k | Maximum(s, models, input, k, b)
      ensures BestOf(s, models, input, |models|, b) == Some(k)
    {
      OneMaximum(s, models, input, k, b);
    }
  }

  lemma RankedCost(s: Settings, m: Model, input: Input)
    ensures Judge(s, m, input).Eligible? ==> Judge(s, m, input).terms.cost == Cost(m, input)
  {
  }

  lemma OneMaximum(s: Settings, models: seq<Model>, input: Input, k: int, skip: int)
    requires DistinctIds(models) && Maximum(s, models, input, k, skip)
    ensures BestOf(s, models, input, |models|, skip) == Some(k)
  {
    hide Judge, BestOf;
    BestIsMaximum(s, models, input, skip);
  }

  lemma DominantIsMost(h: Histogram, c: Cause)
    ensures Get(h, c) <= Get(h, Dominant(h))
  {
    CauseListed(c);
  }

  /**
   * Without an eligible candidate the request is refused for a cause whose counter no other exceeds; in
   * a catalog the counters can count, no other cause is more frequent.
   */
  lemma RefusesWhenNoneIsEligible(s: Settings, models: seq<Model>, input: Input)
    requires !Blocked(s, input) && forall i :: !Ranked(s, models, input, i)
    ensures var d := Decide(s, models, input);
      && d.action == Reject && d.reason.Because? && d.selected_model_id == 0 && d.eligible_models == 0
      && (forall c :: Shown(c, Rejections(s, models, input, c))
                      <= Shown(d.reason.cause, Rejections(s, models, input, d.reason.cause)))
      && (Countable(models) ==>
            forall c :: Rejections(s, models, input, c) <= Rejections(s, models, input, d.reason.cause))
  {
    hide Judge, HistogramOf, Get, Dominant, BestOf, Ranked, Shown, Counts, Rejections;
    BestIsBest(s, models, input, |models|, -1);
    NoneEligible(s, models, input, |models|);
    var h := HistogramOf(s, models, input);
    forall c
      ensures Shown(c, Rejections(s, models, input, c)) == Get(h, c) <= Get(h, Dominant(h))
      ensures Countable(models) ==> Rejections(s, models, input, c) == Get(h, c)
    {
      CounterShows(s, models, input, h, c);
      DominantIsMost(h, c);
      if Countable(models) {
        CountedExactly(s, models, input, |models|, h, c);
        RejectionsAre(s, models, input, c);
      }
    }
  }

  /** How many models are rejected for a cause. */
  function Rejections(s: Settings, models: seq<Model>, input: Input, c: Cause): nat {
    Count(s, models, input, |models|, Some(c))
  }

  lemma RejectionsAre(s: Settings, models: seq<Model>, input: Input, c: Cause)
    ensures Rejections(s, models, input, c) == Count(s, models, input, |models|, Some(c))
  {
  }

  lemma CounterShows(s: Settings, models: seq<Model>, input: Input, h: Histogram, c: Cause)
    requires Counts(h, s, models, input, |models|)
    ensures Get(h, c) == Shown(c, Rejections(s, models, input, c))
  {
    hide Get, Shown, Judge;
  }

  lemma CauseListed(c: Cause)
    ensures c in CauseOrder
  {
    assert CauseOrder[0] == Incapable && CauseOrder[1] == Elsewhere && CauseOrder[2] == Unavailable;
    assert CauseOrder[3] == LowQuality && CauseOrder[4] == OverRisk && CauseOrder[5] == Slow;
    assert CauseOrder[6] == TooDear && CauseOrder[7] == Worthless && CauseOrder[8] == Off;
  }

  /** The counters of a decision and its histogram add up to the catalog. */
  lemma NothingUncounted(s: Settings, models: seq<Model>, input: Input, h: Histogram)
    requires Countable(models) && !Blocked(s, input) && Counts(h, s, models, input, |models|)
    ensures Total(h) + Decide(s, models, input).eligible_models == Decide(s, models, input).evaluated_models == |models|
  {
    hide Counts, Total, BestOf, Count, HistogramOf, CandidateAt, Dominant;
    CountsCover(s, models, input, |models|, h);
  }

  // ----- Explanations -----

  /** A number or a mask, as a gate compares it. */
  datatype Quantity = Number(n: nat) | Mask(bits: bv64)

  datatype CandidateExplanation = CandidateExplanation(
    model_id: u32, model_index: u16, verdict: Verdict, compared: Option<(Quantity, Quantity)>)

  /** `gate_detail`: what the candidate carried and what was demanded. */
  function GateDetail(m: Model, input: Input, gate: Gate): (Quantity, Quantity) {
    match gate
    case Disabled => (Number(0), Number(1))
    case Quality => (Number(m.quality_bps), Number(input.minimum_quality_bps))
    case Latency => (Number(m.p95_latency_ms), Number(input.max_p95_latency_ms))
    case Capability => (Mask(m.capabilities), Mask(input.required_capabilities))
    case ProviderUnrepresentable => (Number(m.provider_id), Number(MAX_PROVIDER_ID))
    case ProviderNotAllowed => (Number(m.provider_id), Mask(input.allowed_provider_mask))
    case Region => (Mask(m.region_mask), Mask(input.required_region_mask))
    case RiskCeiling => (Number(input.risk_bps), Number(m.risk_ceiling_bps))
  }

  function Compared(m: Model, input: Input, v: Verdict): Option<(Quantity, Quantity)> {
    match v
    case Rejected(gate) => Some(GateDetail(m, input, gate))
    case OverBudget(price) => Some((Number(price), Number(input.budget_limit)))
    case _ => None
  }

  /** The two numbers a candidate was turned away with show, by themselves, why. */
  predicate Shows(v: Verdict, pair: (Quantity, Quantity)) {
    match (v, pair.0, pair.1)
    case (Rejected(Latency), Number(a), Number(b)) => 0 < b < a
    case (Rejected(ProviderUnrepresentable), Number(a), Number(b)) => b < a
    case (Rejected(RiskCeiling), Number(a), Number(b)) => b < a
    case (Rejected(_), Number(a), Number(b)) => a < b
    case (Rejected(Capability), Mask(a), Mask(b)) => LacksCapability(a, b)
    case (Rejected(Region), Mask(a), Mask(b)) => OutsideRegion(a, b)
    case (Rejected(ProviderNotAllowed), Number(a), Mask(b)) => a <= MAX_PROVIDER_ID && ProviderExcluded(a, b)
    case (OverBudget(_), Number(a), Number(b)) => b < a
    case _ => false
  }

  lemma ComparedShowsWhy(s: Settings, m: Model, input: Input)
    ensures var v := Judge(s, m, input); var pair := Compared(m, input, v);
      && (pair.None? <==> v.NonPositiveUtility? || v.Eligible?)
      && (pair.Some? ==> Shows(v, pair.value))
      && (v == Rejected(Disabled) ==> pair == Some((Number(m.enabled), Number(1))))
    ensures forall g :: g != Disabled ==> (Fails(g, m, input) <==> Shows(Rejected(g), GateDetail(m, input, g)))
  {
    hide TermsOf, Cost, ProviderExcluded, LacksCapability, OutsideRegion;
    FirstGateExact(m, input);
  }

  predicate ExplainedAt(s: Settings, m: Model, i: nat, input: Input, c: CandidateExplanation) {
    c == CandidateExplanation(m.model_id, Saturated(i), Judge(s, m, input), Compared(m, input, Judge(s, m, input)))
  }

  /** One entry for each candidate, with the verdict that was counted or ranked and the numbers behind it. */
  ghost predicate Explains(s: Settings, models: seq<Model>, input: Input, candidates: seq<CandidateExplanation>) {
    |candidates| == |models| && forall i :: 0 <= i < |models| ==> ExplainedAt(s, models[i], i, input, candidates[i])
  }

  /** `explain`: the decision, and for every candidate the verdict that was counted or ranked. */
  method Explain(p: Policy, input: Input) returns (d: Decision, candidates: seq<CandidateExplanation>)
    requires Sound(p)
    ensures d == Decide(p.settings, p.models, input)
    ensures Blocked(p.settings, input) ==> candidates == []
    ensures !Blocked(p.settings, input) ==> Explains(p.settings, p.models, input, candidates)
  {
    hide Judge, PricedVerdict, NewPricing, Dominant, HistogramOf, BestOf, Count, CandidateAt, Compared;
    var h;
    d, h := Prescribe(p, input);
    candidates := [];
    if d.reason == RiskHardLimit || d.reason == ConfidenceHardLimit {
      return;
    }
    var q := NewPricing(p, input);
    for n := 0 to |p.models|
      invariant |candidates| == n
      invariant forall i :: 0 <= i < n ==> ExplainedAt(p.settings, p.models[i], i, input, candidates[i])
    {
      var m := p.models[n];
      GuardsSuffice(p, m, input);
      var verdict := PricedVerdict(q, m, input);
      candidates := candidates + [CandidateExplanation(m.model_id, Saturated(n), verdict, Compared(m, input, verdict))];
    }
  }

  /** `i` is where `id` is first found. */
  predicate FirstWith(models: seq<Model>, id: u32, i: int) {
    0 <= i < |models| && models[i].model_id == id && forall j :: 0 <= j < i ==> models[j].model_id != id
  }

  /** `utility_for_model`: the utility a model is ranked with, if it is ranked. */
  method UtilityForModel(p: Policy, input: Input, id: u32) returns (r: Option<i64>)
    requires Sound(p)
    ensures r.Some? <==> !Blocked(p.settings, input) && exists i :: FirstWith(p.models, id, i) && Ranked(p.settings, p.models, input, i)
    ensures forall i :: FirstWith(p.models, id, i) && r.Some? ==> r.value == Judge(p.settings, p.models[i], input).terms.utility
  {
    hide Judge, PricedVerdict, NewPricing;
    if Blocked(p.settings, input) {
      return None;
    }
    var at := 0;
    while at < |p.models| && p.models[at].model_id != id
      invariant 0 <= at <= |p.models|
      invariant forall j :: 0 <= j < at ==> p.models[j].model_id != id
    {
      at := at + 1;
    }
    if at == |p.models| {
      return None;
    }
    assert FirstWith(p.models, id, at);
    GuardsSuffice(p, p.models[at], input);
    var verdict := PricedVerdict(NewPricing(p, input), p.models[at], input);
    return if verdict.Eligible? then Some(verdict.terms.utility) else None;
  }

  // ----- Policies -----

  /** The largest value of a field over the catalog. */
  function MaxOf(models: seq<Model>, f: Model -> int): (m: int)
    ensures models == [] ==> m == 0
    ensures models != [] ==> exists i :: 0 <= i < |models| && f(models[i]) == m
    ensures forall i :: 0 <= i < |models| ==> f(models[i]) <= m
  {
    if models == [] then 0
    else if |models| == 1 then f(models[0])
    else
      var m := MaxOf(models[1..], f);
      assert forall i :: 1 <= i < |models| ==> models[i] == models[1..][i - 1];
      if f(models[0]) >= m then f(models[0]) else m
  }

  /** `new_unchecked`: the settings, the catalog and its maxima. */
  function NewUnchecked(s: Settings, models: seq<Model>): (p: Policy)
    ensures p.models == models && p.settings == s && Sound(p)
  {
    Policy(s, MaxOf(models, (m: Model) => m.quality_bps), MaxOf(models, (m: Model) => m.p95_latency_ms),
           MaxOf(models, (m: Model) => m.input_price), MaxOf(models, (m: Model) => m.output_price), models)
  }

  datatype PolicyError =
    | OutOfRangeBps(field: string, value: u16) | EmptyCatalog | DuplicateModelId(model_id: u32)
    | InvalidProviderId(model_id: u32, provider_id: u16) | NoEnabledModels

  datatype TrustError =
    | CatalogTooLarge(len: nat) | ReservedModelId | InvalidEnabledFlag(model_id: u32, flag: u8) | InvalidPolicy(error: PolicyError)

  predicate ValidSettings(s: Settings) {
    && s.hard_risk_limit_bps <= MAX_BPS && s.minimum_confidence_bps <= MAX_BPS
    && s.risk_penalty_multiplier_bps <= MAX_RISK_PENALTY_MULTIPLIER_BPS
  }

  predicate ValidModel(m: Model) {
    m.provider_id <= MAX_PROVIDER_ID && m.quality_bps <= MAX_BPS && m.risk_ceiling_bps <= MAX_BPS
  }

  predicate ValidCatalog(models: seq<Model>) {
    && models != [] && DistinctIds(models)
    && (forall m :: m in models ==> ValidModel(m))
    && exists m :: m in models && m.enabled != 0
  }

  function SettingsFault(s: Settings): (e: Option<PolicyError>)
    ensures e.None? <==> ValidSettings(s)
  {
    if s.hard_risk_limit_bps > MAX_BPS then Some(OutOfRangeBps("hard_risk_limit_bps", s.hard_risk_limit_bps))
    else if s.minimum_confidence_bps > MAX_BPS then Some(OutOfRangeBps("minimum_confidence_bps", s.minimum_confidence_bps))
    else if s.risk_penalty_multiplier_bps > MAX_RISK_PENALTY_MULTIPLIER_BPS then
      Some(OutOfRangeBps("risk_penalty_multiplier_bps", s.risk_penalty_multiplier_bps))
    else None
  }

  /** What is wrong with a model that follows others. */
  function ModelFault(before: seq<Model>, m: Model): (e: Option<PolicyError>)
    ensures e.None? <==> ValidModel(m) && forall i :: 0 <= i < |before| ==> before[i].model_id != m.model_id
  {
    if exists i :: 0 <= i < |before| && before[i].model_id == m.model_id then Some(DuplicateModelId(m.model_id))
    else if m.provider_id > MAX_PROVIDER_ID then Some(InvalidProviderId(m.model_id, m.provider_id))
    else if m.quality_bps > MAX_BPS then Some(OutOfRangeBps("model.quality_bps", m.quality_bps))
    else if m.risk_ceiling_bps > MAX_BPS then Some(OutOfRangeBps("model.risk_ceiling_bps", m.risk_ceiling_bps))
    else None
  }

  /** Model `i` is the first with something wrong with it. */
  ghost predicate FirstFault(models: seq<Model>, i: int) {
    && 0 <= i < |models| && ModelFault(models[..i], models[i]).Some?
    && forall j :: 0 <= j < i ==> ModelFault(models[..j], models[j]).None?
  }

  /** What is reported: settings before models, the first faulty model, and last that nothing is enabled. */
  ghost predicate Reports(s: Settings, models: seq<Model>, e: PolicyError) {
    if !ValidSettings(s) then SettingsFault(s) == Some(e)
    else if models == [] then e == EmptyCatalog
    else
      || (exists i :: FirstFault(models, i) && ModelFault(models[..i], models[i]) == Some(e))
      || ((forall j :: 0 <= j < |models| ==> ModelFault(models[..j], models[j]).None?) && e == NoEnabledModels)
  }

  ghost predicate Faultless(models: seq<Model>, n: nat)
    requires n <= |models|
  {
    forall j :: 0 <= j < n ==> ModelFault(models[..j], models[j]).None?
  }

  lemma FaultlessIsValid(models: seq<Model>)
    ensures Faultless(models, |models|) <==> DistinctIds(models) && forall m :: m in models ==> ValidModel(m)
  {
    hide ValidModel;
    if Faultless(models, |models|) {
      forall i, j | 0 <= i < j < |models|
        ensures models[i].model_id != models[j].model_id
      {
        assert ModelFault(models[..j], models[j]).None? && models[..j][i] == models[i];
      }
      forall m | m in models
        ensures ValidModel(m)
      {
        var j :| 0 <= j < |models| && models[j] == m;
        assert ModelFault(models[..j], models[j]).None?;
      }
    }
  }

  /** The loop of `validate`: the first faulty model, and whether any model is enabled. */
  method CheckModels(models: seq<Model>) returns (fault: Option<PolicyError>, any_enabled: bool)
    ensures fault.None? <==> Faultless(models, |models|)
    ensures fault.Some? ==> exists i :: FirstFault(models, i) && ModelFault(models[..i], models[i]) == fault
    ensures fault.None? ==> (any_enabled <==> exists m :: m in models && m.enabled != 0)
  {
    var seen: set<u32> := {};
    any_enabled := false;
    for i := 0 to |models|
      invariant forall id :: id in seen <==> exists j :: 0 <= j < i && models[j].model_id == id
      invariant Faultless(models, i)
      invariant any_enabled <==> exists j :: 0 <= j < i && models[j].enabled != 0
    {
      var m := models[i];
      assert forall j :: 0 <= j < i ==> models[..i][j] == models[j];
      assert ModelFault(models[..i], m).Some? ==> FirstFault(models, i);
      if m.model_id in seen {
        return Some(DuplicateModelId(m.model_id)), any_enabled;
      }
      seen := seen + {m.model_id};
      if m.provider_id > MAX_PROVIDER_ID {
        return Some(InvalidProviderId(m.model_id, m.provider_id)), any_enabled;
      }
      if m.quality_bps > MAX_BPS {
        return Some(OutOfRangeBps("model.quality_bps", m.quality_bps)), any_enabled;
      }
      if m.risk_ceiling_bps > MAX_BPS {
        return Some(OutOfRangeBps("model.risk_ceiling_bps", m.risk_ceiling_bps)), any_enabled;
      }
      if m.enabled != 0 {
        any_enabled := true;
      }
    }
    return None, any_enabled;
  }

  /** `validate`: it passes exactly the policies in range with distinct ids and something enabled. */
  method Validate(p: Policy) returns (r: Outcome<PolicyError>)
    ensures r.Pass? <==> ValidSettings(p.settings) && ValidCatalog(p.models)
    ensures r.Fail? ==> Reports(p.settings, p.models, r.error)
  {
    hide ModelFault, FirstFault, ValidModel, DistinctIds;
    var s := p.settings;
    if s.hard_risk_limit_bps > MAX_BPS {
      return Fail(OutOfRangeBps("hard_risk_limit_bps", s.hard_risk_limit_bps));
    }
    if s.minimum_confidence_bps > MAX_BPS {
      return Fail(OutOfRangeBps("minimum_confidence_bps", s.minimum_confidence_bps));
    }
    if s.risk_penalty_multiplier_bps > MAX_RISK_PENALTY_MULTIPLIER_BPS {
      return Fail(OutOfRangeBps("risk_penalty_multiplier_bps", s.risk_penalty_multiplier_bps));
    }
    if p.models == [] {
      return Fail(EmptyCatalog);
    }
    FaultlessIsValid(p.models);
    var fault, any_enabled := CheckModels(p.models);
    return if fault.Some? then Fail(fault.value) else if any_enabled then Pass else Fail(NoEnabledModels);
  }

  predicate IdBefore(a: Model, b: Model) {
    a.model_id < b.model_id
  }

  /** What `try_new_trusted` demands; the order of the models plays no part in it. */
  predicate Trusted(s: Settings, models: seq<Model>) {
    && Countable(models) && ValidSettings(s) && ValidCatalog(models)
    && forall m :: m in models ==> m.model_id != 0 && m.enabled <= 1
  }

  lemma SortedCatalog(models: seq<Model>, sorted: seq<Model>)
    requires Ordered(sorted, IdBefore) && multiset(sorted) == multiset(models)
    ensures ValidCatalog(sorted) <==> ValidCatalog(models)
    ensures DistinctIds(sorted) ==> Strictly(sorted, IdBefore)
  {
    forall m
      ensures m in sorted <==> m in models
    {
      assert m in multiset(sorted) <==> m in multiset(models);
    }
    if DistinctIds(models) {
      PermutedIds(models, sorted);
    }
    if DistinctIds(sorted) {
      PermutedIds(sorted, models);
    }
    assert |multiset(sorted)| == |sorted| && |multiset(models)| == |models|;
  }

  lemma PermutedIds(a: seq<Model>, b: seq<Model>)
    requires multiset(a) == multiset(b) && DistinctIds(a)
    ensures DistinctIds(b)
  {
    forall i, j | 0 <= i < j < |b|
      ensures b[i].model_id != b[j].model_id
    {
      TwoPlaces(a, b, i, j);
    }
  }

  /** Model `i` is the first whose switch is neither on nor off. */
  predicate FirstBadFlag(models: seq<Model>, i: int) {
    0 <= i < |models| && models[i].enabled > 1 && forall j :: 0 <= j < i ==> models[j].enabled <= 1
  }

  /** What is reported of a catalog that is not trusted. */
  ghost predicate TrustReports(s: Settings, models: seq<Model>, e: TrustError) {
    if !Countable(models) then e == CatalogTooLarge(|models|)
    else if exists m :: m in models && m.model_id == 0 then e == ReservedModelId
    else if exists m :: m in models && m.enabled > 1 then
      exists i :: FirstBadFlag(models, i) && e == InvalidEnabledFlag(models[i].model_id, models[i].enabled)
    else e.InvalidPolicy? && Reports(s, Sorted(models, IdBefore), e.error)
  }

  /** `try_new_trusted`: it accepts exactly the trusted catalogs, and keeps them in order of id. */
  method TryNewTrusted(s: Settings, models: seq<Model>) returns (r: Result<Policy, TrustError>)
    ensures r.Ok? <==> Trusted(s, models)
    ensures r.Ok? ==> r.value == NewUnchecked(s, r.value.models)
    ensures r.Ok? ==> Strictly(r.value.models, IdBefore) && multiset(r.value.models) == multiset(models)
    ensures r.Err? ==> TrustReports(s, models, r.error)
  {
    hide NewUnchecked, ValidCatalog, ValidSettings, Reports;
    if |models| > 0xFFFF {
      return Err(CatalogTooLarge(|models|));
    }
    for i := 0 to |models|
      invariant forall j :: 0 <= j < i ==> models[j].model_id != 0
    {
      if models[i].model_id == 0 {
        return Err(ReservedModelId);
      }
    }
    for i := 0 to |models|
      invariant forall j :: 0 <= j < i ==> models[j].enabled <= 1
    {
      if models[i].enabled > 1 {
        assert FirstBadFlag(models, i);
        return Err(InvalidEnabledFlag(models[i].model_id, models[i].enabled));
      }
    }
    var sorted := SortBy(models, IdBefore);
    SortedCatalog(models, sorted);
    var p := NewUnchecked(s, sorted);
    var valid := Validate(p);
    if valid.Fail? {
      return Err(InvalidPolicy(valid.error));
    }
    ValidIsDistinct(sorted);
    return Ok(p);
  }

  lemma ValidIsDistinct(models: seq<Model>)
    requires ValidCatalog(models)
    ensures DistinctIds(models)
  {
  }

  /** The order in which a catalog is given changes nothing: it is accepted or not, and the policy is the same. */
  lemma OrderIrrelevant(s: Settings, a: seq<Model>, b: seq<Model>, pa: Policy, pb: Policy)
    requires multiset(a) == multiset(b)
    requires pa == NewUnchecked(s, pa.models) && Strictly(pa.models, IdBefore) && multiset(pa.models) == multiset(a)
    requires pb == NewUnchecked(s, pb.models) && Strictly(pb.models, IdBefore) && multiset(pb.models) == multiset(b)
    ensures pa == pb
  {
    hide NewUnchecked;
    forall m
      ensures m in pa.models <==> m in pb.models
    {
      assert m in multiset(pa.models) <==> m in multiset(pb.models);
    }
    StrictUnique(pa.models, pb.models, IdBefore);
  }

  lemma TrustIgnoresOrder(s: Settings, a: seq<Model>, b: seq<Model>)
    requires multiset(a) == multiset(b)
    ensures Trusted(s, a) <==> Trusted(s, b)
  {
    forall m
      ensures m in a <==> m in b
    {
      assert m in multiset(a) <==> m in multiset(b);
    }
    assert |multiset(a)| == |a| && |multiset(b)| == |b|;
    if DistinctIds(a) {
      PermutedIds(a, b);
    }
    if DistinctIds(b) {
      PermutedIds(b, a);
    }
  }
}
