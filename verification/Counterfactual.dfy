/** What would have to change for a decision to come out differently, and why the search is exact. */
module Counterfactuals {
  import opened Wrappers
  import opened Division
  import opened Kernel
  import opened KernelDecide
  import opened KernelPolicy

  const PPM: nat := 1_000_000
  const MAX_PRICE_SCALE_PPM: nat := 1_000_000_000

  predicate Selected(d: Decision, id: u32) {
    d.action != Reject && d.selected_model_id == id
  }

  // ----- The kernel is monotone in every lever -----

  /** `b` is `a` with some levers moved in their favourable direction. */
  predicate Improves(a: Model, b: Model) {
    && b.model_id == a.model_id && b.provider_id == a.provider_id && b.capabilities == a.capabilities
    && b.region_mask == a.region_mask && (a.enabled != 0 ==> b.enabled != 0)
    && a.quality_bps <= b.quality_bps && a.risk_ceiling_bps <= b.risk_ceiling_bps
    && b.p95_latency_ms <= a.p95_latency_ms && b.input_price <= a.input_price && b.output_price <= a.output_price
  }

  lemma GatesMonotone(a: Model, b: Model, input: Input)
    requires Improves(a, b) && FirstFailedGate(a, input).None?
    ensures FirstFailedGate(b, input).None?
  {
    hide LacksCapability, ProviderExcluded, OutsideRegion;
  }

  lemma DivMono(a: nat, b: nat, d: nat)
    requires a <= b && d > 0
    ensures a / d <= b / d
  {
    if a / d > b / d {
      assert d * (a / d) >= d * (b / d + 1) by {
        MulMono(d, b / d + 1, a / d);
      }
    }
  }

  lemma ChargeMonotone(tokens: nat, low: nat, high: nat)
    requires low <= high
    ensures Charge(tokens, low) <= Charge(tokens, high)
  {
    MulMono(tokens, low, high);
    DivMono(tokens * low + COST_ROUNDING, tokens * high + COST_ROUNDING, COST_SCALE);
  }

  lemma CostMonotone(a: Model, b: Model, input: Input)
    requires Improves(a, b)
    ensures Cost(b, input) <= Cost(a, input)
  {
    hide Charge;
    ChargeMonotone(input.input_tokens, b.input_price, a.input_price);
    ChargeMonotone(input.output_tokens, b.output_price, a.output_price);
  }

  lemma ScaledMonotone(value: nat, bps: nat, low: nat, high: nat)
    requires low <= high
    ensures Scaled(value, bps, low) <= Scaled(value, bps, high)
  {
    MulMono(value, 0, bps);
    MulMono(value * bps, low, high);
    DivMono(value * bps * low, value * bps * high, SCALED_BASIS_POINTS);
  }

  lemma UtilityMonotone(s: Settings, a: Model, b: Model, input: Input, high: u64, low: u64)
    requires Improves(a, b) && low <= high
    ensures TermsOf(s, a, input, high).utility <= TermsOf(s, b, input, low).utility
  {
    hide Scaled;
    ScaledMonotone(Value(input), input.confidence_bps, a.quality_bps, b.quality_bps);
    MulMono(s.latency_penalty, b.p95_latency_ms, a.p95_latency_ms);
  }

  lemma JudgeMonotone(s: Settings, a: Model, b: Model, input: Input)
    requires Improves(a, b) && Judge(s, a, input).Eligible?
    ensures var x, y := Judge(s, a, input), Judge(s, b, input);
      y.Eligible? && x.terms.utility <= y.terms.utility && y.terms.cost <= x.terms.cost
  {
    hide FirstFailedGate, Cost, Clamp, Scaled;
    GatesMonotone(a, b, input);
    CostMonotone(a, b, input);
    UtilityMonotone(s, a, b, input, Cost(a, input), Cost(b, input));
  }

  /** Selection, in terms of the ranking. */
  lemma SelectedIsBest(s: Settings, models: seq<Model>, input: Input, id: u32)
    ensures var b := BestOf(s, models, input, |models|, -1);
      Selected(Decide(s, models, input), id) <==> !Blocked(s, input) && b.Some? && models[b.value].model_id == id
  {
    hide BestOf, Count, HistogramOf, Judge;
  }

  /** Two catalogs that differ in one entry, where the second improves on the first. */
  ghost predicate Improved(a: seq<Model>, b: seq<Model>, at: int) {
    && 0 <= at < |a| == |b| && Improves(a[at], b[at])
    && forall i :: 0 <= i < |a| && i != at ==> a[i] == b[i]
  }

  lemma Elsewhere(s: Settings, a: seq<Model>, b: seq<Model>, input: Input, at: int, i: int)
    requires Improved(a, b, at) && i != at
    ensures Ranked(s, a, input, i) <==> Ranked(s, b, input, i)
    ensures Ranked(s, a, input, i) ==> CandidateAt(s, a, input, i) == CandidateAt(s, b, input, i)
  {
    hide Judge;
  }

  lemma Moved(s: Settings, a: seq<Model>, b: seq<Model>, input: Input, at: int)
    requires Improved(a, b, at) && Ranked(s, a, input, at)
    ensures Ranked(s, b, input, at) && !Better(CandidateAt(s, a, input, at), CandidateAt(s, b, input, at))
  {
    hide Judge;
    JudgeMonotone(s, a[at], b[at], input);
  }

  lemma BetterTrans(a: Candidate, b: Candidate, c: Candidate)
    requires !Better(b, a) && !Better(c, b)
    ensures !Better(c, a) && (Better(a, b) || Better(b, c) ==> Better(a, c))
  {
  }

  /** The improved entry was the best before: it still is. */
  lemma WinnerStays(s: Settings, a: seq<Model>, b: seq<Model>, input: Input, at: int)
    requires Improved(a, b, at) && IsBest(s, a, input, |a|, -1, at)
    ensures IsBest(s, b, input, |b|, -1, at)
  {
    hide Judge, Better, CandidateAt;
    Moved(s, a, b, input, at);
    forall i | 0 <= i < |b| && i != at && Ranked(s, b, input, i)
      ensures Beats(s, b, input, at, i) || (!Beats(s, b, input, i, at) && b[i].model_id == b[at].model_id && at < i)
    {
      Elsewhere(s, a, b, input, at, i);
      BeatsAsymmetric(CandidateAt(s, a, input, at), CandidateAt(s, a, input, i));
      BetterTrans(CandidateAt(s, b, input, at), CandidateAt(s, a, input, at), CandidateAt(s, a, input, i));
    }
  }

  lemma BeatsAsymmetric(a: Candidate, b: Candidate)
    ensures Better(a, b) ==> !Better(b, a)
    ensures !Better(a, b) && !Better(b, a) ==> a.model_id == b.model_id
  {
  }

  /** Another entry was the best before: it still is, or the improved entry now is. */
  lemma OtherOrMoved(s: Settings, a: seq<Model>, b: seq<Model>, input: Input, at: int, w: nat)
    requires Improved(a, b, at) && w != at && IsBest(s, a, input, |a|, -1, w)
    ensures IsBest(s, b, input, |b|, -1, w) || IsBest(s, b, input, |b|, -1, at)
  {
    hide Judge, Better, CandidateAt;
    Elsewhere(s, a, b, input, at, w);
    if Ranked(s, b, input, at) {
      BeatsAsymmetric(CandidateAt(s, b, input, at), CandidateAt(s, b, input, w));
    }
    forall i | 0 <= i < |b| && i != at && i != w && Ranked(s, b, input, i)
      ensures Beats(s, b, input, w, i) || (!Beats(s, b, input, i, w) && b[i].model_id == b[w].model_id && w < i)
      ensures Ranked(s, b, input, at) && !Beats(s, b, input, w, at) ==>
        && (Beats(s, b, input, at, w) ==> Beats(s, b, input, at, i))
        && (Beats(s, b, input, at, i) || (Ties(s, b, input, i, at) && Ties(s, b, input, i, w) && w < i))
    {
      Elsewhere(s, a, b, input, at, i);
      BeatsAsymmetric(CandidateAt(s, b, input, w), CandidateAt(s, b, input, i));
      if Ranked(s, b, input, at) && !Beats(s, b, input, w, at) {
        BetterTrans(CandidateAt(s, b, input, at), CandidateAt(s, b, input, w), CandidateAt(s, b, input, i));
        BeatsAsymmetric(CandidateAt(s, b, input, at), CandidateAt(s, b, input, i));
        SameId(s, b, input, i, at);
        SameId(s, b, input, i, w);
      }
    }
    if Ranked(s, b, input, at) {
      SameId(s, b, input, at, w);
    }
  }

  predicate Ties(s: Settings, models: seq<Model>, input: Input, i: int, j: int)
    requires Ranked(s, models, input, i) && Ranked(s, models, input, j)
  {
    && !Beats(s, models, input, i, j) && !Beats(s, models, input, j, i)
    && models[i].model_id == models[j].model_id
  }

  lemma SameId(s: Settings, models: seq<Model>, input: Input, i: int, j: int)
    requires Ranked(s, models, input, i) && Ranked(s, models, input, j)
    ensures !Beats(s, models, input, i, j) && !Beats(s, models, input, j, i) ==> models[i].model_id == models[j].model_id
  {
    hide Judge;
  }

  /** Improving an entry never costs its id the selection; ids need not even be distinct. */
  lemma Monotone(s: Settings, a: seq<Model>, b: seq<Model>, input: Input, at: int)
    requires Improved(a, b, at) && Selected(Decide(s, a, input), a[at].model_id)
    ensures Selected(Decide(s, b, input), a[at].model_id)
  {
    hide Judge, Decide, Selected, BestOf, Beats;
    SelectedIsBest(s, a, input, a[at].model_id);
    SelectedIsBest(s, b, input, a[at].model_id);
    var w := BestOf(s, a, input, |a|, -1).value;
    BestIsBest(s, a, input, |a|, -1);
    if w == at {
      WinnerStays(s, a, b, input, at);
      BestUnique(s, b, input, |b|, -1, at);
    } else {
      OtherOrMoved(s, a, b, input, at, w);
      if IsBest(s, b, input, |b|, -1, w) {
        BestUnique(s, b, input, |b|, -1, w);
      } else {
        BestUnique(s, b, input, |b|, -1, at);
      }
    }
  }

  // ----- Levers -----

  datatype Lever = QualityBps | P95LatencyMs | PriceScalePpm | RiskCeilingBps | Enabled

  function Rank(l: Lever): nat {
    match l
    case QualityBps => 0
    case P95LatencyMs => 1
    case PriceScalePpm => 2
    case RiskCeilingBps => 3
    case Enabled => 4
  }

  /** Levers for which a higher value is better. */
  predicate Rising(l: Lever) {
    l.QualityBps? || l.RiskCeilingBps? || l.Enabled?
  }

  predicate Fits(l: Lever, v: int) {
    && 0 <= v
    && match l
       case QualityBps => v <= 0xFFFF
       case P95LatencyMs => v <= 0xFFFF_FFFF
       case PriceScalePpm => v <= U64_MAX
       case RiskCeilingBps => v <= 0xFFFF
       case Enabled => v <= 1
  }

  function ScaledPrice(price: u64, scale: nat): u64 {
    var v := WideProduct(price, scale) / PPM;
    if v > U64_MAX then U64_MAX else v
  }

  /** The candidate with one lever at `v`. */
  function Setting(m: Model, l: Lever, v: int): Model
    requires Fits(l, v)
  {
    match l
    case QualityBps => m.(quality_bps := v)
    case P95LatencyMs => m.(p95_latency_ms := v)
    case PriceScalePpm => m.(input_price := ScaledPrice(m.input_price, v), output_price := ScaledPrice(m.output_price, v))
    case RiskCeilingBps => m.(risk_ceiling_bps := v)
    case Enabled => m.(enabled := v)
  }

  function Current(m: Model, l: Lever): nat {
    match l
    case QualityBps => m.quality_bps
    case P95LatencyMs => m.p95_latency_ms
    case PriceScalePpm => PPM
    case RiskCeilingBps => m.risk_ceiling_bps
    case Enabled => m.enabled
  }

  lemma SettingsImprove(m: Model, l: Lever, v: int, w: int)
    requires Fits(l, v) && Fits(l, w) && if Rising(l) then v <= w else w <= v
    ensures Improves(Setting(m, l, v), Setting(m, l, w))
  {
    if l.PriceScalePpm? {
      ScaledPriceMonotone(m.input_price, w, v);
      ScaledPriceMonotone(m.output_price, w, v);
    }
  }

  lemma ScaledPriceMonotone(price: u64, low: nat, high: nat)
    requires low <= high
    ensures ScaledPrice(price, low) <= ScaledPrice(price, high)
  {
    MulMono(price, low, high);
    DivMono(price * low, price * high, PPM);
  }

  lemma SettingNow(m: Model, l: Lever)
    requires !l.Enabled?
    ensures Fits(l, Current(m, l)) && Setting(m, l, Current(m, l)) == m
  {
    if l.PriceScalePpm? {
      assert WideProduct(m.input_price, PPM) / PPM == m.input_price;
      assert WideProduct(m.output_price, PPM) / PPM == m.output_price;
    }
  }

  // ----- Boundary search -----

  /** A question about one candidate of a catalog. */
  datatype Case = Case(s: Settings, models: seq<Model>, at: nat, input: Input)

  predicate Asked(c: Case) {
    c.at < |c.models|
  }

  /** The candidate's id is selected once lever `l` is at `v`. */
  predicate WinsAt(c: Case, l: Lever, v: int)
    requires Asked(c)
  {
    && Fits(l, v)
    && Selected(Decide(c.s, c.models[c.at := Setting(c.models[c.at], l, v)], c.input), c.models[c.at].model_id)
  }

  /** What the search evaluates: the kernel on a policy built from the changed catalog. */
  method Wins(c: Case, l: Lever, v: int) returns (won: bool)
    requires Asked(c) && Fits(l, v)
    ensures won <==> WinsAt(c, l, v)
  {
    hide Decide, Selected, NewUnchecked;
    var d := PrescribeAt(c, l, v);
    won := Selected(d, c.models[c.at].model_id);
  }

  /** `with_model` and `prescribe`. */
  method PrescribeAt(c: Case, l: Lever, v: int) returns (d: Decision)
    requires Asked(c) && Fits(l, v)
    ensures d == Decide(c.s, c.models[c.at := Setting(c.models[c.at], l, v)], c.input)
  {
    hide Decide, NewUnchecked;
    var h;
    d, h := Prescribe(NewUnchecked(c.s, c.models[c.at := Setting(c.models[c.at], l, v)]), c.input);
  }

  lemma FitsBelow(l: Lever, v: int, hi: int)
    requires 0 <= v <= hi && Fits(l, hi)
    ensures Fits(l, v)
  {
  }

  /** `lowest_true`: the boundary of an outcome that turns to winning once as `v` rises. */
  method LowestTrue(c: Case, l: Lever, lo: nat, hi: nat) returns (r: Option<nat>)
    requires Asked(c) && Fits(l, hi)
    ensures r.None? <==> lo > hi || !WinsAt(c, l, hi)
    ensures r.Some? ==> lo <= r.value <= hi && WinsAt(c, l, r.value) && (r.value > lo ==> !WinsAt(c, l, r.value - 1))
  {
    hide WinsAt, Fits;
    var won := Wins(c, l, hi);
    if lo > hi || !won {
      return None;
    }
    var a, b := lo, hi;
    while a < b
      invariant lo <= a <= b <= hi
      invariant WinsAt(c, l, b) && (a > lo ==> !WinsAt(c, l, a - 1))
    {
      var mid := a + (b - a) / 2;
      FitsBelow(l, mid, hi);
      won := Wins(c, l, mid);
      if won {
        b := mid;
      } else {
        a := mid + 1;
      }
    }
    return Some(a);
  }

  /** `highest_true`: the boundary of an outcome that turns from winning once as `v` rises. */
  method HighestTrue(c: Case, l: Lever, lo: nat, hi: nat) returns (r: Option<nat>)
    requires Asked(c) && Fits(l, hi)
    ensures r.None? <==> lo > hi || !WinsAt(c, l, lo)
    ensures r.Some? ==> lo <= r.value <= hi && WinsAt(c, l, r.value) && (r.value < hi ==> !WinsAt(c, l, r.value + 1))
  {
    hide WinsAt, Fits;
    if lo > hi {
      return None;
    }
    FitsBelow(l, lo, hi);
    var won := Wins(c, l, lo);
    if !won {
      return None;
    }
    var a, b := lo, hi;
    while a < b
      invariant lo <= a <= b <= hi
      invariant WinsAt(c, l, a) && (b < hi ==> !WinsAt(c, l, b + 1))
    {
      var mid := a + (b - a + 1) / 2;
      FitsBelow(l, mid, hi);
      won := Wins(c, l, mid);
      if won {
        a := mid;
      } else {
        b := mid - 1;
      }
    }
    return Some(a);
  }

  /** Moving a lever in its favourable direction never loses the selection. */
  lemma WinsMonotone(c: Case, l: Lever, v: int, w: int)
    requires Asked(c) && WinsAt(c, l, v) && Fits(l, w) && if Rising(l) then v <= w else w <= v
    ensures WinsAt(c, l, w)
  {
    hide Decide, Selected, Setting;
    var m := c.models[c.at];
    SettingsImprove(m, l, v, w);
    assert Setting(m, l, v).model_id == m.model_id by {
      SettingKeepsId(m, l, v);
    }
    Monotone(c.s, c.models[c.at := Setting(m, l, v)], c.models[c.at := Setting(m, l, w)], c.input, c.at);
  }

  lemma SettingKeepsId(m: Model, l: Lever, v: int)
    requires Fits(l, v)
    ensures Setting(m, l, v).model_id == m.model_id
  {
  }

  /** Every value from `a` to `b` wins. */
  ghost predicate AllWin(c: Case, l: Lever, a: int, b: int)
    requires Asked(c)
  {
    forall v :: a <= v <= b ==> WinsAt(c, l, v)
  }

  ghost predicate NoneWin(c: Case, l: Lever, a: int, b: int)
    requires Asked(c)
  {
    forall v :: a <= v <= b ==> !WinsAt(c, l, v)
  }

  lemma RisingBoundary(c: Case, l: Lever, lo: nat, hi: nat, b: nat)
    requires Asked(c) && Rising(l) && Fits(l, hi) && lo <= b <= hi && WinsAt(c, l, b) && (b > lo ==> !WinsAt(c, l, b - 1))
    ensures AllWin(c, l, b, hi) && NoneWin(c, l, lo, b - 1)
  {
    hide WinsAt;
    forall v | b <= v <= hi
      ensures WinsAt(c, l, v)
    {
      WinsMonotone(c, l, b, v);
    }
    forall v | lo <= v <= b - 1
      ensures !WinsAt(c, l, v)
    {
      if WinsAt(c, l, v) {
        WinsMonotone(c, l, v, b - 1);
      }
    }
  }

  lemma FallingBoundary(c: Case, l: Lever, lo: nat, hi: nat, b: nat)
    requires Asked(c) && !Rising(l) && Fits(l, hi) && lo <= b <= hi && WinsAt(c, l, b) && (b < hi ==> !WinsAt(c, l, b + 1))
    ensures AllWin(c, l, lo, b) && NoneWin(c, l, b + 1, hi)
  {
    hide WinsAt;
    forall v | lo <= v <= b
      ensures WinsAt(c, l, v)
    {
      WinsMonotone(c, l, b, v);
    }
    forall v | b + 1 <= v <= hi
      ensures !WinsAt(c, l, v)
    {
      if WinsAt(c, l, v) {
        WinsMonotone(c, l, v, b + 1);
      }
    }
  }

  /** The search for one lever, whatever its direction: exactly where the outcome flips, if it does. */
  method FindBoundary(c: Case, l: Lever, lo: nat, hi: nat) returns (r: Option<nat>)
    requires Asked(c) && Fits(l, hi) && (lo <= hi ==> Fits(l, lo))
    ensures r.None? ==> NoneWin(c, l, lo, hi)
    ensures r.Some? && Rising(l) ==> lo <= r.value <= hi && NoneWin(c, l, lo, r.value - 1) && AllWin(c, l, r.value, hi)
    ensures r.Some? && !Rising(l) ==> lo <= r.value <= hi && AllWin(c, l, lo, r.value) && NoneWin(c, l, r.value + 1, hi)
  {
    hide WinsAt, Fits;
    if Rising(l) {
      r := LowestTrue(c, l, lo, hi);
      if r.Some? {
        RisingBoundary(c, l, lo, hi, r.value);
      } else {
        forall v | lo <= v <= hi
          ensures !WinsAt(c, l, v)
        {
          if WinsAt(c, l, v) {
            WinsMonotone(c, l, v, hi);
          }
        }
      }
    } else {
      r := HighestTrue(c, l, lo, hi);
      if r.Some? {
        FallingBoundary(c, l, lo, hi, r.value);
      } else {
        forall v | lo <= v <= hi
          ensures !WinsAt(c, l, v)
        {
          if WinsAt(c, l, v) {
            WinsMonotone(c, l, v, lo);
          }
        }
      }
    }
  }

  // ----- The two questions -----

  datatype Requirement = Requirement(lever: Lever, current: nat, boundary: nat, cost_at_boundary: Option<u64>)

  datatype Counterfactual = Counterfactual(
    model_id: u32, decision: Decision, blocked_by_request: Option<Reason>, levers: seq<Requirement>)

  datatype Margin = Margin(model_id: u32, decision: Decision, levers: seq<Requirement>)

  /** A requirement names its lever's value now and, for a price, what the kernel charges at the boundary. */
  ghost predicate Quoted(c: Case, q: Requirement)
    requires Asked(c)
  {
    && Fits(q.lever, q.boundary) && q.current == Current(c.models[c.at], q.lever)
    && q.cost_at_boundary == if !q.lever.PriceScalePpm? then None else
         Some(Decide(c.s, c.models[c.at := Setting(c.models[c.at], q.lever, q.boundary)], c.input).estimated_cost)
  }

  /** The far end of the search for a winning value. */
  function Reach(l: Lever): nat {
    if l.Enabled? then 1 else if Rising(l) then MAX_BPS else 0
  }

  /** Of the values from the current one to the far end, those from the boundary on win and the others do not. */
  ghost predicate ExactWin(c: Case, q: Requirement)
    requires Asked(c)
  {
    && Quoted(c, q)
    && if Rising(q.lever) then
         q.boundary <= Reach(q.lever) && NoneWin(c, q.lever, q.current, q.boundary - 1) && AllWin(c, q.lever, q.boundary, Reach(q.lever))
       else
         q.boundary <= q.current && NoneWin(c, q.lever, q.boundary + 1, q.current) && AllWin(c, q.lever, 0, q.boundary)
  }

  /** No value of lever `l` from the current one to the far end wins. */
  ghost predicate Hopeless(c: Case, l: Lever)
    requires Asked(c)
  {
    if Rising(l) then NoneWin(c, l, Current(c.models[c.at], l), Reach(l)) else NoneWin(c, l, 0, Current(c.models[c.at], l))
  }

  /** At most one requirement for each lever, in the order of the levers. */
  ghost predicate Lists(levers: seq<Requirement>) {
    && (forall i, j :: 0 <= i < j < |levers| ==> Rank(levers[i].lever) < Rank(levers[j].lever))
    && (forall q :: q in levers ==> !q.lever.Enabled?)
  }

  predicate Listed(levers: seq<Requirement>, l: Lever) {
    exists q :: q in levers && q.lever == l
  }

  /** The requirement for one lever, if it can win alone. */
  method WinLever(c: Case, l: Lever) returns (piece: seq<Requirement>)
    requires Asked(c) && !l.Enabled?
    ensures Piece(piece, l) && forall q :: q in piece ==> ExactWin(c, q)
    ensures piece == [] <==> Hopeless(c, l)
  {
    hide WinsAt;
    var now := Current(c.models[c.at], l);
    SettingNow(c.models[c.at], l);
    var lo, hi := if Rising(l) then now else 0, if Rising(l) then Reach(l) else now;
    var b := FindBoundary(c, l, lo, hi);
    if b.None? {
      return [];
    }
    assert WinsAt(c, l, b.value);
    var q := Quote(c, l, b.value);
    piece := [q];
  }

  /** `plain` and `priced`. */
  method Quote(c: Case, l: Lever, b: nat) returns (q: Requirement)
    requires Asked(c) && Fits(l, b)
    ensures Quoted(c, q) && q.lever == l && q.boundary == b
  {
    hide Decide, Fits;
    q := Requirement(l, Current(c.models[c.at], l), b, None);
    if l.PriceScalePpm? {
      var d := PrescribeAt(c, l, b);
      q := q.(cost_at_boundary := Some(d.estimated_cost));
    }
  }

  ghost predicate Piece(piece: seq<Requirement>, l: Lever) {
    |piece| <= 1 && forall q :: q in piece ==> q.lever == l
  }

  ghost predicate Below(levers: seq<Requirement>, l: Lever) {
    forall q :: q in levers ==> Rank(q.lever) < Rank(l)
  }

  lemma Append(list: seq<Requirement>, piece: seq<Requirement>, l: Lever, next: Lever)
    requires Lists(list) && Below(list, l) && Piece(piece, l) && l != Enabled && Rank(l) < Rank(next)
    ensures Lists(list + piece) && Below(list + piece, next)
    ensures forall k :: Listed(list + piece, k) <==> Listed(list, k) || (k == l && piece != [])
    ensures forall q :: q in list + piece <==> q in list || q in piece
  {
    var all := list + piece;
    assert forall i :: 0 <= i < |list| ==> list[i] in list;
    assert piece != [] ==> piece == [piece[0]] && piece[0] in piece;
    forall k
      ensures Listed(all, k) <==> Listed(list, k) || (k == l && piece != [])
    {
      assert k == l && piece != [] ==> piece[0] in all;
    }
  }

  /** The four searches, one after the other. */
  lemma Together(a: seq<Requirement>, b: seq<Requirement>, c: seq<Requirement>, d: seq<Requirement>)
    requires Piece(a, QualityBps) && Piece(b, P95LatencyMs) && Piece(c, PriceScalePpm) && Piece(d, RiskCeilingBps)
    ensures Lists(a + b + c + d)
    ensures forall q :: q in a + b + c + d <==> q in a || q in b || q in c || q in d
    ensures Listed(a + b + c + d, QualityBps) <==> a != []
    ensures Listed(a + b + c + d, P95LatencyMs) <==> b != []
    ensures Listed(a + b + c + d, PriceScalePpm) <==> c != []
    ensures Listed(a + b + c + d, RiskCeilingBps) <==> d != []
  {
    assert [] + a == a;
    assert Lists([]) && Below([], QualityBps) && forall k :: !Listed([], k);
    hide Lists, Below, Listed, Piece;
    Append([], a, QualityBps, P95LatencyMs);
    Append(a, b, P95LatencyMs, PriceScalePpm);
    Append(a + b, c, PriceScalePpm, RiskCeilingBps);
    Append(a + b + c, d, RiskCeilingBps, Enabled);
  }

  predicate IsSelected(c: Case)
    requires Asked(c)
  {
    Selected(Decide(c.s, c.models, c.input), c.models[c.at].model_id)
  }

  /** The answer to which single change would make the candidate win. */
  ghost predicate WinAnswer(c: Case, out: Counterfactual)
    requires Asked(c)
  {
    var m := c.models[c.at];
    && out.model_id == m.model_id && out.decision == Decide(c.s, c.models, c.input)
    && out.blocked_by_request == (if Blocked(c.s, c.input) then Some(out.decision.reason) else None)
    && (Blocked(c.s, c.input) || IsSelected(c) ==> out.levers == [])
    && (!Blocked(c.s, c.input) && !IsSelected(c) && m.enabled == 0 ==>
          out.levers == if WinsAt(c, Enabled, 1) then [Requirement(Enabled, 0, 1, None)] else [])
    && (!Blocked(c.s, c.input) && !IsSelected(c) && m.enabled != 0 ==>
          && Lists(out.levers)
          && (forall q :: q in out.levers ==> ExactWin(c, q))
          && (forall l :: l != Enabled ==> (Listed(out.levers, l) <==> !Hopeless(c, l))))
  }

  lemma BlockedReason(s: Settings, models: seq<Model>, input: Input)
    ensures var r := Decide(s, models, input).reason;
      Blocked(s, input) <==> r == RiskHardLimit || r == ConfidenceHardLimit
  {
    hide BestOf, Count, HistogramOf, CandidateAt, Dominant;
  }

  method WinLevers(c: Case) returns (levers: seq<Requirement>)
    requires Asked(c)
    ensures Lists(levers)
    ensures forall q :: q in levers ==> ExactWin(c, q)
    ensures forall l :: l != Enabled ==> (Listed(levers, l) <==> !Hopeless(c, l))
  {
    hide ExactWin, Hopeless, Lists, Listed;
    var quality := WinLever(c, QualityBps);
    var latency := WinLever(c, P95LatencyMs);
    var price := WinLever(c, PriceScalePpm);
    var risk := WinLever(c, RiskCeilingBps);
    Together(quality, latency, price, risk);
    levers := quality + latency + price + risk;
  }

  /** `what_would_win`: every boundary it reports is exact, and a lever it leaves out cannot win alone. */
  method WhatWouldWin(p: Policy, input: Input, id: u32) returns (r: Option<Counterfactual>)
    requires Sound(p)
    ensures r.None? <==> forall i :: 0 <= i < |p.models| ==> p.models[i].model_id != id
    ensures r.Some? ==> exists at :: FirstWith(p.models, id, at) && WinAnswer(Case(p.settings, p.models, at, input), r.value)
  {
    hide Decide, WinsAt, ExactWin, Hopeless, Lists, Listed;
    var at := Position(p.models, id);
    if at.None? {
      return None;
    }
    var c := Case(p.settings, p.models, at.value, input);
    var d, h := Prescribe(p, input);
    BlockedReason(p.settings, p.models, input);
    var blocked := if d.reason == RiskHardLimit || d.reason == ConfidenceHardLimit then Some(d.reason) else None;
    var out := Counterfactual(id, d, blocked, []);
    if blocked.None? && !Selected(d, id) {
      if p.models[at.value].enabled == 0 {
        var won := Wins(c, Enabled, 1);
        if won {
          out := out.(levers := [Requirement(Enabled, 0, 1, None)]);
        }
      } else {
        var levers := WinLevers(c);
        out := out.(levers := levers);
      }
    }
    assert WinAnswer(c, out);
    r := Some(out);
  }

  method Position(models: seq<Model>, id: u32) returns (at: Option<nat>)
    ensures at.None? <==> forall i :: 0 <= i < |models| ==> models[i].model_id != id
    ensures at.Some? ==> FirstWith(models, id, at.value)
  {
    for i := 0 to |models|
      invariant forall j :: 0 <= j < i ==> models[j].model_id != id
    {
      if models[i].model_id == id {
        return Some(i);
      }
    }
    return None;
  }

  // ----- A switched-off candidate -----

  lemma {:induction false} BestCongruent(s: Settings, a: seq<Model>, b: seq<Model>, input: Input, at: int, n: nat)
    requires |a| == |b| && n <= |a| && forall i :: 0 <= i < |a| && i != at ==> a[i] == b[i]
    requires !Ranked(s, a, input, at) && !Ranked(s, b, input, at)
    ensures BestOf(s, a, input, n, -1) == BestOf(s, b, input, n, -1)
  {
    hide Judge;
    if n > 0 {
      BestCongruent(s, a, b, input, at, n - 1);
    }
  }

  /** Every lever but the switch is out of reach of a candidate that is switched off. */
  lemma SwitchedOff(c: Case, l: Lever)
    requires Asked(c) && !IsSelected(c) && c.models[c.at].enabled == 0 && l != Enabled
    ensures Hopeless(c, l)
  {
    hide Decide, Selected, BestOf;
    forall v | Fits(l, v)
      ensures !WinsAt(c, l, v)
    {
      var other := c.models[c.at := Setting(c.models[c.at], l, v)];
      var id := c.models[c.at].model_id;
      assert !Ranked(c.s, c.models, c.input, c.at) && !Ranked(c.s, other, c.input, c.at);
      BestCongruent(c.s, c.models, other, c.input, c.at, |c.models|);
      SelectedIsBest(c.s, c.models, c.input, id);
      SelectedIsBest(c.s, other, c.input, id);
    }
  }

  // ----- Margins -----

  /** The far end of the search for a losing value. */
  function Far(l: Lever): nat {
    if l.P95LatencyMs? then 0xFFFF_FFFF else if l.PriceScalePpm? then MAX_PRICE_SCALE_PPM else 0
  }

  /** Of the values from the current one to the far end, those up to the boundary win and the others do not. */
  ghost predicate ExactMargin(c: Case, q: Requirement)
    requires Asked(c)
  {
    && Quoted(c, q)
    && if Rising(q.lever) then
         q.boundary <= q.current && AllWin(c, q.lever, q.boundary, q.current) && NoneWin(c, q.lever, 0, q.boundary - 1)
       else
         q.current <= q.boundary && AllWin(c, q.lever, q.current, q.boundary)
         && NoneWin(c, q.lever, q.boundary + 1, Far(q.lever))
  }

  /** The candidate stays selected wherever lever `l` goes within its range. */
  ghost predicate Safe(c: Case, l: Lever)
    requires Asked(c)
  {
    var now := Current(c.models[c.at], l);
    if Rising(l) then AllWin(c, l, 0, now) else AllWin(c, l, now, Far(l))
  }

  lemma WinsNow(c: Case, l: Lever)
    requires Asked(c) && IsSelected(c) && l != Enabled
    ensures WinsAt(c, l, Current(c.models[c.at], l))
  {
    hide Decide, Selected;
    SettingNow(c.models[c.at], l);
    assert c.models[c.at := c.models[c.at]] == c.models;
  }

  lemma CurrentInRange(m: Model, l: Lever)
    requires l != Enabled
    ensures Fits(l, Current(m, l)) && Fits(l, Far(l))
    ensures if Rising(l) then Far(l) == 0 else Current(m, l) <= Far(l)
  {
  }

  method MarginLever(c: Case, l: Lever) returns (piece: seq<Requirement>)
    requires Asked(c) && IsSelected(c) && l != Enabled
    ensures Piece(piece, l) && forall q :: q in piece ==> ExactMargin(c, q)
    ensures piece == [] <==> l != QualityBps && Safe(c, l)
  {
    hide WinsAt, Decide, Fits, IsSelected, Current, Far;
    var now := Current(c.models[c.at], l);
    WinsNow(c, l);
    CurrentInRange(c.models[c.at], l);
    var won := Wins(c, l, Far(l));
    if l != QualityBps && won {
      forall v | if Rising(l) then 0 <= v <= now else now <= v <= Far(l)
        ensures WinsAt(c, l, v)
      {
        BetweenFits(l, v, now);
        WinsMonotone(c, l, Far(l), v);
      }
      return [];
    }
    assert l != QualityBps ==> !Safe(c, l);
    var lo, hi := if Rising(l) then 0 else now, if Rising(l) then now else Far(l);
    BetweenFits(l, lo, hi);
    var b := FindBoundary(c, l, lo, hi);
    assert WinsAt(c, l, now);
    assert WinsAt(c, l, b.value);
    BetweenFits(l, b.value, hi);
    var q := Quote(c, l, b.value);
    piece := [q];
  }

  lemma BetweenFits(l: Lever, v: int, hi: int)
    requires 0 <= v && (v <= hi || v <= Far(l)) && (Fits(l, hi) || v <= Far(l))
    ensures Fits(l, v)
  {
  }

  /** The answer to how far the winner's levers can move. */
  ghost predicate MarginAnswer(c: Case, out: Margin)
    requires Asked(c)
  {
    && out.model_id == c.models[c.at].model_id && out.decision == Decide(c.s, c.models, c.input)
    && Lists(out.levers)
    && (forall q :: q in out.levers ==> ExactMargin(c, q))
    && Listed(out.levers, QualityBps)
    && (forall l :: l != Enabled && l != QualityBps ==> (Listed(out.levers, l) <==> !Safe(c, l)))
  }

  /** `decision_margin`: every boundary it reports is exact, and a lever it leaves out cannot lose. */
  method DecisionMargin(p: Policy, input: Input) returns (r: Option<Margin>)
    requires Sound(p)
    ensures r.None? <==> Decide(p.settings, p.models, input).action == Reject
    ensures r.Some? ==> exists at ::
      && FirstWith(p.models, Decide(p.settings, p.models, input).selected_model_id, at)
      && MarginAnswer(Case(p.settings, p.models, at, input), r.value)
  {
    hide Decide, ExactMargin, Safe, Lists, Listed;
    var d, h := Prescribe(p, input);
    if d.action == Reject {
      return None;
    }
    SelectedListed(p.settings, p.models, input);
    var at := Position(p.models, d.selected_model_id);
    var c := Case(p.settings, p.models, at.value, input);
    var quality := MarginLever(c, QualityBps);
    var latency := MarginLever(c, P95LatencyMs);
    var price := MarginLever(c, PriceScalePpm);
    var risk := MarginLever(c, RiskCeilingBps);
    Together(quality, latency, price, risk);
    var out := Margin(d.selected_model_id, d, quality + latency + price + risk);
    assert MarginAnswer(c, out);
    r := Some(out);
  }

  lemma SelectedListed(s: Settings, models: seq<Model>, input: Input)
    requires Decide(s, models, input).action != Reject
    ensures exists i :: 0 <= i < |models| && models[i].model_id == Decide(s, models, input).selected_model_id
  {
    hide Judge, BestOf, Count, HistogramOf;
    var b := BestOf(s, models, input, |models|, -1);
    assert models[b.value].model_id == Decide(s, models, input).selected_model_id;
  }

  /** With distinct ids a winner's quality boundary is never zero: at quality zero it cannot be selected. */
  lemma QualityZeroLoses(c: Case)
    requires Asked(c) && DistinctIds(c.models)
    ensures !WinsAt(c, QualityBps, 0)
  {
    hide Decide, Selected, BestOf;
    var m := Setting(c.models[c.at], QualityBps, 0);
    var other := c.models[c.at := m];
    assert !Judge(c.s, m, c.input).Eligible? by {
      ZeroQuality(c.s, m, c.input);
    }
    SelectedIsBest(c.s, other, c.input, m.model_id);
  }

  lemma ZeroQuality(s: Settings, m: Model, input: Input)
    requires m.quality_bps == 0
    ensures !Judge(s, m, input).Eligible?
  {
    hide FirstFailedGate, Cost;
    MulMono(s.latency_penalty, 0, m.p95_latency_ms);
    assert Scaled(Value(input), input.confidence_bps, 0) == 0;
  }
}
