/** What the answers of the counterfactual search say, read lever by lever and number by number. */
module CounterfactualMeaning {
  import opened Wrappers
  import opened Division
  import opened Kernel
  import opened KernelDecide
  import opened KernelPolicy
  import opened KernelMeaning
  import opened Counterfactuals

  /** `p` is the price at `scale` millionths, rounded down, and no more than 64 bits hold. */
  ghost predicate ScaledTo(price: u64, scale: nat, p: int) {
    if price * scale < 1_000_000 * 0x1_0000_0000_0000_0000 then RoundedDown(price * scale, 1_000_000, p)
    else p == 0xFFFF_FFFF_FFFF_FFFF
  }

  lemma ScaledPriceMeans(price: u64, scale: nat, p: int)
    ensures ScaledPrice(price, scale) == p <==> ScaledTo(price, scale, p)
  {
    MulMono(price, 0, scale);
    var n := price * scale;
    var v := n / 1_000_000;
    assert n == 1_000_000 * v + n % 1_000_000;
    if ScaledTo(price, scale, p) && n < 1_000_000 * 0x1_0000_0000_0000_0000 {
      DownIsDivision(n, 1_000_000, p);
    }
  }

  /** Candidate `at` of the catalog is replaced, and its id is selected. */
  predicate SelectedAs(c: Case, m: Model)
    requires Asked(c)
  {
    Selected(Decide(c.s, c.models[c.at := m], c.input), c.models[c.at].model_id)
  }

  lemma WinsAs(c: Case, l: Lever, v: int)
    requires Asked(c) && Fits(l, v)
    ensures WinsAt(c, l, v) <==> SelectedAs(c, Setting(c.models[c.at], l, v))
  {
  }

  /** The candidate at a value of the lever. */
  ghost predicate At(m: Model, l: Lever, v: int, x: Model) {
    match l
    case QualityBps => 0 <= v <= 0xFFFF && x == m.(quality_bps := v)
    case P95LatencyMs => 0 <= v <= 0xFFFF_FFFF && x == m.(p95_latency_ms := v)
    case PriceScalePpm =>
      && 0 <= v <= U64_MAX && x == m.(input_price := x.input_price, output_price := x.output_price)
      && ScaledTo(m.input_price, v, x.input_price) && ScaledTo(m.output_price, v, x.output_price)
    case RiskCeilingBps => 0 <= v <= 0xFFFF && x == m.(risk_ceiling_bps := v)
    case Enabled => 0 <= v <= 1 && x == m.(enabled := v)
  }

  lemma SettingMeans(m: Model, l: Lever, v: int, x: Model)
    requires At(m, l, v, x)
    ensures Fits(l, v) && Setting(m, l, v) == x
  {
    if l.PriceScalePpm? {
      hide ScaledTo, ScaledPrice;
      ScaledPriceMeans(m.input_price, v, x.input_price);
      ScaledPriceMeans(m.output_price, v, x.output_price);
    }
  }

  /** Where a lever stands now, and how far a search for a win looks: up to 10,000 basis points, or down to nothing. */
  ghost predicate WinRange(m: Model, l: Lever, now: nat, v: int) {
    match l
    case QualityBps => now == m.quality_bps && now <= v <= 10_000
    case P95LatencyMs => now == m.p95_latency_ms && 0 <= v <= now
    case PriceScalePpm => now == 1_000_000 && 0 <= v <= now
    case RiskCeilingBps => now == m.risk_ceiling_bps && now <= v <= 10_000
    case Enabled => false
  }

  /** A reported lever wins, within its range, exactly from its boundary on in the favourable direction. */
  lemma WinReported(c: Case, out: Counterfactual, q: Requirement, v: int, x: Model)
    requires Asked(c) && WinAnswer(c, out) && !Blocked(c.s, c.input) && !IsSelected(c) && c.models[c.at].enabled != 0
    requires q in out.levers && At(c.models[c.at], q.lever, v, x) && WinRange(c.models[c.at], q.lever, q.current, v)
    ensures SelectedAs(c, x) <==> if q.lever.QualityBps? || q.lever.RiskCeilingBps? then v >= q.boundary else v <= q.boundary
  {
    hide At, WinsAt, Decide, Selected, SelectedAs, Setting, Blocked, IsSelected;
    SettingMeans(c.models[c.at], q.lever, v, x);
    WinsAs(c, q.lever, v);
    assert ExactWin(c, q);
  }

  /** A lever that is not reported wins nowhere in its range. */
  lemma WinOmitted(c: Case, out: Counterfactual, l: Lever, now: nat, v: int, x: Model)
    requires Asked(c) && WinAnswer(c, out) && !Blocked(c.s, c.input) && !IsSelected(c) && c.models[c.at].enabled != 0
    requires l != Enabled && !Listed(out.levers, l) && At(c.models[c.at], l, v, x) && WinRange(c.models[c.at], l, now, v)
    ensures !SelectedAs(c, x)
  {
    hide At, WinsAt, Decide, Selected, SelectedAs, Setting, Blocked, IsSelected, Listed;
    SettingMeans(c.models[c.at], l, v, x);
    WinsAs(c, l, v);
    assert Hopeless(c, l);
  }

  /** How far a search for a loss looks: down to nothing, or up to 2^32 - 1 milliseconds or a thousandfold price. */
  ghost predicate MarginRange(m: Model, l: Lever, now: nat, v: int) {
    match l
    case QualityBps => now == m.quality_bps && 0 <= v <= now
    case P95LatencyMs => now == m.p95_latency_ms && now <= v <= 0xFFFF_FFFF
    case PriceScalePpm => now == 1_000_000 && now <= v <= 1_000_000_000
    case RiskCeilingBps => now == m.risk_ceiling_bps && 0 <= v <= now
    case Enabled => false
  }

  /** A reported lever keeps the selection, within its range, exactly up to its boundary. */
  lemma MarginReported(c: Case, out: Margin, q: Requirement, v: int, x: Model)
    requires Asked(c) && MarginAnswer(c, out) && q in out.levers
    requires At(c.models[c.at], q.lever, v, x) && MarginRange(c.models[c.at], q.lever, q.current, v)
    ensures SelectedAs(c, x) <==> if q.lever.QualityBps? || q.lever.RiskCeilingBps? then v >= q.boundary else v <= q.boundary
  {
    hide At, WinsAt, Decide, Selected, SelectedAs, Setting, Listed;
    SettingMeans(c.models[c.at], q.lever, v, x);
    WinsAs(c, q.lever, v);
    assert ExactMargin(c, q);
  }

  /** A lever that is not reported keeps the selection throughout its range. */
  lemma MarginOmitted(c: Case, out: Margin, l: Lever, now: nat, v: int, x: Model)
    requires Asked(c) && MarginAnswer(c, out) && l != Enabled && !Listed(out.levers, l)
    requires At(c.models[c.at], l, v, x) && MarginRange(c.models[c.at], l, now, v)
    ensures SelectedAs(c, x)
  {
    hide At, WinsAt, Decide, Selected, SelectedAs, Setting, Listed;
    SettingMeans(c.models[c.at], l, v, x);
    WinsAs(c, l, v);
    assert Safe(c, l);
  }

  /** The cost quoted with a price boundary is what the candidate costs at the scaled prices. */
  lemma BoundaryCost(c: Case, q: Requirement, x: Model, cost: int)
    requires Asked(c) && DistinctIds(c.models) && Quoted(c, q) && q.lever == PriceScalePpm && WinsAt(c, q.lever, q.boundary)
    requires At(c.models[c.at], q.lever, q.boundary, x) && Priced(x, c.input, cost)
    ensures q.cost_at_boundary == Some(cost)
  {
    hide At, Priced, Setting, Judge, HistogramOf, Count, BestOf, Cost;
    SettingMeans(c.models[c.at], q.lever, q.boundary, x);
    SettingKeepsId(c.models[c.at], q.lever, q.boundary);
    var models := c.models[c.at := x];
    assert DistinctIds(models);
    CostIs(x, c.input, cost);
    var b := BestOf(c.s, models, c.input, |models|, -1).value;
    assert b == c.at;
    RankedCost(c.s, x, c.input);
  }

  /** No other number is quoted. */
  lemma OnlyPricesCost(c: Case, q: Requirement)
    requires Asked(c) && Quoted(c, q)
    ensures q.cost_at_boundary.Some? <==> q.lever.PriceScalePpm?
  {
  }
}
