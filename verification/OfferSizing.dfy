/** Flow-keyed offer sizing and its claimed inverse, the ideal balances (scripts/offer_sizing.py:130-167,
    225-359, 407-417). Fills, spreads, holdings and tickers are inputs; a ticker's missing id is
    the empty string. Floats are reals. */
module OfferSizing {
  import opened Wrappers
  import opened RealFacts

  const CapFrac: real := 0.4
  const LookbackDays: real := 7.0
  const Xch: string := "xch"
  const Usdc: string := "fa4a180ac326e67ea289b869e3448256f6af05721f7cf934cb9901baa6b7a99d"

  datatype Ticker = Ticker(base: string, target: string, lastPrice: real, baseVolume: real, targetVolume: real)

  datatype Pair = Pair(name: string, base: string, quote: string, floor: real, weights: seq<real>,
                       fillsPerDay: real, volumePerDay: real, spread: Option<real>)

  datatype Params = Params(target: real, maxParticipation: real, inventoryDays: real, liquidFloor: real)

  datatype Side = BaseSide | QuoteSide

  /** What decided a size: the target, one of the caps, the haircut on it or the minimum; or no market. */
  datatype Binding = Target | ParticipationCap | InventoryCap | HoldingsCap | HaircutOn | ConfigFloor
                   | NoTicker | NoVolume

  datatype Sizing = Sizing(name: string, base: string, quote: string, floor: real, mult: real, fillsDiv: real,
                           haircut: real, market: Option<real>, participation: Option<real>,
                           tier0: real, ladderTotal: real, binding: Binding,
                           tighter: Option<Side>, holdingsBound: bool, floored: bool)

  type Units = map<string, real>

  // ---------------------------------------------------------------- a ticker's view of a pair

  predicate Lists(t: Ticker, a: string, b: string) {
    {t.base, t.target} == {a, b}
  }

  /** _match_ticker: the first, in either orientation. */
  function MatchTicker(ts: seq<Ticker>, base: string, quote: string): Option<Ticker> {
    if |ts| == 0 then None
    else if Lists(ts[0], base, quote) then Some(ts[0])
    else MatchTicker(ts[1..], base, quote)
  }

  function MarketVolume(t: Ticker, base: string): real {
    (if t.base == base then t.baseVolume else t.targetVolume) / LookbackDays
  }

  /** _ticker_price_in_base: our base units for one quote unit. */
  function PriceInBase(t: Ticker, base: string): Option<real> {
    if t.lastPrice <= 0.0 then None
    else if t.base == base then Some(1.0 / t.lastPrice)
    else Some(t.lastPrice)
  }

  function Haircut(spread: Option<real>): (h: real)
    ensures 0.4 <= h <= 1.0
  {
    match spread
    case None => 1.0
    case Some(bps) => Max(0.4, Min(1.0, 1.0 - (bps - 300.0) / 2000.0))
  }

  function Sum(ws: seq<real>): real {
    if |ws| == 0 then 0.0 else Sum(ws[..|ws| - 1]) + ws[|ws| - 1]
  }

  /** How many tier-0 sizes a ladder holds. */
  function Mult(p: Pair): (m: real)
    requires HasTiers(p)
    ensures m != 0.0
  {
    DivCancel(Sum(p.weights), p.weights[0]);
    Sum(p.weights) / p.weights[0]
  }

  predicate HasTiers(p: Pair) {
    |p.weights| > 0 && p.weights[0] != 0.0 && Sum(p.weights) != 0.0
  }

  function FillsDiv(p: Pair): (d: real)
    ensures d >= 1.0
  {
    Max(p.fillsPerDay, 1.0)
  }

  // ---------------------------------------------------------------- the recommendation

  function Share(part: real, market: real, parts: real): real
    requires parts != 0.0
  {
    part * market / parts
  }

  function PerTier(ladder: real, mult: real): real
    requires mult != 0.0
  {
    ladder / mult
  }

  /** Tier 0 as flow alone would have it: participation target and cap, and inventory days. */
  function FlowSize(target: real, market: real, fillsDiv: real, mult: real, params: Params): real
    requires fillsDiv >= 1.0 && mult != 0.0
  {
    Min(Min(Share(target, market, fillsDiv), Share(params.maxParticipation, market, fillsDiv)),
        Share(params.inventoryDays, market, mult))
  }

  function SideCap(p: Pair, t: Ticker, holdings: Units, side: Side): Option<real> {
    match side
    case BaseSide => if p.base in holdings then Some(CapFrac * holdings[p.base]) else None
    case QuoteSide =>
      var price := PriceInBase(t, p.base);
      if p.quote in holdings && price.Some? then Some(CapFrac * holdings[p.quote] * price.value) else None
  }

  /** The side whose holdings allow the smaller ladder; the base side on a tie. */
  function Tighter(p: Pair, t: Ticker, holdings: Units): (s: Option<Side>)
    ensures s.Some? ==> SideCap(p, t, holdings, s.value).Some?
  {
    var b, q := SideCap(p, t, holdings, BaseSide), SideCap(p, t, holdings, QuoteSide);
    if b.None? && q.None? then None
    else if b.None? then Some(QuoteSide)
    else if q.None? || b.value <= q.value then Some(BaseSide)
    else Some(QuoteSide)
  }

  /** The tier-0 size those holdings allow. */
  function HoldingsSize(p: Pair, t: Ticker, holdings: Units): Option<real>
    requires HasTiers(p)
  {
    match Tighter(p, t, holdings)
    case None => None
    case Some(side) => Some(PerTier(SideCap(p, t, holdings, side).value, Mult(p)))
  }

  function Capped(flow: real, cap: Option<real>): real {
    if cap.Some? then Min(flow, cap.value) else flow
  }

  function Cut(size: real, haircut: real): real {
    size * haircut
  }

  /** Haircut, then the configured minimum. */
  function Finished(size: real, haircut: real, floor: real): real {
    Max(Cut(size, haircut), floor)
  }

  lemma CutIsMonotone(a: real, b: real, haircut: real)
    requires haircut > 0.0
    ensures a <= b ==> Cut(a, haircut) <= Cut(b, haircut)
    ensures a < b ==> Cut(a, haircut) < Cut(b, haircut)
  {
    assert Cut(b, haircut) - Cut(a, haircut) == (b - a) * haircut;
    if a < b {
      MulPositive(b - a, haircut);
    }
  }

  lemma CutShrinks(x: real, haircut: real)
    requires x >= 0.0 && 0.0 < haircut <= 1.0
    ensures Cut(x, haircut) <= x
    ensures x > 0.0 && haircut < 1.0 ==> Cut(x, haircut) < x
  {
    var rest := 1.0 - haircut;
    assert x * rest == x - Cut(x, haircut);
    MulMonotone(0.0, x, rest);
    if x > 0.0 && haircut < 1.0 {
      MulPositive(x, rest);
    }
  }

  lemma NoHaircut(x: real)
    ensures Cut(x, 1.0) == x && Cut(0.0, x) == 0.0
  {
  }

  /** The market a pair has, if a ticker lists it with a positive volume. */
  function Flow(p: Pair, ts: seq<Ticker>): Option<real> {
    match MatchTicker(ts, p.base, p.quote)
    case None => None
    case Some(t) => Some(MarketVolume(t, p.base))
  }

  predicate HasMarket(p: Pair, ts: seq<Ticker>) {
    Flow(p, ts).Some? && Flow(p, ts).value > 0.0
  }

  function FlowOf(p: Pair, ts: seq<Ticker>, params: Params): real
    requires HasTiers(p) && HasMarket(p, ts)
  {
    FlowSize(params.target, Flow(p, ts).value, FillsDiv(p), Mult(p), params)
  }

  function CapOf(p: Pair, ts: seq<Ticker>, holdings: Units): Option<real>
    requires HasTiers(p) && HasMarket(p, ts)
  {
    HoldingsSize(p, MatchTicker(ts, p.base, p.quote).value, holdings)
  }

  /** The size before haircut and floor. */
  function CappedSize(p: Pair, ts: seq<Ticker>, holdings: Units, params: Params): real
    requires HasTiers(p) && HasMarket(p, ts)
  {
    Capped(FlowOf(p, ts, params), CapOf(p, ts, holdings))
  }

  /** Which of target and caps decides: the last one strictly below those before it. */
  function Deciding(target: real, participation: real, inventory: real, holdings: Option<real>): Binding {
    if holdings.Some? && holdings.value < Min(Min(target, participation), inventory) then HoldingsCap
    else if inventory < Min(target, participation) then InventoryCap
    else if participation < target then ParticipationCap
    else Target
  }

  function DecidingCap(p: Pair, t: Ticker, holdings: Units, params: Params, market: real): Binding
    requires HasTiers(p)
  {
    Deciding(Share(params.target, market, FillsDiv(p)), Share(params.maxParticipation, market, FillsDiv(p)),
             Share(params.inventoryDays, market, Mult(p)), HoldingsSize(p, t, holdings))
  }

  /** The size that decided is the size. */
  lemma DecidingIsAttained(target: real, participation: real, inventory: real, holdings: Option<real>)
    ensures var size := Capped(Min(Min(target, participation), inventory), holdings);
            match Deciding(target, participation, inventory, holdings)
            case Target => size == target
            case ParticipationCap => size == participation < target
            case InventoryCap => size == inventory < Min(target, participation)
            case HoldingsCap => holdings == Some(size) && size < Min(Min(target, participation), inventory)
            case _ => false
  {
  }

  function LadderTotal(tier0: real, mult: real): real {
    tier0 * mult
  }

  function Participation(p: Pair, market: real): Option<real> {
    if market > 0.0 then Some(p.volumePerDay / market) else None
  }

  function Blank(p: Pair, market: Option<real>): Sizing
    requires HasTiers(p)
  {
    Sizing(p.name, p.base, p.quote, p.floor, Mult(p), FillsDiv(p), Haircut(p.spread), market, None,
           p.floor, LadderTotal(p.floor, Mult(p)), if market.None? then NoTicker else NoVolume, None, false, false)
  }

  function Recommendation(p: Pair, ts: seq<Ticker>, holdings: Units, params: Params): Sizing
    requires HasTiers(p)
  {
    var blank := Blank(p, Flow(p, ts));
    if !HasMarket(p, ts) then blank
    else
      var t := MatchTicker(ts, p.base, p.quote).value;
      var h, market := Haircut(p.spread), Flow(p, ts).value;
      var flow, cap, size := FlowOf(p, ts, params), CapOf(p, ts, holdings), CappedSize(p, ts, holdings, params);
      var tier0, floored := Finished(size, h, p.floor), Cut(size, h) < p.floor;
      blank.(participation := Participation(p, market),
             tier0 := tier0,
             ladderTotal := LadderTotal(tier0, Mult(p)),
             binding := if floored then ConfigFloor else if h < 1.0 then HaircutOn
                        else DecidingCap(p, t, holdings, params, market),
             tighter := Tighter(p, t, holdings),
             holdingsBound := cap.Some? && cap.value < flow,
             floored := floored)
  }

  // ---------------------------------------------------------------- what the caps mean

  /** A tier-0 size within every limit: the participation target and cap at the fills of a day, the days of
      inventory in a whole ladder, and 40 % of the holdings each side of the ladder locks. */
  predicate Allowed(p: Pair, ts: seq<Ticker>, holdings: Units, params: Params, size: real)
    requires HasTiers(p) && HasMarket(p, ts)
  {
    var t, market := MatchTicker(ts, p.base, p.quote).value, Flow(p, ts).value;
    && UsesAtMost(size, FillsDiv(p), params.target, market)
    && UsesAtMost(size, FillsDiv(p), params.maxParticipation, market)
    && UsesAtMost(size, Mult(p), params.inventoryDays, market)
    && (SideCap(p, t, holdings, BaseSide).Some? ==> Within(size, Mult(p), SideCap(p, t, holdings, BaseSide).value))
    && (SideCap(p, t, holdings, QuoteSide).Some? ==> Within(size, Mult(p), SideCap(p, t, holdings, QuoteSide).value))
  }

  predicate Within(size: real, times: real, limit: real) {
    size * times <= limit
  }

  predicate UsesAtMost(size: real, times: real, part: real, market: real) {
    size * times <= part * market
  }

  lemma QuotientIsGreatest(size: real, times: real, limit: real)
    requires times > 0.0
    ensures Within(size, times, limit) <==> size <= PerTier(limit, times)
  {
    var q := limit / times;
    DivCancel(limit, times);
    if size <= q {
      MulMonotone(size, q, times);
    } else {
      MulPositive(size - q, times);
      assert (size - q) * times == size * times - limit;
    }
  }

  lemma ShareIsGreatest(size: real, times: real, part: real, market: real)
    requires times > 0.0
    ensures UsesAtMost(size, times, part, market) <==> size <= Share(part, market, times)
  {
    QuotientIsGreatest(size, times, part * market);
  }

  /** The capped size is the largest one within every limit. */
  lemma CappedSizeIsGreatestAllowed(p: Pair, ts: seq<Ticker>, holdings: Units, params: Params, size: real)
    requires HasTiers(p) && HasMarket(p, ts) && Mult(p) > 0.0
    ensures Allowed(p, ts, holdings, params, size) <==> size <= CappedSize(p, ts, holdings, params)
  {
    hide Within, UsesAtMost, Share, PerTier, Mult, FillsDiv, MatchTicker, MarketVolume, SideCap;
    var t, market := MatchTicker(ts, p.base, p.quote).value, Flow(p, ts).value;
    ShareIsGreatest(size, FillsDiv(p), params.target, market);
    ShareIsGreatest(size, FillsDiv(p), params.maxParticipation, market);
    ShareIsGreatest(size, Mult(p), params.inventoryDays, market);
    var b, q := SideCap(p, t, holdings, BaseSide), SideCap(p, t, holdings, QuoteSide);
    if b.Some? {
      QuotientIsGreatest(size, Mult(p), b.value);
    }
    if q.Some? {
      QuotientIsGreatest(size, Mult(p), q.value);
    }
    if b.Some? && q.Some? {
      WithinWider(size, Mult(p), b.value, q.value);
      WithinWider(size, Mult(p), q.value, b.value);
    }
  }

  lemma WithinWider(size: real, times: real, low: real, high: real)
    ensures low <= high && Within(size, times, low) ==> Within(size, times, high)
  {
  }

  /** The least of a size and the first caps, in order. */
  function Least(size: real, caps: seq<(Binding, real)>): real {
    if |caps| == 0 then size else Min(Least(size, caps[..|caps| - 1]), caps[|caps| - 1].1)
  }

  /** The last cap that was strictly below everything before it. */
  function Winner(size: real, caps: seq<(Binding, real)>): Binding {
    if |caps| == 0 then Target
    else
      var before, cap := caps[..|caps| - 1], caps[|caps| - 1];
      if cap.1 < Least(size, before) then cap.0 else Winner(size, before)
  }

  method ApplyCaps(size: real, caps: seq<(Binding, real)>) returns (tier0: real, binding: Binding)
    ensures tier0 == Least(size, caps) && binding == Winner(size, caps)
  {
    tier0, binding := size, Target;
    for i := 0 to |caps|
      invariant tier0 == Least(size, caps[..i]) && binding == Winner(size, caps[..i])
    {
      assert caps[..i + 1][..i] == caps[..i];
      if caps[i].1 < tier0 {
        tier0, binding := caps[i].1, caps[i].0;
      }
    }
    assert caps[..|caps|] == caps;
  }

  lemma TwoCaps(size: real, a: (Binding, real), b: (Binding, real))
    ensures Least(size, [a, b]) == Min(Min(size, a.1), b.1)
    ensures Winner(size, [a, b]) == if b.1 < Min(size, a.1) then b.0 else if a.1 < size then a.0 else Target
  {
    assert [a, b][..1] == [a] && [a][..0] == [];
    assert Least(size, [a]) == Min(size, a.1);
    assert Winner(size, [a]) == if a.1 < size then a.0 else Target;
  }

  lemma ThreeCaps(size: real, a: (Binding, real), b: (Binding, real), c: (Binding, real))
    ensures Least(size, [a, b, c]) == Min(Min(Min(size, a.1), b.1), c.1)
    ensures Winner(size, [a, b, c]) == if c.1 < Min(Min(size, a.1), b.1) then c.0 else Winner(size, [a, b])
  {
    TwoCaps(size, a, b);
    assert [a, b, c][..2] == [a, b];
  }

  /** Steps 3 and the caps of _recommend, up to the haircut. */
  method CapFlow(p: Pair, t: Ticker, holdings: Units, params: Params, market: real)
      returns (tier0: real, binding: Binding)
    requires HasTiers(p)
    ensures binding == DecidingCap(p, t, holdings, params, market)
    ensures var flow := FlowSize(params.target, market, FillsDiv(p), Mult(p), params);
            var cap := HoldingsSize(p, t, holdings);
            && tier0 == Capped(flow, cap)
            && (binding == HoldingsCap <==> cap.Some? && cap.value < flow)
  {
    hide Mult, Tighter, SideCap, FillsDiv, Least, Winner, Share, PerTier;
    var fillsDiv, mult := FillsDiv(p), Mult(p);
    var naive := Share(params.target, market, fillsDiv);
    var a := (ParticipationCap, Share(params.maxParticipation, market, fillsDiv));
    var b := (InventoryCap, Share(params.inventoryDays, market, mult));
    var caps := [a, b];
    var tighter := Tighter(p, t, holdings);
    TwoCaps(naive, a, b);
    if tighter.Some? {
      var c := (HoldingsCap, PerTier(SideCap(p, t, holdings, tighter.value).value, mult));
      ThreeCaps(naive, a, b, c);
      caps := [a, b, c];
    }
    tier0, binding := ApplyCaps(naive, caps);
  }

  method Finish(size: real, haircut: real, floor: real) returns (tier0: real, floored: bool)
    requires haircut <= 1.0
    ensures tier0 == Finished(size, haircut, floor) && floored == (Cut(size, haircut) < floor)
  {
    tier0 := size;
    if haircut < 1.0 {
      tier0 := tier0 * haircut;
    }
    floored := tier0 < floor;
    if floored {
      tier0 := floor;
    }
  }

  /** _recommend. */
  method Recommend(p: Pair, ts: seq<Ticker>, holdings: Units, params: Params) returns (r: Sizing)
    requires HasTiers(p)
    ensures r == Recommendation(p, ts, holdings, params)
  {
    hide Mult, Tighter, MarketVolume, MatchTicker, Haircut, FlowSize, HoldingsSize, DecidingCap, LadderTotal;
    var haircut := Haircut(p.spread);
    var ticker := MatchTicker(ts, p.base, p.quote);
    r := Blank(p, None);
    if ticker.None? {
      return;
    }
    var market := MarketVolume(ticker.value, p.base);
    r := r.(market := Some(market), participation := Participation(p, market));
    if market <= 0.0 {
      return r.(binding := NoVolume);
    }
    var tier0, binding := CapFlow(p, ticker.value, holdings, params, market);
    hide CappedSize, HasTiers, Flow, HasMarket, FlowOf, CapOf, Participation;
    var floored, bound := false, binding == HoldingsCap;
    tier0, floored := Finish(tier0, haircut, p.floor);
    if floored {
      binding := ConfigFloor;
    } else if haircut < 1.0 {
      binding := HaircutOn;
    }
    hide Finished;
    r := r.(tier0 := tier0, ladderTotal := LadderTotal(tier0, Mult(p)), binding := binding,
            tighter := Tighter(p, ticker.value, holdings), holdingsBound := bound, floored := floored);
  }

  // ---------------------------------------------------------------- the ideal tier 0

  /** _ideal_tier0: the size if holdings never bound. */
  function IdealTier0(r: Sizing, target: real, params: Params): real
    requires r.fillsDiv >= 1.0 && r.mult != 0.0
  {
    if r.market.None? || r.market.value == 0.0 then r.floor
    else Finished(FlowSize(target, r.market.value, r.fillsDiv, r.mult, params), r.haircut, r.floor)
  }

  lemma FinishedMonotone(a: real, b: real, haircut: real, floor: real)
    requires a <= b && haircut > 0.0
    ensures Finished(a, haircut, floor) <= Finished(b, haircut, floor)
    ensures Finished(a, haircut, floor) == Finished(b, haircut, floor) <==> a == b || Cut(b, haircut) <= floor
  {
    hide Cut;
    CutIsMonotone(a, b, haircut);
  }

  lemma FlowAtMostTarget(target: real, market: real, fillsDiv: real, mult: real, params: Params)
    requires market <= 0.0 && fillsDiv >= 1.0 && mult != 0.0 && target >= 0.0
    ensures FlowSize(target, market, fillsDiv, mult, params) <= 0.0
  {
    var share := target * market;
    assert share <= 0.0;
    DivCancel(share, fillsDiv);
    assert Share(target, market, fillsDiv) <= 0.0;
    hide Share;
  }

  /** For any holdings, the recommendation is at most the ideal; and it is the ideal exactly when the
      holdings cap does not cut into the flow size or the minimum size decides anyway. */
  lemma RecommendationIsIdealIff(p: Pair, ts: seq<Ticker>, holdings: Units, params: Params)
    requires HasTiers(p) && p.floor >= 0.0 && params.target >= 0.0
    ensures var r := Recommendation(p, ts, holdings, params);
            && r.tier0 <= IdealTier0(r, params.target, params)
            && (r.tier0 == IdealTier0(r, params.target, params) <==>
                  (HasMarket(p, ts) ==>
                     || CappedSize(p, ts, holdings, params) == FlowOf(p, ts, params)
                     || Cut(FlowOf(p, ts, params), Haircut(p.spread)) <= p.floor))
  {
    hide MatchTicker, MarketVolume, Mult, Haircut, HoldingsSize, Cut;
    var h := Haircut(p.spread);
    if HasMarket(p, ts) {
      FinishedMonotone(CappedSize(p, ts, holdings, params), FlowOf(p, ts, params), h, p.floor);
      hide FlowSize, Finished;
    } else if Flow(p, ts).Some? {
      var market := Flow(p, ts).value;
      FlowAtMostTarget(params.target, market, FillsDiv(p), Mult(p), params);
      var size := FlowSize(params.target, market, FillsDiv(p), Mult(p), params);
      hide FlowSize;
      CutIsMonotone(size, 0.0, h);
      NoHaircut(h);
    }
  }

  /** What a recommendation says about its pair. */
  lemma RecommendationSays(p: Pair, ts: seq<Ticker>, holdings: Units, params: Params)
    requires HasTiers(p)
    ensures var r := Recommendation(p, ts, holdings, params);
            && r.name == p.name && r.base == p.base && r.quote == p.quote && r.floor == p.floor
            && r.mult == Mult(p) && r.fillsDiv == FillsDiv(p) && r.haircut == Haircut(p.spread)
            && r.market == Flow(p, ts) && r.ladderTotal == LadderTotal(r.tier0, r.mult)
            && r.tier0 == if HasMarket(p, ts) then Finished(CappedSize(p, ts, holdings, params), r.haircut, p.floor)
                          else p.floor
  {
    hide Mult, FillsDiv, Haircut, Flow, Finished, Tighter;
  }
}
