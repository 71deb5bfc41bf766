/** A recommended size in the ticker's own figures (scripts/offer_sizing.py:130-167, 234-359): which market flow and
    which limits it comes from, and that a market gives the same size whichever way round it is quoted. */
module SizingLaws {
  import opened Wrappers
  import opened RealFacts
  import opened OfferSizing

  // ---------------------------------------------------------------- a ticker's figures

  predicate Quotes(t: Ticker, a: string, b: string) {
    (t.base == a && t.target == b) || (t.base == b && t.target == a)
  }

  /** The first ticker that lists the two assets, in either orientation. */
  ghost predicate IsFirst(ts: seq<Ticker>, base: string, quote: string, t: Ticker) {
    exists i :: 0 <= i < |ts| && ts[i] == t && Quotes(t, base, quote) && forall j :: 0 <= j < i ==> !Quotes(ts[j], base, quote)
  }

  lemma {:induction false} MatchIsFirst(ts: seq<Ticker>, base: string, quote: string)
    ensures match MatchTicker(ts, base, quote)
            case None => forall i :: 0 <= i < |ts| ==> !Quotes(ts[i], base, quote)
            case Some(t) => IsFirst(ts, base, quote, t)
  {
    if |ts| > 0 {
      var rest := ts[1..];
      SameAssets(ts[0], base, quote);
      MatchIsFirst(rest, base, quote);
      assert forall i :: 1 <= i < |ts| ==> ts[i] == rest[i - 1];
      match MatchTicker(rest, base, quote)
      case None =>
      case Some(t) =>
        if !Quotes(ts[0], base, quote) {
          var i :| 0 <= i < |rest| && rest[i] == t && forall j :: 0 <= j < i ==> !Quotes(rest[j], base, quote);
          assert ts[i + 1] == t;
        }
    }
  }

  lemma SameAssets(t: Ticker, a: string, b: string)
    ensures Lists(t, a, b) <==> Quotes(t, a, b)
  {
    if Lists(t, a, b) {
      assert t.base in {a, b} && t.target in {a, b} && a in {t.base, t.target} && b in {t.base, t.target};
    }
  }

  /** A day of the seven the ticker reports, in units of an asset it lists. */
  ghost predicate IsDailyVolume(t: Ticker, asset: string, market: real) {
    7.0 * market == if t.base == asset then t.baseVolume else t.targetVolume
  }

  /** Units of one asset for one unit of the other: the last price is the target's per unit of the base. */
  ghost predicate IsPrice(t: Ticker, asset: string, price: real) {
    t.lastPrice > 0.0 && if t.base == asset then price * t.lastPrice == 1.0 else price == t.lastPrice
  }

  lemma VolumeIsDaily(t: Ticker, base: string)
    ensures IsDailyVolume(t, base, MarketVolume(t, base))
  {
  }

  lemma PriceIs(t: Ticker, base: string)
    ensures PriceInBase(t, base).Some? <==> t.lastPrice > 0.0
    ensures PriceInBase(t, base).Some? ==> IsPrice(t, base, PriceInBase(t, base).value)
  {
    if t.lastPrice > 0.0 {
      DivCancel(1.0, t.lastPrice);
    }
  }

  // ---------------------------------------------------------------- the limits of a size

  /** No haircut up to a spread of 300 basis points, then one twentieth of a percent each, down to 0.4. */
  ghost predicate IsHaircut(spread: Option<real>, h: real) {
    match spread
    case None => h == 1.0
    case Some(bps) => if bps <= 300.0 then h == 1.0 else if bps >= 1500.0 then h == 0.4
                      else 2000.0 * (1.0 - h) == bps - 300.0
  }

  /** The fills a day's volume is split over, at least one. */
  ghost predicate IsSplit(p: Pair, fills: real) {
    if p.fillsPerDay >= 1.0 then fills == p.fillsPerDay else fills == 1.0
  }

  /** How many tier-0 sizes the whole ladder is. */
  ghost predicate IsLadder(p: Pair, mult: real) {
    HasTiers(p) && mult * p.weights[0] == Sum(p.weights)
  }

  /** 40 % of what is held of a side, in base units: the base itself, or the quote at the ticker's price. */
  ghost predicate IsSideLimit(p: Pair, t: Ticker, holdings: Units, side: Side, limit: Option<real>) {
    match side
    case BaseSide => if p.base in holdings then limit == Some(0.4 * holdings[p.base]) else limit == None
    case QuoteSide =>
      if p.quote in holdings && t.lastPrice > 0.0
      then limit.Some? && exists price :: IsPrice(t, p.base, price) && limit.value == 0.4 * holdings[p.quote] * price
      else limit == None
  }

  /** The limits on a pair's tier 0: the parts of a day's volume its fills may use, the days of volume and the
      holdings its whole ladder may lock, the last by the smaller side. */
  datatype Limits = Limits(target: real, participation: real, inventory: real,
                           base: Option<real>, quote: Option<real>, holdings: Option<real>)

  ghost predicate AreLimits(p: Pair, t: Ticker, holdings: Units, params: Params, l: Limits) {
    exists market, fills, mult ::
      && IsDailyVolume(t, p.base, market) && IsSplit(p, fills) && IsLadder(p, mult)
      && l.target * fills == params.target * market
      && l.participation * fills == params.maxParticipation * market
      && l.inventory * mult == params.inventoryDays * market
      && IsSideLimit(p, t, holdings, BaseSide, l.base) && IsSideLimit(p, t, holdings, QuoteSide, l.quote)
      && (l.holdings.None? <==> l.base.None? && l.quote.None?)
      && (l.holdings.Some? ==> l.holdings.value * mult == Smaller(l.base, l.quote))
  }

  ghost function Smaller(a: Option<real>, b: Option<real>): real
    requires a.Some? || b.Some?
  {
    if a.None? || (b.Some? && b.value < a.value) then b.value else a.value
  }

  /** What decided a size, and what becomes of it: the last of the limits strictly below those before it, unless a
      haircut follows, unless the minimum has to be kept. */
  ghost predicate Decides(l: Limits, size: real, h: real, floor: real, r: Sizing) {
    && size <= l.target && size <= l.participation && size <= l.inventory
    && (l.holdings.Some? ==> size <= l.holdings.value)
    && (size == l.target || size == l.participation || size == l.inventory || l.holdings == Some(size))
    && (r.holdingsBound <==> size < l.target && size < l.participation && size < l.inventory)
    && (r.floored <==> size * h < floor)
    && r.tier0 == (if r.floored then floor else size * h)
    && r.binding == if r.floored then ConfigFloor
                    else if h < 1.0 then HaircutOn
                    else if r.holdingsBound then HoldingsCap
                    else if size < l.target && size < l.participation then InventoryCap
                    else if size < l.target then ParticipationCap
                    else Target
  }

  /** A recommendation on a traded market. */
  ghost predicate FollowsLimits(p: Pair, t: Ticker, holdings: Units, params: Params, r: Sizing) {
    exists l, size ::
      && AreLimits(p, t, holdings, params, l)
      && Decides(l, size, r.haircut, p.floor, r)
      && r.tighter == if l.base.Some? && l.base == Some(Smaller(l.base, l.quote)) then Some(BaseSide)
                      else if l.quote.Some? then Some(QuoteSide) else None
  }

  /** A recommendation without one. */
  ghost predicate KeepsMinimum(p: Pair, r: Sizing) {
    r.tier0 == p.floor && r.participation == None && r.tighter == None && !r.holdingsBound && !r.floored
  }

  ghost predicate FollowsTicker(p: Pair, t: Ticker, holdings: Units, params: Params, r: Sizing) {
    && r.market.Some? && IsDailyVolume(t, p.base, r.market.value)
    && (r.market.value <= 0.0 ==> r.binding == NoVolume && KeepsMinimum(p, r))
    && (r.market.value > 0.0 ==>
          && FollowsLimits(p, t, holdings, params, r)
          && r.participation.Some? && r.participation.value * r.market.value == p.volumePerDay)
  }

  ghost predicate DescribesPair(p: Pair, r: Sizing) {
    && r.name == p.name && r.base == p.base && r.quote == p.quote && r.floor == p.floor
    && IsHaircut(p.spread, r.haircut) && IsSplit(p, r.fillsDiv) && IsLadder(p, r.mult)
    && r.ladderTotal == r.tier0 * r.mult
  }

  /** What a recommendation says, without and with a market. */
  ghost predicate Recommends(p: Pair, ts: seq<Ticker>, holdings: Units, params: Params, r: Sizing) {
    && DescribesPair(p, r)
    && if forall i :: 0 <= i < |ts| ==> !Quotes(ts[i], p.base, p.quote)
       then r.binding == NoTicker && r.market == None && KeepsMinimum(p, r)
       else exists t :: IsFirst(ts, p.base, p.quote, t) && FollowsTicker(p, t, holdings, params, r)
  }

  lemma HaircutIs(spread: Option<real>)
    ensures IsHaircut(spread, Haircut(spread))
  {
  }

  /** The limits as the recommendation computes them. */
  ghost function LimitsOf(p: Pair, t: Ticker, holdings: Units, params: Params): Limits
    requires HasTiers(p)
  {
    var market := MarketVolume(t, p.base);
    Limits(Share(params.target, market, FillsDiv(p)), Share(params.maxParticipation, market, FillsDiv(p)),
           Share(params.inventoryDays, market, Mult(p)),
           SideCap(p, t, holdings, BaseSide), SideCap(p, t, holdings, QuoteSide), HoldingsSize(p, t, holdings))
  }

  lemma ShareIs(part: real, market: real, parts: real)
    requires parts != 0.0
    ensures Share(part, market, parts) * parts == part * market
  {
    DivCancel(part * market, parts);
  }

  lemma PerTierIs(ladder: real, mult: real)
    requires mult != 0.0
    ensures PerTier(ladder, mult) * mult == ladder
  {
    DivCancel(ladder, mult);
  }

  lemma MultIs(p: Pair)
    requires HasTiers(p)
    ensures IsLadder(p, Mult(p))
  {
    DivCancel(Sum(p.weights), p.weights[0]);
  }

  lemma SideLimitIs(p: Pair, t: Ticker, holdings: Units, side: Side)
    ensures IsSideLimit(p, t, holdings, side, SideCap(p, t, holdings, side))
  {
    PriceIs(t, p.base);
    hide PriceInBase, IsPrice;
  }

  lemma LimitsAre(p: Pair, t: Ticker, holdings: Units, params: Params)
    requires HasTiers(p)
    ensures AreLimits(p, t, holdings, params, LimitsOf(p, t, holdings, params))
  {
    var market := MarketVolume(t, p.base);
    VolumeIsDaily(t, p.base);
    MultIs(p);
    assert IsSplit(p, FillsDiv(p));
    ShareIs(params.target, market, FillsDiv(p));
    ShareIs(params.maxParticipation, market, FillsDiv(p));
    ShareIs(params.inventoryDays, market, Mult(p));
    SideLimitIs(p, t, holdings, BaseSide);
    SideLimitIs(p, t, holdings, QuoteSide);
    hide IsDailyVolume, MarketVolume, IsSplit, FillsDiv, IsLadder, Mult, Share, SideCap, IsSideLimit, PerTier, IsPrice;
    if side :| Tighter(p, t, holdings) == Some(side) {
      PerTierIs(SideCap(p, t, holdings, side).value, Mult(p));
    }
  }

  lemma LimitsDecide(l: Limits, h: real, floor: real, r: Sizing)
    requires var flow := Min(Min(l.target, l.participation), l.inventory);
             var size := Capped(flow, l.holdings);
             && r.tier0 == Finished(size, h, floor) && r.floored == (Cut(size, h) < floor)
             && r.holdingsBound == (l.holdings.Some? && l.holdings.value < flow)
             && r.binding == if r.floored then ConfigFloor else if h < 1.0 then HaircutOn
                             else Deciding(l.target, l.participation, l.inventory, l.holdings)
    ensures Decides(l, Capped(Min(Min(l.target, l.participation), l.inventory), l.holdings), h, floor, r)
  {
    var size := Capped(Min(Min(l.target, l.participation), l.inventory), l.holdings);
    assert Cut(size, h) == size * h;
  }

  lemma SizeDecides(p: Pair, ts: seq<Ticker>, holdings: Units, params: Params)
    requires HasTiers(p) && HasMarket(p, ts)
    ensures var t := MatchTicker(ts, p.base, p.quote).value;
            Decides(LimitsOf(p, t, holdings, params), CappedSize(p, ts, holdings, params), Haircut(p.spread), p.floor,
                    Recommendation(p, ts, holdings, params))
  {
    hide MarketVolume, FillsDiv, Mult, Share, SideCap, HoldingsSize, MatchTicker, Haircut, HasTiers, Tighter, LadderTotal,
         Decides, Cut, Finished, Deciding, Capped;
    LimitsDecide(LimitsOf(p, MatchTicker(ts, p.base, p.quote).value, holdings, params), Haircut(p.spread), p.floor,
                 Recommendation(p, ts, holdings, params));
  }

  lemma ParticipationIs(p: Pair, market: real)
    requires market > 0.0
    ensures Participation(p, market).Some? && Participation(p, market).value * market == p.volumePerDay
  {
    DivCancel(p.volumePerDay, market);
  }

  lemma MarketMeans(p: Pair, ts: seq<Ticker>, holdings: Units, params: Params)
    requires HasTiers(p) && HasMarket(p, ts)
    ensures FollowsLimits(p, MatchTicker(ts, p.base, p.quote).value, holdings, params,
                          Recommendation(p, ts, holdings, params))
  {
    hide AreLimits, Decides, LimitsOf, MarketVolume, FillsDiv, Mult, MatchTicker, Haircut, CappedSize, FlowOf, HasTiers,
         CapOf, Finished, Cut, Participation, DecidingCap, LadderTotal, Tighter, Smaller;
    var t := MatchTicker(ts, p.base, p.quote).value;
    LimitsAre(p, t, holdings, params);
    SizeDecides(p, ts, holdings, params);
    TighterIs(p, t, holdings, params);
  }

  lemma PairIsDescribed(p: Pair, ts: seq<Ticker>, holdings: Units, params: Params)
    requires HasTiers(p)
    ensures DescribesPair(p, Recommendation(p, ts, holdings, params))
  {
    hide *;
    RecommendationSays(p, ts, holdings, params);
    Describes(p, Recommendation(p, ts, holdings, params));
  }

  lemma Describes(p: Pair, r: Sizing)
    requires HasTiers(p) && r.name == p.name && r.base == p.base && r.quote == p.quote && r.floor == p.floor
    requires r.mult == Mult(p) && r.fillsDiv == FillsDiv(p) && r.haircut == Haircut(p.spread)
    requires r.ladderTotal == LadderTotal(r.tier0, r.mult)
    ensures DescribesPair(p, r)
  {
    HaircutIs(p.spread);
    MultIs(p);
    hide IsHaircut, IsLadder, Mult, Haircut, HasTiers;
  }

  lemma TickerIsFollowed(p: Pair, ts: seq<Ticker>, holdings: Units, params: Params, t: Ticker)
    requires HasTiers(p) && MatchTicker(ts, p.base, p.quote) == Some(t)
    ensures FollowsTicker(p, t, holdings, params, Recommendation(p, ts, holdings, params))
  {
    VolumeIsDaily(t, p.base);
    if HasMarket(p, ts) {
      ParticipationIs(p, MarketVolume(t, p.base));
      MarketMeans(p, ts, holdings, params);
    }
    hide FollowsLimits, IsDailyVolume, MarketVolume, MatchTicker, FillsDiv, Mult, Haircut, HasTiers, CappedSize, FlowOf,
         CapOf, Finished, Cut, Tighter, DecidingCap, Participation, LadderTotal;
  }

  /** What Recommend answers, in the figures of the ticker, the pair and the holdings. */
  lemma RecommendationMeans(p: Pair, ts: seq<Ticker>, holdings: Units, params: Params)
    requires HasTiers(p)
    ensures Recommends(p, ts, holdings, params, Recommendation(p, ts, holdings, params))
  {
    hide DescribesPair, FollowsTicker, HasTiers, FillsDiv, Mult, Haircut, LadderTotal;
    PairIsDescribed(p, ts, holdings, params);
    MatchIsFirst(ts, p.base, p.quote);
    match MatchTicker(ts, p.base, p.quote)
    case None =>
    case Some(t) => TickerIsFollowed(p, ts, holdings, params, t);
  }

  lemma TighterIs(p: Pair, t: Ticker, holdings: Units, params: Params)
    requires HasTiers(p)
    ensures var l := LimitsOf(p, t, holdings, params);
            Tighter(p, t, holdings)
            == if l.base.Some? && l.base == Some(Smaller(l.base, l.quote)) then Some(BaseSide)
               else if l.quote.Some? then Some(QuoteSide) else None
  {
    hide Share, MarketVolume, FillsDiv, Mult, SideCap, HoldingsSize;
  }

  lemma {:induction false} EvenSum(ws: seq<real>, w: real)
    requires forall i :: 0 <= i < |ws| ==> ws[i] == w
    ensures Sum(ws) == |ws| as real * w
  {
    if |ws| > 0 {
      EvenSum(ws[..|ws| - 1], w);
    }
  }

  /** A ladder of equal tiers is as many tier-0 sizes as it has tiers. */
  lemma EvenLadder(p: Pair)
    requires HasTiers(p) && forall i :: 0 <= i < |p.weights| ==> p.weights[i] == p.weights[0]
    ensures Mult(p) == |p.weights| as real
  {
    EvenSum(p.weights, p.weights[0]);
    DivUnique(|p.weights| as real, Sum(p.weights), p.weights[0]);
  }

  // ---------------------------------------------------------------- the greatest size allowed

  /** A part of the ticker's seven days of volume, in units of the asset, covers so many tier-0 sizes a day. */
  ghost predicate Covers(t: Ticker, asset: string, part: real, times: real, size: real) {
    7.0 * (size * times) <= part * if t.base == asset then t.baseVolume else t.targetVolume
  }

  /** 40 % of the holdings of each side, where known, lock a ladder of that many tier-0 sizes. */
  ghost predicate Locks(p: Pair, t: Ticker, holdings: Units, mult: real, size: real) {
    && (p.base in holdings ==> size * mult <= 0.4 * holdings[p.base])
    && (p.quote in holdings && t.lastPrice > 0.0 ==>
          if t.base == p.base then size * mult * t.lastPrice <= 0.4 * holdings[p.quote]
          else size * mult <= 0.4 * holdings[p.quote] * t.lastPrice)
  }

  lemma CoversIs(t: Ticker, asset: string, part: real, times: real, size: real)
    ensures UsesAtMost(size, times, part, MarketVolume(t, asset)) <==> Covers(t, asset, part, times, size)
  {
    VolumeIsDaily(t, asset);
    SevenTimes(part, MarketVolume(t, asset));
  }

  lemma SevenTimes(part: real, market: real)
    ensures 7.0 * (part * market) == part * (7.0 * market)
  {
  }

  lemma PricedLimit(locked: real, limit: real, price: real, last: real)
    requires last > 0.0 && price * last == 1.0
    ensures locked <= limit * price <==> locked * last <= limit
  {
    assert limit * price * last == limit * (price * last);
    if locked <= limit * price {
      MulMonotone(locked, limit * price, last);
    } else {
      MulPositive(locked - limit * price, last);
      assert (locked - limit * price) * last == locked * last - limit * price * last;
    }
  }

  lemma LocksIs(p: Pair, t: Ticker, holdings: Units, mult: real, size: real)
    ensures Locks(p, t, holdings, mult, size)
       <==> && (SideCap(p, t, holdings, BaseSide).Some? ==> Within(size, mult, SideCap(p, t, holdings, BaseSide).value))
            && (SideCap(p, t, holdings, QuoteSide).Some? ==> Within(size, mult, SideCap(p, t, holdings, QuoteSide).value))
  {
    PriceIs(t, p.base);
    var price := PriceInBase(t, p.base);
    if price.Some? && p.quote in holdings && t.base == p.base {
      PricedLimit(size * mult, 0.4 * holdings[p.quote], price.value, t.lastPrice);
    }
    hide PriceInBase;
  }

  /** The size before haircut and minimum is the greatest that the ticker's seven-day volume of the pair's base
      and the holdings allow. */
  lemma CappedSizeIsGreatest(p: Pair, ts: seq<Ticker>, holdings: Units, params: Params, t: Ticker, mult: real, size: real)
    requires IsLadder(p, mult) && mult > 0.0 && HasMarket(p, ts) && MatchTicker(ts, p.base, p.quote) == Some(t)
    ensures size <= CappedSize(p, ts, holdings, params)
       <==> && Covers(t, p.base, params.target, Max(p.fillsPerDay, 1.0), size)
            && Covers(t, p.base, params.maxParticipation, Max(p.fillsPerDay, 1.0), size)
            && Covers(t, p.base, params.inventoryDays, mult, size)
            && Locks(p, t, holdings, mult, size)
  {
    LadderIsMult(p, mult);
    CappedSizeIsGreatestAllowed(p, ts, holdings, params, size);
    CoversIs(t, p.base, params.target, FillsDiv(p), size);
    CoversIs(t, p.base, params.maxParticipation, FillsDiv(p), size);
    CoversIs(t, p.base, params.inventoryDays, mult, size);
    LocksIs(p, t, holdings, mult, size);
    hide Covers, Locks, UsesAtMost, Within, SideCap, MarketVolume, MatchTicker, Mult, CappedSize, IsLadder, HasTiers;
  }

  lemma LadderIsMult(p: Pair, mult: real)
    requires IsLadder(p, mult)
    ensures Mult(p) == mult
  {
    DivUnique(mult, Sum(p.weights), p.weights[0]);
  }

  // ---------------------------------------------------------------- the two ways round

  /** The ticker's two volumes are one turnover at its last price. */
  predicate OneTurnover(t: Ticker) {
    t.base != t.target && t.lastPrice > 0.0 && t.baseVolume * t.lastPrice == t.targetVolume
  }

  /** The same pair the other way round. */
  function Mirrored(p: Pair): Pair {
    p.(base := p.quote, quote := p.base)
  }

  lemma MirrorFindsTheTicker(ts: seq<Ticker>, a: string, b: string)
    ensures MatchTicker(ts, a, b) == MatchTicker(ts, b, a)
  {
    if |ts| > 0 {
      SameAssets(ts[0], a, b);
      SameAssets(ts[0], b, a);
      MirrorFindsTheTicker(ts[1..], a, b);
    }
  }

  lemma ScaledShare(part: real, market: real, scaled: real, parts: real, price: real)
    requires parts != 0.0 && scaled == market * price
    ensures Share(part, scaled, parts) == Share(part, market, parts) * price
  {
    ShareIs(part, market, parts);
    var s := Share(part, market, parts);
    assert s * price * parts == s * parts * price;
    DivUnique(s * price, part * scaled, parts);
  }

  lemma ScaledMin(a: real, b: real, price: real)
    requires price > 0.0
    ensures Min(a * price, b * price) == Min(a, b) * price
  {
    MulMonotone(Min(a, b), Max(a, b), price);
  }

  lemma ScaledFlow(target: real, market: real, scaled: real, fillsDiv: real, mult: real, params: Params, price: real)
    requires fillsDiv >= 1.0 && mult != 0.0 && price > 0.0 && scaled == market * price
    ensures FlowSize(target, scaled, fillsDiv, mult, params) == FlowSize(target, market, fillsDiv, mult, params) * price
  {
    ScaledShare(target, market, scaled, fillsDiv, price);
    ScaledShare(params.maxParticipation, market, scaled, fillsDiv, price);
    ScaledShare(params.inventoryDays, market, scaled, mult, price);
    var cap := params.maxParticipation;
    LeastScaled(Share(target, market, fillsDiv), Share(cap, market, fillsDiv), Share(params.inventoryDays, market, mult),
                Share(target, scaled, fillsDiv), Share(cap, scaled, fillsDiv), Share(params.inventoryDays, scaled, mult),
                price);
    hide Share, Min;
  }

  lemma LeastScaled(a: real, b: real, c: real, a': real, b': real, c': real, price: real)
    requires price > 0.0 && a' == a * price && b' == b * price && c' == c * price
    ensures Min(Min(a', b'), c') == Min(Min(a, b), c) * price
  {
    ScaledMin(a, b, price);
    ScaledMin(Min(a, b), c, price);
    hide Min;
  }

  /** A market gives a pair and its mirror image one size before holdings, haircut and minimum: the size in the
      ticker's base, turned over at its price, is the size in its target. */
  lemma MirrorsGetOneSize(p: Pair, ts: seq<Ticker>, t: Ticker, params: Params)
    requires HasTiers(p) && MatchTicker(ts, p.base, p.quote) == Some(t) && p.base == t.base && OneTurnover(t)
    ensures HasMarket(p, ts) <==> HasMarket(Mirrored(p), ts)
    ensures HasMarket(p, ts) ==> FlowOf(Mirrored(p), ts, params) == FlowOf(p, ts, params) * t.lastPrice
  {
    hide *;
    var m := Mirrored(p);
    MirroredFlow(p, ts, t);
    if Flow(p, ts).value > 0.0 {
      FlowOfIs(p, p, ts, params);
      FlowOfIs(p, m, ts, params);
      var there, back := Flow(p, ts).value, Flow(m, ts).value;
      ScaledFlow(params.target, there, back, FillsDiv(p), Mult(p), params, t.lastPrice);
    } else {
      NoFlow(p, ts);
      NoFlow(m, ts);
    }
  }

  lemma NoFlow(p: Pair, ts: seq<Ticker>)
    requires Flow(p, ts).Some? && Flow(p, ts).value <= 0.0
    ensures !HasMarket(p, ts)
  {
  }

  lemma FlowOfIs(p: Pair, m: Pair, ts: seq<Ticker>, params: Params)
    requires HasTiers(p) && (m == p || m == Mirrored(p)) && Flow(m, ts).Some? && Flow(m, ts).value > 0.0
    ensures HasTiers(m) && HasMarket(m, ts)
    ensures FlowOf(m, ts, params) == FlowSize(params.target, Flow(m, ts).value, FillsDiv(p), Mult(p), params)
  {
  }

  lemma MirroredFlow(p: Pair, ts: seq<Ticker>, t: Ticker)
    requires MatchTicker(ts, p.base, p.quote) == Some(t) && p.base == t.base && OneTurnover(t)
    ensures Flow(p, ts).Some? && Flow(Mirrored(p), ts).Some? && t.lastPrice > 0.0
    ensures Flow(Mirrored(p), ts).value == Flow(p, ts).value * t.lastPrice
    ensures Flow(p, ts).value > 0.0 <==> Flow(Mirrored(p), ts).value > 0.0
  {
    MatchIsFirst(ts, p.base, p.quote);
    MirrorFindsTheTicker(ts, p.base, p.quote);
    assert p.quote == t.target;
    VolumeIsDaily(t, t.base);
    VolumeIsDaily(t, t.target);
    hide MarketVolume, MatchTicker, IsDailyVolume;
    OneTurnoverADay(Flow(p, ts).value, Flow(Mirrored(p), ts).value, t);
    SignKept(Flow(p, ts).value, t.lastPrice);
  }

  lemma OneTurnoverADay(there: real, back: real, t: Ticker)
    requires IsDailyVolume(t, t.base, there) && IsDailyVolume(t, t.target, back) && OneTurnover(t)
    ensures back == there * t.lastPrice
  {
    assert 7.0 * (there * t.lastPrice) == (7.0 * there) * t.lastPrice;
  }

  lemma SignKept(x: real, k: real)
    requires k > 0.0
    ensures x > 0.0 <==> x * k > 0.0
  {
    if x > 0.0 {
      MulPositive(x, k);
    } else {
      MulMonotone(x, 0.0, k);
    }
  }

  /** And the prices of the two ways round cancel. */
  lemma MirroredPricesCancel(t: Ticker, a: real, b: real)
    requires t.base != t.target && IsPrice(t, t.base, a) && IsPrice(t, t.target, b)
    ensures a * b == 1.0
  {
  }
}
