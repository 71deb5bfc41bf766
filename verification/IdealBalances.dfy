/** The holdings cap of the sizing turned around: how much of each asset the ideal ladders ask for
    (scripts/offer_sizing.py:386-476, 510-560), and when holding it really yields the ideal sizes. */
module IdealBalances {
  import opened Wrappers
  import opened RealFacts
  import opened OfferSizing

  // ---------------------------------------------------------------- prices

  /** XCH per unit: the last ticker against XCH wins. */
  function XchPerUnit(ts: seq<Ticker>): Units {
    if |ts| == 0 then map[]
    else
      var rest, t := XchPerUnit(ts[..|ts| - 1]), ts[|ts| - 1];
      if t.target == Xch && t.base != "" && t.lastPrice > 0.0 then rest[t.base := t.lastPrice] else rest
  }

  lemma {:induction false} XchPricesArePositive(ts: seq<Ticker>)
    ensures forall a :: a in XchPerUnit(ts) ==> XchPerUnit(ts)[a] > 0.0
  {
    if |ts| > 0 {
      XchPricesArePositive(ts[..|ts| - 1]);
    }
  }

  function UsdOf(perUnit: Units, a: string): real
    requires Usdc in perUnit && perUnit[Usdc] != 0.0 && (a in perUnit || a == Xch)
  {
    if a == Xch then 1.0 / perUnit[Usdc]
    else if a == Usdc then 1.0
    else perUnit[a] * (1.0 / perUnit[Usdc])
  }

  /** None where the source raises: no dollar anchor. */
  function Usd(ts: seq<Ticker>): Option<Units> {
    var perUnit := XchPerUnit(ts);
    XchPricesArePositive(ts);
    if Usdc !in perUnit then None
    else Some(map a | a in perUnit.Keys + {Xch} :: UsdOf(perUnit, a))
  }

  /** _usd_prices. */
  method UsdPrices(ts: seq<Ticker>) returns (r: Option<Units>)
    ensures r == Usd(ts)
  {
    var perUnit: Units := map[];
    for i := 0 to |ts|
      invariant perUnit == XchPerUnit(ts[..i])
    {
      assert ts[..i + 1][..i] == ts[..i];
      var t := ts[i];
      if t.target == Xch && t.base != "" && t.lastPrice > 0.0 {
        perUnit := perUnit[t.base := t.lastPrice];
      }
    }
    assert ts[..|ts|] == ts;
    XchPricesArePositive(ts);
    if Usdc !in perUnit {
      return None;
    }
    var prices := CrossAll(perUnit);
    r := Some(prices);
  }

  /** The dollar anchor first; every other asset crosses through XCH. */
  method CrossAll(perUnit: Units) returns (prices: Units)
    requires Usdc in perUnit && perUnit[Usdc] != 0.0
    ensures prices == map a | a in perUnit.Keys + {Xch} :: UsdOf(perUnit, a)
  {
    var xchUsd := 1.0 / perUnit[Usdc];
    prices := map[Xch := xchUsd, Usdc := 1.0];
    var todo := perUnit.Keys;
    while todo != {}
      invariant todo <= perUnit.Keys
      invariant prices.Keys == (perUnit.Keys - todo) + {Xch, Usdc}
      invariant forall a :: a in prices ==> prices[a] == UsdOf(perUnit, a)
    {
      var a :| a in todo;
      if a !in prices {
        prices := prices[a := perUnit[a] * xchUsd];
      }
      todo := todo - {a};
    }
  }

  lemma UsdIsPositive(ts: seq<Ticker>)
    requires Usd(ts).Some?
    ensures forall a :: a in Usd(ts).value ==> Usd(ts).value[a] > 0.0
  {
    var perUnit := XchPerUnit(ts);
    XchPricesArePositive(ts);
    DivCancel(1.0, perUnit[Usdc]);
    forall a | a in Usd(ts).value
      ensures Usd(ts).value[a] > 0.0
    {
      if a in perUnit {
        MulPositive(perUnit[a], 1.0 / perUnit[Usdc]);
      }
    }
  }

  // ---------------------------------------------------------------- what the ladders lock

  function Get(m: Units, a: string): real {
    if a in m then m[a] else 0.0
  }

  function Plus(m: Units, a: string, x: real): Units {
    m[a := Get(m, a) + x]
  }

  /** Quote units for one base unit. */
  function Cross(usd: Units, base: string, quote: string): real
    requires base in usd && quote in usd && usd[quote] != 0.0
  {
    usd[base] / usd[quote]
  }

  function Converted(ladder: real, cross: real): real {
    ladder * cross
  }

  /** Every pair with a ladder has both prices. */
  predicate Priced(results: seq<Sizing>, usd: Units, ladders: Units) {
    forall r :: r in results && r.name in ladders ==> r.base in usd && r.quote in usd && usd[r.quote] != 0.0
  }

  predicate PricedPair(r: Sizing, usd: Units, ladders: Units) {
    r.name in ladders ==> r.base in usd && r.quote in usd && usd[r.quote] != 0.0
  }

  function LockedBy(r: Sizing, usd: Units, ladders: Units, a: string): real
    requires PricedPair(r, usd, ladders)
  {
    if r.name !in ladders then 0.0
    else
      (if r.base == a then ladders[r.name] else 0.0)
      + if r.quote == a then Converted(ladders[r.name], Cross(usd, r.base, r.quote)) else 0.0
  }

  /** What all ladders together lock of an asset. */
  function Locked(results: seq<Sizing>, usd: Units, ladders: Units, a: string): real
    requires Priced(results, usd, ladders)
  {
    if |results| == 0 then 0.0
    else Locked(results[..|results| - 1], usd, ladders, a) + LockedBy(results[|results| - 1], usd, ladders, a)
  }

  function Touched(results: seq<Sizing>, ladders: Units): set<string> {
    (set r | r in results && r.name in ladders :: r.base) + (set r | r in results && r.name in ladders :: r.quote)
  }

  function Deployed(results: seq<Sizing>, usd: Units, ladders: Units): Units
    requires Priced(results, usd, ladders)
  {
    map a | a in Touched(results, ladders) :: Locked(results, usd, ladders, a)
  }

  function Required(results: seq<Sizing>, usd: Units, ladders: Units): Units
    requires Priced(results, usd, ladders)
  {
    map a | a in Touched(results, ladders) :: Locked(results, usd, ladders, a) / CapFrac
  }

  lemma TouchedSnoc(results: seq<Sizing>, r: Sizing, ladders: Units)
    ensures Touched(results + [r], ladders)
         == Touched(results, ladders) + if r.name in ladders then {r.base, r.quote} else {}
  {
  }

  lemma LockedSnoc(results: seq<Sizing>, r: Sizing, usd: Units, ladders: Units, a: string)
    requires Priced(results + [r], usd, ladders)
    ensures Priced(results, usd, ladders) && PricedPair(r, usd, ladders)
    ensures Locked(results + [r], usd, ladders, a) == Locked(results, usd, ladders, a) + LockedBy(r, usd, ladders, a)
  {
    assert r in results + [r];
    assert forall x :: x in results ==> x in results + [r];
    assert (results + [r])[..|results|] == results;
  }

  /** _requirements_from_ladders: sums over the pairs, each ladder locking its base and its quote. */
  method RequirementsFromLadders(results: seq<Sizing>, usd: Units, ladders: Units)
      returns (required: Units, deployed: Units)
    requires Priced(results, usd, ladders)
    ensures required == Required(results, usd, ladders) && deployed == Deployed(results, usd, ladders)
  {
    hide Locked, LockedBy, Touched, Converted, Cross;
    required, deployed := map[], map[];
    NothingLocked(usd, ladders);
    for i := 0 to |results|
      invariant Priced(results[..i], usd, ladders)
      invariant required == Required(results[..i], usd, ladders)
      invariant deployed == Deployed(results[..i], usd, ladders)
    {
      var r := results[i];
      ghost var before := results[..i];
      assert results[..i + 1] == before + [r];
      required, deployed := AddLadder(before, r, usd, ladders, required, deployed);
    }
    assert results[..|results|] == results;
  }

  lemma NothingLocked(usd: Units, ladders: Units)
    ensures Touched([], ladders) == {}
  {
  }

  method AddLadder(ghost before: seq<Sizing>, r: Sizing, usd: Units, ladders: Units, req: Units, dep: Units)
      returns (required: Units, deployed: Units)
    requires Priced(before + [r], usd, ladders) && Priced(before, usd, ladders)
    requires req == Required(before, usd, ladders) && dep == Deployed(before, usd, ladders)
    ensures required == Required(before + [r], usd, ladders) && deployed == Deployed(before + [r], usd, ladders)
  {
    TotalsSnoc(before, r, usd, ladders);
    assert r in before + [r];
    hide Deployed, Required, Converted, Cross, Priced;
    required, deployed := req, dep;
    if r.name in ladders {
      var ladder := ladders[r.name];
      var quoted := Converted(ladder, Cross(usd, r.base, r.quote));
      required := Plus(Plus(required, r.base, ladder / CapFrac), r.quote, quoted / CapFrac);
      deployed := Plus(Plus(deployed, r.base, ladder), r.quote, quoted);
    }
  }

  /** One more ladder adds its base and its quote side, and what backs them. */
  lemma TotalsSnoc(before: seq<Sizing>, r: Sizing, usd: Units, ladders: Units)
    requires Priced(before + [r], usd, ladders)
    ensures PricedPair(r, usd, ladders) && Priced(before, usd, ladders)
    ensures var dep, req := Deployed(before, usd, ladders), Required(before, usd, ladders);
            var dep', req' := Deployed(before + [r], usd, ladders), Required(before + [r], usd, ladders);
            if r.name !in ladders then dep' == dep && req' == req
            else
              var ladder := ladders[r.name];
              var quoted := Converted(ladder, Cross(usd, r.base, r.quote));
              && dep' == Plus(Plus(dep, r.base, ladder), r.quote, quoted)
              && req' == Plus(Plus(req, r.base, ladder / CapFrac), r.quote, quoted / CapFrac)
  {
    assert r in before + [r];
    assert forall x :: x in before ==> x in before + [r];
    DeployedSnoc(before, r, usd, ladders);
    RequiredIsDeployed(before, usd, ladders);
    RequiredIsDeployed(before + [r], usd, ladders);
    var dep, req := Deployed(before, usd, ladders), Required(before, usd, ladders);
    var dep', req' := Deployed(before + [r], usd, ladders), Required(before + [r], usd, ladders);
    hide Deployed, Required, Priced, Converted, Cross, Plus;
    if r.name in ladders {
      var ladder := ladders[r.name];
      var quoted := Converted(ladder, Cross(usd, r.base, r.quote));
      TwoSidesBacked(dep, req, r.base, ladder, r.quote, quoted, dep', req');
    } else {
      assert req' == req;
    }
  }

  lemma RequiredIsDeployed(results: seq<Sizing>, usd: Units, ladders: Units)
    requires Priced(results, usd, ladders)
    ensures Required(results, usd, ladders).Keys == Deployed(results, usd, ladders).Keys
    ensures forall a :: a in Deployed(results, usd, ladders) ==>
              Required(results, usd, ladders)[a] == Deployed(results, usd, ladders)[a] / CapFrac
  {
  }

  lemma DeployedSnoc(before: seq<Sizing>, r: Sizing, usd: Units, ladders: Units)
    requires Priced(before + [r], usd, ladders) && Priced(before, usd, ladders) && PricedPair(r, usd, ladders)
    ensures var dep, dep' := Deployed(before, usd, ladders), Deployed(before + [r], usd, ladders);
            if r.name !in ladders then dep' == dep
            else dep' == Plus(Plus(dep, r.base, ladders[r.name]),
                              r.quote, Converted(ladders[r.name], Cross(usd, r.base, r.quote)))
  {
    var dep, dep' := Deployed(before, usd, ladders), Deployed(before + [r], usd, ladders);
    TouchedSnoc(before, r, ladders);
    forall a
      ensures Locked(before + [r], usd, ladders, a) == Get(dep, a) + LockedBy(r, usd, ladders, a)
    {
      LockedSnoc(before, r, usd, ladders, a);
      if a !in Touched(before, ladders) {
        UntouchedIsFree(before, usd, ladders, a);
      }
      hide Locked, Touched, LockedBy;
    }
    hide Locked, Touched, Priced, Converted, Cross;
    if r.name in ladders {
      TwoSides(dep, dep', r.base, ladders[r.name], r.quote, Converted(ladders[r.name], Cross(usd, r.base, r.quote)));
    } else {
      assert dep' == dep;
    }
  }

  lemma TwoSidesBacked(dep: Units, req: Units, a: string, x: real, b: string, y: real, dep': Units, req': Units)
    requires req.Keys == dep.Keys && forall k :: k in dep ==> req[k] == dep[k] / CapFrac
    requires req'.Keys == dep'.Keys && forall k :: k in dep' ==> req'[k] == dep'[k] / CapFrac
    requires dep' == Plus(Plus(dep, a, x), b, y)
    ensures req' == Plus(Plus(req, a, x / CapFrac), b, y / CapFrac)
  {
    var u, v := x / CapFrac, y / CapFrac;
    TwoSides(req, req', a, u, b, v);
  }

  lemma TwoSides(m: Units, m': Units, a: string, x: real, b: string, y: real)
    requires m'.Keys == m.Keys + {a, b}
    requires forall k :: k in m' ==> m'[k] == Get(m, k) + (if k == a then x else 0.0) + if k == b then y else 0.0
    ensures m' == Plus(Plus(m, a, x), b, y)
  {
  }

  lemma {:induction false} UntouchedIsFree(results: seq<Sizing>, usd: Units, ladders: Units, a: string)
    requires Priced(results, usd, ladders) && a !in Touched(results, ladders)
    ensures Locked(results, usd, ladders, a) == 0.0
  {
    if |results| > 0 {
      var before, r := results[..|results| - 1], results[|results| - 1];
      assert results == before + [r];
      TouchedSnoc(before, r, ladders);
      UntouchedIsFree(before, usd, ladders, a);
    }
  }

  // ---------------------------------------------------------------- reserves

  function Liquid(deployed: real, liquidFloor: real): real
    requires liquidFloor < 1.0
  {
    deployed / (1.0 - liquidFloor)
  }

  /** Does the liquid floor ask for more of this asset than its ladders do? */
  predicate FloorBinds(required: Units, deployed: Units, liquidFloor: real, a: string) {
    liquidFloor < 1.0 && a in deployed && Liquid(deployed[a], liquidFloor) > Get(required, a)
  }

  function Backing(required: Units, deployed: Units, liquidFloor: real, a: string): real {
    if FloorBinds(required, deployed, liquidFloor, a) then Liquid(deployed[a], liquidFloor) else Get(required, a)
  }

  function Backings(required: Units, deployed: Units, liquidFloor: real): Units {
    map a | a in required.Keys + (set d | d in deployed && FloorBinds(required, deployed, liquidFloor, d))
      :: Backing(required, deployed, liquidFloor, a)
  }

  function Reserved(required: Units, deployed: Units, fee: real, liquidFloor: real): Units {
    Plus(Backings(required, deployed, liquidFloor), Xch, fee)
  }

  /** _apply_reserves. */
  method ApplyReserves(required: Units, deployed: Units, fee: real, liquidFloor: real) returns (ideal: Units)
    ensures ideal == Reserved(required, deployed, fee, liquidFloor)
  {
    ideal := required;
    if liquidFloor < 1.0 {
      var todo := deployed.Keys;
      while todo != {}
        invariant todo <= deployed.Keys
        invariant ideal.Keys == required.Keys
                  + (set d | d in deployed && d !in todo && FloorBinds(required, deployed, liquidFloor, d))
        invariant forall a :: a in ideal ==>
                    ideal[a] == if a in todo then Get(required, a) else Backing(required, deployed, liquidFloor, a)
      {
        var a :| a in todo;
        var floorReq := Liquid(deployed[a], liquidFloor);
        if floorReq > Get(ideal, a) {
          ideal := ideal[a := floorReq];
        }
        todo := todo - {a};
        hide Liquid;
      }
    }
    assert ideal == Backings(required, deployed, liquidFloor);
    ideal := Plus(ideal, Xch, fee);
  }

  /** With every ladder 40 % of what backs it, the liquid floor matters exactly above 60 %. */
  lemma LiquidFloorBindsIff(results: seq<Sizing>, usd: Units, ladders: Units, liquidFloor: real, a: string)
    requires Priced(results, usd, ladders) && liquidFloor < 1.0
    requires a in Touched(results, ladders) && Locked(results, usd, ladders, a) > 0.0
    ensures FloorBinds(Required(results, usd, ladders), Deployed(results, usd, ladders), liquidFloor, a)
       <==> liquidFloor > 0.6
  {
    hide Locked, Touched, Priced;
    var dep := Locked(results, usd, ladders, a);
    LiquidIs(dep, liquidFloor);
    hide Liquid;
    LiquidCompare(dep, 1.0 - liquidFloor, Liquid(dep, liquidFloor), dep / 0.4);
  }

  lemma LiquidIs(dep: real, liquidFloor: real)
    requires liquidFloor < 1.0
    ensures Liquid(dep, liquidFloor) * (1.0 - liquidFloor) == dep
  {
    DivCancel(dep, 1.0 - liquidFloor);
  }

  lemma LiquidCompare(dep: real, left: real, need: real, backing: real)
    requires dep > 0.0 && left > 0.0 && need * left == dep && backing * 0.4 == dep
    ensures need > backing <==> left < 0.4
  {
    ProductOrder(backing, left, 0.4);
    assert backing * left < dep <==> left < 0.4;
    ProductOrder(left, backing, need);
    assert left * need == dep;
    assert left * backing < dep <==> backing < need;
    assert left * backing == backing * left;
  }

  lemma ProductOrder(k: real, a: real, b: real)
    requires k > 0.0
    ensures k * a < k * b <==> a < b
  {
    assert k * b - k * a == k * (b - a);
    if a < b {
      MulPositive(k, b - a);
    } else {
      MulMonotone(b, a, k);
    }
  }

  // ---------------------------------------------------------------- the inversion

  predicate Sized(r: Sizing) {
    r.fillsDiv >= 1.0 && r.mult > 0.0 && r.floor >= 0.0
  }

  /** The loop of _ideal_requirements: pairs without a price cross are left out. */
  function IdealLadders(results: seq<Sizing>, usd: Units, target: real, params: Params): Units
    requires forall r :: r in results ==> Sized(r)
  {
    if |results| == 0 then map[]
    else
      var rest, r := IdealLadders(results[..|results| - 1], usd, target, params), results[|results| - 1];
      if r.base in usd && r.quote in usd then rest[r.name := Ladder(r, target, params)] else rest
  }

  /** A ladder of ideal size, in base units. */
  function Ladder(r: Sizing, target: real, params: Params): real
    requires Sized(r)
  {
    IdealTier0(r, target, params) * r.mult
  }

  lemma LadderIsNonNegative(r: Sizing, target: real, params: Params)
    requires Sized(r)
    ensures Ladder(r, target, params) >= 0.0
  {
    hide FlowSize;
    MulMonotone(0.0, IdealTier0(r, target, params), r.mult);
  }

  predicate DistinctNames(results: seq<Sizing>) {
    forall i, j :: 0 <= i < j < |results| ==> results[i].name != results[j].name
  }

  ghost predicate GoodPrices(usd: Units) {
    forall a :: a in usd ==> usd[a] > 0.0
  }

  lemma {:induction false} LaddersAreIdeal(results: seq<Sizing>, usd: Units, target: real, params: Params)
    requires forall r :: r in results ==> Sized(r)
    requires DistinctNames(results) && GoodPrices(usd)
    ensures var ladders := IdealLadders(results, usd, target, params);
            && Priced(results, usd, ladders)
            && (forall n :: n in ladders ==> exists r :: r in results && r.name == n)
            && (forall r :: r in results ==>
                  (r.name in ladders <==> r.base in usd && r.quote in usd)
                  && (r.name in ladders ==> ladders[r.name] == Ladder(r, target, params)))
  {
    hide Ladder;
    if |results| > 0 {
      var before, last := results[..|results| - 1], results[|results| - 1];
      assert results == before + [last];
      LaddersAreIdeal(before, usd, target, params);
      assert forall r :: r in before ==> r.name != last.name;
    }
  }

  lemma ConvertedIsNonNegative(usd: Units, base: string, quote: string, ladder: real)
    requires GoodPrices(usd) && base in usd && quote in usd && ladder >= 0.0
    ensures Converted(ladder, Cross(usd, base, quote)) >= 0.0
  {
    DivCancel(usd[base], usd[quote]);
    assert Cross(usd, base, quote) > 0.0;
    MulMonotone(0.0, ladder, Cross(usd, base, quote));
  }

  lemma LockedByIsNonNegative(r: Sizing, usd: Units, ladders: Units, a: string)
    requires PricedPair(r, usd, ladders) && GoodPrices(usd)
    requires r.name in ladders ==> ladders[r.name] >= 0.0
    ensures LockedBy(r, usd, ladders, a) >= 0.0
  {
    if r.name in ladders {
      ConvertedIsNonNegative(usd, r.base, r.quote, ladders[r.name]);
    }
    hide Converted, Cross;
  }

  /** All ladders post at once: the sum backs each of them. */
  lemma {:induction false} SumBacksEach(results: seq<Sizing>, r: Sizing, usd: Units, ladders: Units, a: string)
    requires Priced(results, usd, ladders) && GoodPrices(usd) && r in results
    requires forall n :: n in ladders ==> ladders[n] >= 0.0
    ensures PricedPair(r, usd, ladders)
    ensures 0.0 <= LockedBy(r, usd, ladders, a) <= Locked(results, usd, ladders, a)
  {
    hide LockedBy;
    var before, last := results[..|results| - 1], results[|results| - 1];
    assert results == before + [last];
    LockedByIsNonNegative(r, usd, ladders, a);
    LockedByIsNonNegative(last, usd, ladders, a);
    if r in before {
      SumBacksEach(before, r, usd, ladders, a);
    } else {
      LockedIsNonNegative(before, usd, ladders, a);
    }
  }

  lemma {:induction false} LockedIsNonNegative(results: seq<Sizing>, usd: Units, ladders: Units, a: string)
    requires Priced(results, usd, ladders) && GoodPrices(usd)
    requires forall n :: n in ladders ==> ladders[n] >= 0.0
    ensures Locked(results, usd, ladders, a) >= 0.0
  {
    hide LockedBy;
    if |results| > 0 {
      LockedIsNonNegative(results[..|results| - 1], usd, ladders, a);
      LockedByIsNonNegative(results[|results| - 1], usd, ladders, a);
    }
  }

  predicate WellFormed(p: Pair) {
    HasTiers(p) && Mult(p) > 0.0 && p.floor >= 0.0
  }

  function Sizings(pairs: seq<Pair>, ts: seq<Ticker>, held: Units, params: Params): (rs: seq<Sizing>)
    requires forall i :: 0 <= i < |pairs| ==> WellFormed(pairs[i])
    ensures |rs| == |pairs| && forall r :: r in rs ==> Sized(r)
    ensures forall i :: 0 <= i < |rs| ==> WellFormed(pairs[i]) && rs[i] == Recommendation(pairs[i], ts, held, params)
  {
    if |pairs| == 0 then []
    else
      var last := pairs[|pairs| - 1];
      assert WellFormed(last);
      RecommendationSays(last, ts, held, params);
      Sizings(pairs[..|pairs| - 1], ts, held, params) + [Recommendation(last, ts, held, params)]
  }

  /** What to hold for the ideal ladders, reserves included. */
  function IdealHoldings(results: seq<Sizing>, usd: Units, params: Params, fee: real): Units
    requires forall r :: r in results ==> Sized(r)
    requires Priced(results, usd, IdealLadders(results, usd, params.target, params))
  {
    var ladders := IdealLadders(results, usd, params.target, params);
    Reserved(Required(results, usd, ladders), Deployed(results, usd, ladders), fee, params.liquidFloor)
  }

  /** The ticker's own price of a pair is the one its dollar prices imply. */
  predicate PricesAgree(p: Pair, ts: seq<Ticker>, usd: Units) {
    && p.base in usd && p.quote in usd && usd[p.quote] != 0.0
    && match MatchTicker(ts, p.base, p.quote)
       case None => true
       case Some(t) => PriceInBase(t, p.base).Some?
                       ==> Converted(PriceInBase(t, p.base).value, Cross(usd, p.base, p.quote)) == 1.0
  }

  /** Some ticker quotes this asset in XCH, and no other one lists the two. */
  predicate UniqueTicker(ts: seq<Ticker>, i: nat, asset: string) {
    && i < |ts| && ts[i].base == asset && ts[i].target == Xch && ts[i].lastPrice > 0.0
    && forall j :: 0 <= j < |ts| && j != i ==> !Lists(ts[j], Xch, asset)
  }

  lemma {:induction false} UniqueIsMatched(ts: seq<Ticker>, i: nat, asset: string)
    requires UniqueTicker(ts, i, asset)
    ensures MatchTicker(ts, Xch, asset) == Some(ts[i])
  {
    if i > 0 {
      assert forall j :: 0 <= j < |ts[1..]| ==> ts[1..][j] == ts[j + 1];
      UniqueIsMatched(ts[1..], i - 1, asset);
    }
  }

  lemma {:induction false} UniqueSetsPrice(ts: seq<Ticker>, i: nat, asset: string)
    requires UniqueTicker(ts, i, asset) && asset != ""
    ensures asset in XchPerUnit(ts) && XchPerUnit(ts)[asset] == ts[i].lastPrice
  {
    var n := |ts| - 1;
    if i < n {
      assert forall j :: 0 <= j < n ==> ts[..n][j] == ts[j];
      UniqueSetsPrice(ts[..n], i, asset);
      assert !Lists(ts[n], Xch, asset);
    }
  }

  /** A pair against XCH whose other asset has one ticker is priced alike by both. */
  lemma UniqueTickerAgrees(p: Pair, ts: seq<Ticker>, i: nat)
    requires p.base == Xch && p.quote != Xch && p.quote != ""
    requires UniqueTicker(ts, i, p.quote) && Usd(ts).Some?
    ensures PricesAgree(p, ts, Usd(ts).value)
  {
    hide XchPerUnit, MatchTicker;
    UniqueIsMatched(ts, i, p.quote);
    UniqueSetsPrice(ts, i, p.quote);
    UsdIsPositive(ts);
    XchPricesArePositive(ts);
    var perUnit, usd := XchPerUnit(ts), Usd(ts).value;
    var last, anchor := ts[i].lastPrice, perUnit[Usdc];
    assert PriceInBase(ts[i], p.base) == Some(last);
    assert usd[p.base] == 1.0 / anchor;
    DivCancel(1.0, anchor);
    var x := 1.0 / anchor;
    assert x > 0.0 && usd[p.base] == x;
    assert usd[p.quote] == last * x;
    hide PriceInBase, UsdOf, Usd, Converted, Cross, UniqueTicker;
    CrossCancels(usd, p.base, p.quote, x, last);
  }

  lemma CrossCancels(usd: Units, base: string, quote: string, x: real, last: real)
    requires x > 0.0 && last > 0.0 && base in usd && quote in usd && usd[base] == x && usd[quote] == last * x
    ensures usd[quote] != 0.0 && Converted(last, Cross(usd, base, quote)) == 1.0
  {
    MulPositive(last, x);
    RatioCancels(x, last);
  }

  lemma RatioCancels(x: real, last: real)
    requires x > 0.0 && last > 0.0
    ensures last * x != 0.0 && last * (x / (last * x)) == 1.0
  {
    MulPositive(last, x);
    var cross := x / (last * x);
    DivCancel(x, last * x);
    assert (last * cross - 1.0) * x == 0.0;
  }

  // ---------------------------------------------------------------- funding

  lemma ReservesOnlyAdd(required: Units, deployed: Units, fee: real, liquidFloor: real, a: string)
    requires a in required && fee >= 0.0
    ensures a in Reserved(required, deployed, fee, liquidFloor)
    ensures Reserved(required, deployed, fee, liquidFloor)[a] >= required[a]
  {
    hide Liquid;
  }

  /** The ideal holdings back both sides of every ladder at once. */
  lemma IdealHoldingsFund(results: seq<Sizing>, r: Sizing, usd: Units, params: Params, fee: real)
    requires forall x :: x in results ==> Sized(x)
    requires DistinctNames(results) && GoodPrices(usd) && fee >= 0.0
    requires r in results && r.base in usd && r.quote in usd
    ensures Priced(results, usd, IdealLadders(results, usd, params.target, params))
    ensures var held, ladder := IdealHoldings(results, usd, params, fee), Ladder(r, params.target, params);
            && r.base in held && CapFrac * held[r.base] >= ladder
            && r.quote in held && CapFrac * held[r.quote] >= Converted(ladder, Cross(usd, r.base, r.quote))
  {
    LaddersAreIdeal(results, usd, params.target, params);
    var ladders := IdealLadders(results, usd, params.target, params);
    var required, deployed := Required(results, usd, ladders), Deployed(results, usd, ladders);
    LaddersAreNonNegative(results, usd, params.target, params);
    hide Ladder, IdealLadders;
    SumBacksEach(results, r, usd, ladders, r.base);
    SumBacksEach(results, r, usd, ladders, r.quote);
    ConvertedIsNonNegative(usd, r.base, r.quote, ladders[r.name]);
    hide Converted, Cross, Locked, GoodPrices, Priced;
    assert r.base in required && r.quote in required;
    ReservesOnlyAdd(required, deployed, fee, params.liquidFloor, r.base);
    ReservesOnlyAdd(required, deployed, fee, params.liquidFloor, r.quote);
    hide Reserved;
  }

  lemma ConvertedCancels(ladder: real, cross: real, price: real, units: real)
    requires price > 0.0 && Converted(price, cross) == 1.0
    ensures units >= Converted(ladder, cross) ==> units * price >= ladder
    ensures units == Converted(ladder, cross) ==> units * price == ladder
  {
    assert (ladder * cross) * price == ladder * (price * cross);
    if units >= ladder * cross {
      MulMonotone(ladder * cross, units, price);
    }
  }

  lemma PriceIsPositive(t: Ticker, base: string)
    ensures PriceInBase(t, base).Some? ==> PriceInBase(t, base).value > 0.0
  {
    if t.lastPrice > 0.0 {
      DivCancel(1.0, t.lastPrice);
    }
  }

  lemma PerTierCovers(size: real, mult: real, cap: real, ladder: real)
    requires mult > 0.0 && ladder == size * mult && cap >= ladder
    ensures PerTier(cap, mult) >= size
  {
    DivCancel(cap, mult);
    DivBounds(cap, mult, size, PerTier(cap, mult));
  }

  /** Holdings that back a ladder of this size on both sides cap the pair no lower. */
  lemma BackedCapCovers(p: Pair, ts: seq<Ticker>, t: Ticker, held: Units, usd: Units, size: real, ladder: real)
    requires WellFormed(p) && PricesAgree(p, ts, usd) && MatchTicker(ts, p.base, p.quote) == Some(t)
    requires ladder == size * Mult(p) && p.base in held && CapFrac * held[p.base] >= ladder
    requires p.quote in held && CapFrac * held[p.quote] >= Converted(ladder, Cross(usd, p.base, p.quote))
    ensures HoldingsSize(p, t, held).Some? && HoldingsSize(p, t, held).value >= size
  {
    hide PricesAgree, Mult, Cross, Converted;
    QuoteSideCovers(p, ts, t, held, usd, ladder);
    assert SideCap(p, t, held, BaseSide).value >= ladder;
    hide SideCap;
    PerTierCovers(size, Mult(p), SideCap(p, t, held, Tighter(p, t, held).value).value, ladder);
  }

  lemma QuoteSideCovers(p: Pair, ts: seq<Ticker>, t: Ticker, held: Units, usd: Units, ladder: real)
    requires PricesAgree(p, ts, usd) && MatchTicker(ts, p.base, p.quote) == Some(t)
    requires p.quote in held && CapFrac * held[p.quote] >= Converted(ladder, Cross(usd, p.base, p.quote))
    ensures var cap := SideCap(p, t, held, QuoteSide);
            cap.Some? ==> cap.value >= ladder
  {
    hide Cross, MatchTicker, Converted;
    PriceIsPositive(t, p.base);
    var price := PriceInBase(t, p.base);
    hide PriceInBase;
    if price.Some? {
      ConvertedCancels(ladder, Cross(usd, p.base, p.quote), price.value, CapFrac * held[p.quote]);
    }
  }

  // ---------------------------------------------------------------- the inversion

  /** The ideal holdings do not cap a pair whose prices agree below its ideal size. */
  lemma IdealCapCovers(results: seq<Sizing>, p: Pair, ts: seq<Ticker>, now: Units, usd: Units,
                       params: Params, fee: real)
    requires WellFormed(p) && Recommendation(p, ts, now, params) in results && fee >= 0.0
    requires (forall x :: x in results ==> Sized(x)) && DistinctNames(results) && GoodPrices(usd)
    requires PricesAgree(p, ts, usd) && HasMarket(p, ts)
    ensures Priced(results, usd, IdealLadders(results, usd, params.target, params))
    ensures var cap := CapOf(p, ts, IdealHoldings(results, usd, params, fee));
            cap.Some? && cap.value >= IdealTier0(Recommendation(p, ts, now, params), params.target, params)
  {
    hide *;
    WellFormedMeans(p);
    var r0 := Recommendation(p, ts, now, params);
    RecommendationSays(p, ts, now, params);
    LadderIs(p, r0, params);
    PairIsPriced(p, ts, usd);
    IdealHoldingsFund(results, r0, usd, params, fee);
    var held := IdealHoldings(results, usd, params, fee);
    CapIs(p, ts, held);
    BackedCapCovers(p, ts, MatchTicker(ts, p.base, p.quote).value, held, usd, IdealTier0(r0, params.target, params),
                    Ladder(r0, params.target, params));
  }

  lemma LadderIs(p: Pair, r: Sizing, params: Params)
    requires WellFormed(p) && r.mult == Mult(p) && r.fillsDiv == FillsDiv(p) && r.floor == p.floor
    ensures r.fillsDiv >= 1.0 && r.mult > 0.0
    ensures Sized(r) && Ladder(r, params.target, params) == IdealTier0(r, params.target, params) * Mult(p)
  {
    hide Mult, FillsDiv, IdealTier0;
  }

  lemma PairIsPriced(p: Pair, ts: seq<Ticker>, usd: Units)
    requires PricesAgree(p, ts, usd)
    ensures p.base in usd && p.quote in usd
  {
    hide Converted, Cross, MatchTicker, PriceInBase;
  }

  lemma CapIs(p: Pair, ts: seq<Ticker>, held: Units)
    requires HasTiers(p) && HasMarket(p, ts)
    ensures MatchTicker(ts, p.base, p.quote).Some?
    ensures CapOf(p, ts, held) == HoldingsSize(p, MatchTicker(ts, p.base, p.quote).value, held)
  {
    hide HoldingsSize, MatchTicker, MarketVolume;
  }

  /** Holding the ideal balances, every pair whose prices agree is recommended at least its ideal size less
      one more haircut, at most its ideal size, and exactly that when its spread asks for no haircut. The
      pairs are sized first with whatever is held now. */
  lemma IdealHoldingsInvertTheCap(pairs: seq<Pair>, i: nat, ts: seq<Ticker>, now: Units, usd: Units,
                                  params: Params, fee: real)
    requires i < |pairs| && (forall k :: 0 <= k < |pairs| ==> WellFormed(pairs[k]))
    requires params.target >= 0.0 && fee >= 0.0
    requires DistinctNames(Sizings(pairs, ts, now, params)) && GoodPrices(usd)
    requires PricesAgree(pairs[i], ts, usd)
    ensures var results := Sizings(pairs, ts, now, params);
            Priced(results, usd, IdealLadders(results, usd, params.target, params))
    ensures var results := Sizings(pairs, ts, now, params);
            var ideal := IdealTier0(results[i], params.target, params);
            var r := Recommendation(pairs[i], ts, IdealHoldings(results, usd, params, fee), params);
            && Finished(ideal, r.haircut, pairs[i].floor) <= r.tier0 <= ideal
            && (r.haircut == 1.0 ==> r.tier0 == ideal)
  {
    var results := Sizings(pairs, ts, now, params);
    assert WellFormed(pairs[i]);
    assert results[i] == Recommendation(pairs[i], ts, now, params);
    LaddersAreIdeal(results, usd, params.target, params);
    hide Sizings, DistinctNames, GoodPrices, IdealLadders, PricesAgree, Recommendation;
    InvertOne(results, pairs[i], ts, now, usd, params, fee);
  }

  /** In particular every XCH pair whose other asset has one ticker, with the dollar prices of the tickers. */
  lemma XchPairsAreInverted(pairs: seq<Pair>, i: nat, ts: seq<Ticker>, j: nat, now: Units,
                            params: Params, fee: real)
    requires i < |pairs| && (forall k :: 0 <= k < |pairs| ==> WellFormed(pairs[k]))
    requires params.target >= 0.0 && fee >= 0.0 && DistinctNames(Sizings(pairs, ts, now, params))
    requires pairs[i].base == Xch && pairs[i].quote != Xch && pairs[i].quote != ""
    requires UniqueTicker(ts, j, pairs[i].quote) && Usd(ts).Some?
    ensures var results, usd := Sizings(pairs, ts, now, params), Usd(ts).value;
            Priced(results, usd, IdealLadders(results, usd, params.target, params))
    ensures var results, usd := Sizings(pairs, ts, now, params), Usd(ts).value;
            var ideal := IdealTier0(results[i], params.target, params);
            var r := Recommendation(pairs[i], ts, IdealHoldings(results, usd, params, fee), params);
            && Finished(ideal, r.haircut, pairs[i].floor) <= r.tier0 <= ideal
            && (r.haircut == 1.0 ==> r.tier0 == ideal)
  {
    hide *;
    UsdIsGood(ts);
    UniqueTickerAgrees(pairs[i], ts, j);
    IdealHoldingsInvertTheCap(pairs, i, ts, now, Usd(ts).value, params, fee);
  }

  lemma InvertOne(results: seq<Sizing>, p: Pair, ts: seq<Ticker>, now: Units, usd: Units, params: Params, fee: real)
    requires WellFormed(p) && Recommendation(p, ts, now, params) in results
    requires (forall x :: x in results ==> Sized(x)) && DistinctNames(results) && GoodPrices(usd)
    requires Priced(results, usd, IdealLadders(results, usd, params.target, params))
    requires PricesAgree(p, ts, usd) && fee >= 0.0 && params.target >= 0.0
    ensures var ideal := IdealTier0(Recommendation(p, ts, now, params), params.target, params);
            var r := Recommendation(p, ts, IdealHoldings(results, usd, params, fee), params);
            && Finished(ideal, r.haircut, p.floor) <= r.tier0 <= ideal
            && (r.haircut == 1.0 ==> r.tier0 == ideal)
  {
    hide MatchTicker, MarketVolume, Mult, Haircut, FlowSize, HoldingsSize, Tighter, Finished, Cross, Converted;
    hide IdealLadders, IdealHoldings, GoodPrices, DistinctNames, PricesAgree, Priced;
    var held := IdealHoldings(results, usd, params, fee);
    SameIdeal(p, ts, now, held, params);
    RecommendationIsIdealIff(p, ts, held, params);
    if HasMarket(p, ts) {
      IdealCapCovers(results, p, ts, now, usd, params, fee);
      hide IdealTier0;
      CappedIsBetween(p, ts, held, params, IdealTier0(Recommendation(p, ts, now, params), params.target, params));
    } else {
      FloorStays(p.floor, Haircut(p.spread));
    }
  }

  lemma FloorStays(floor: real, haircut: real)
    requires floor >= 0.0 && 0.0 < haircut <= 1.0
    ensures Finished(floor, haircut, floor) == floor
  {
    hide Cut;
    CutShrinks(floor, haircut);
  }

  /** The ideal does not depend on what is held. */
  lemma SameIdeal(p: Pair, ts: seq<Ticker>, now: Units, held: Units, params: Params)
    requires WellFormed(p)
    ensures IdealTier0(Recommendation(p, ts, now, params), params.target, params)
         == IdealTier0(Recommendation(p, ts, held, params), params.target, params)
    ensures HasMarket(p, ts)
        ==> IdealTier0(Recommendation(p, ts, now, params), params.target, params)
            == Finished(FlowOf(p, ts, params), Haircut(p.spread), p.floor)
  {
    hide MatchTicker, MarketVolume, Mult, Haircut, FlowSize, HoldingsSize, Tighter, Finished;
  }

  lemma CappedIsBetween(p: Pair, ts: seq<Ticker>, held: Units, params: Params, ideal: real)
    requires WellFormed(p) && HasMarket(p, ts)
    requires ideal == Finished(FlowOf(p, ts, params), Haircut(p.spread), p.floor)
    requires CapOf(p, ts, held).Some? ==> CapOf(p, ts, held).value >= ideal
    ensures var h, size := Haircut(p.spread), CappedSize(p, ts, held, params);
            && Finished(ideal, h, p.floor) <= Finished(size, h, p.floor)
            && (h == 1.0 ==> Finished(size, h, p.floor) == ideal)
  {
    hide FlowOf, CapOf, Haircut, Cut;
    NoHaircut(FlowOf(p, ts, params));
    var flow, h, size := FlowOf(p, ts, params), Haircut(p.spread), CappedSize(p, ts, held, params);
    if size == flow {
      HaircutShrinks(ideal, h, p.floor);
    } else {
      FinishedMonotone(ideal, size, h, p.floor);
    }
  }

  lemma HaircutShrinks(size: real, haircut: real, floor: real)
    requires 0.0 < haircut <= 1.0 && size >= floor >= 0.0
    ensures Finished(size, haircut, floor) <= size
  {
    hide Cut;
    CutShrinks(size, haircut);
  }

  // ---------------------------------------------------------------- exactly when it inverts

  /** What a liquid floor makes of a locked amount, times the cap fraction. */
  function Backed(locked: real, liquidFloor: real): real {
    if 0.6 < liquidFloor < 1.0 then CapFrac * Liquid(locked, liquidFloor) else locked
  }

  /** The largest ladder side the ideal holdings of an asset allow: all the ladders that lock it share it. */
  function Room(results: seq<Sizing>, usd: Units, params: Params, fee: real, a: string): real
    requires forall r :: r in results ==> Sized(r)
    requires Priced(results, usd, IdealLadders(results, usd, params.target, params))
  {
    var ladders := IdealLadders(results, usd, params.target, params);
    Backed(Locked(results, usd, ladders, a), params.liquidFloor) + if a == Xch then CapFrac * fee else 0.0
  }

  lemma NothingToKeepLiquid(liquidFloor: real)
    requires liquidFloor < 1.0
    ensures Liquid(0.0, liquidFloor) == 0.0
  {
    DivUnique(0.0, 0.0, 1.0 - liquidFloor);
  }

  /** The backing of a touched asset is what its ladders lock, to the unit. */
  lemma BackingIs(results: seq<Sizing>, usd: Units, ladders: Units, liquidFloor: real, a: string)
    requires Priced(results, usd, ladders) && a in Touched(results, ladders) && Locked(results, usd, ladders, a) >= 0.0
    ensures var required, deployed := Required(results, usd, ladders), Deployed(results, usd, ladders);
            && a in Backings(required, deployed, liquidFloor)
            && CapFrac * Backings(required, deployed, liquidFloor)[a]
               == Backed(Locked(results, usd, ladders, a), liquidFloor)
  {
    hide Touched, Priced, Locked;
    var locked := Locked(results, usd, ladders, a);
    var required, deployed := Required(results, usd, ladders), Deployed(results, usd, ladders);
    assert a in required && a in deployed && deployed[a] == locked && required[a] == locked / CapFrac;
    if liquidFloor < 1.0 && locked > 0.0 {
      LiquidFloorBindsIff(results, usd, ladders, liquidFloor, a);
    }
    hide Required, Deployed;
    BackedBy(required, deployed, liquidFloor, a, locked);
  }

  lemma BackedBy(required: Units, deployed: Units, liquidFloor: real, a: string, locked: real)
    requires a in required && a in deployed && deployed[a] == locked >= 0.0 && required[a] == locked / CapFrac
    requires liquidFloor < 1.0 && locked > 0.0 ==>
               (FloorBinds(required, deployed, liquidFloor, a) <==> liquidFloor > 0.6)
    ensures a in Backings(required, deployed, liquidFloor)
    ensures CapFrac * Backings(required, deployed, liquidFloor)[a] == Backed(locked, liquidFloor)
  {
    if liquidFloor < 1.0 && locked == 0.0 {
      NothingToKeepLiquid(liquidFloor);
    }
    hide Liquid;
    assert Backings(required, deployed, liquidFloor)[a] == Backing(required, deployed, liquidFloor, a);
  }

  /** 40 % of the ideal holdings of an asset are exactly its room. */
  lemma IdealHoldingsAre(results: seq<Sizing>, r: Sizing, usd: Units, params: Params, fee: real, a: string)
    requires forall x :: x in results ==> Sized(x)
    requires DistinctNames(results) && GoodPrices(usd)
    requires r in results && r.base in usd && r.quote in usd && (a == r.base || a == r.quote)
    ensures Priced(results, usd, IdealLadders(results, usd, params.target, params))
    ensures var held := IdealHoldings(results, usd, params, fee);
            a in held && CapFrac * held[a] == Room(results, usd, params, fee, a)
  {
    LaddersAreIdeal(results, usd, params.target, params);
    LaddersAreNonNegative(results, usd, params.target, params);
    var ladders := IdealLadders(results, usd, params.target, params);
    LockedIsNonNegative(results, usd, ladders, a);
    assert a in Touched(results, ladders);
    BackingIs(results, usd, ladders, params.liquidFloor, a);
    hide Backings, Required, Deployed, Locked, Touched, Priced, IdealLadders, Backed, GoodPrices;
  }

  lemma LaddersAreNonNegative(results: seq<Sizing>, usd: Units, target: real, params: Params)
    requires forall x :: x in results ==> Sized(x)
    requires DistinctNames(results) && GoodPrices(usd)
    ensures var ladders := IdealLadders(results, usd, target, params);
            forall n :: n in ladders ==> ladders[n] >= 0.0
  {
    LaddersAreIdeal(results, usd, target, params);
    var ladders := IdealLadders(results, usd, target, params);
    forall n | n in ladders
      ensures ladders[n] >= 0.0
    {
      var x :| x in results && x.name == n;
      LadderIsNonNegative(x, target, params);
    }
  }

  /** Does a ladder of this tier-0 size fit, on both sides, in what all ideal ladders lock? */
  predicate Fits(results: seq<Sizing>, usd: Units, params: Params, fee: real, p: Pair, t: Ticker, size: real)
    requires (forall r :: r in results ==> Sized(r)) && HasTiers(p)
    requires Priced(results, usd, IdealLadders(results, usd, params.target, params))
  {
    var price := PriceInBase(t, p.base);
    && Within(size, Mult(p), Room(results, usd, params, fee, p.base))
    && (price.Some? ==> Within(size, Mult(p), Room(results, usd, params, fee, p.quote) * price.value))
  }

  predicate BothSidesAllow(p: Pair, t: Ticker, held: Units, size: real)
    requires HasTiers(p)
  {
    && (SideCap(p, t, held, BaseSide).Some? ==> Within(size, Mult(p), SideCap(p, t, held, BaseSide).value))
    && (SideCap(p, t, held, QuoteSide).Some? ==> Within(size, Mult(p), SideCap(p, t, held, QuoteSide).value))
  }

  /** The holdings cap leaves the flow size alone exactly when both sides have room for its ladder. */
  lemma CapLeavesIff(p: Pair, ts: seq<Ticker>, held: Units, params: Params)
    requires HasTiers(p) && HasMarket(p, ts) && Mult(p) > 0.0
    ensures var t, flow := MatchTicker(ts, p.base, p.quote).value, FlowOf(p, ts, params);
            CappedSize(p, ts, held, params) == flow <==> BothSidesAllow(p, t, held, flow)
  {
    hide Within, PerTier, Mult, MatchTicker, MarketVolume, SideCap, FlowSize;
    var t, flow := MatchTicker(ts, p.base, p.quote).value, FlowOf(p, ts, params);
    var b, q := SideCap(p, t, held, BaseSide), SideCap(p, t, held, QuoteSide);
    if b.Some? {
      QuotientIsGreatest(flow, Mult(p), b.value);
    }
    if q.Some? {
      QuotientIsGreatest(flow, Mult(p), q.value);
    }
    if b.Some? && q.Some? {
      WithinWider(flow, Mult(p), b.value, q.value);
      WithinWider(flow, Mult(p), q.value, b.value);
    }
  }

  /** For every list of pairs, whatever their prices and the liquid floor: holding the ideal balances, a pair
      with a market is recommended its ideal size if and only if its ladder before haircut and minimum fits
      in what all the ideal ladders lock, or the minimum decides. */
  lemma InversionIsExactIff(results: seq<Sizing>, p: Pair, ts: seq<Ticker>, now: Units, usd: Units,
                            params: Params, fee: real)
    requires WellFormed(p) && HasMarket(p, ts) && Recommendation(p, ts, now, params) in results
    requires (forall x :: x in results ==> Sized(x)) && DistinctNames(results) && GoodPrices(usd)
    requires p.base in usd && p.quote in usd && params.target >= 0.0
    ensures Priced(results, usd, IdealLadders(results, usd, params.target, params))
    ensures MatchTicker(ts, p.base, p.quote).Some?
    ensures var t, flow := MatchTicker(ts, p.base, p.quote).value, FlowOf(p, ts, params);
            var ideal := IdealTier0(Recommendation(p, ts, now, params), params.target, params);
            var r := Recommendation(p, ts, IdealHoldings(results, usd, params, fee), params);
            r.tier0 == ideal
            <==> Fits(results, usd, params, fee, p, t, flow) || Cut(flow, r.haircut) <= p.floor
  {
    hide *;
    WellFormedMeans(p);
    var r0 := Recommendation(p, ts, now, params);
    RecommendationSays(p, ts, now, params);
    IdealHoldingsAre(results, r0, usd, params, fee, p.base);
    IdealHoldingsAre(results, r0, usd, params, fee, p.quote);
    var held := IdealHoldings(results, usd, params, fee);
    CapIs(p, ts, held);
    SameIdeal(p, ts, now, held, params);
    RecommendationSays(p, ts, held, params);
    RecommendationIsIdealIff(p, ts, held, params);
    CapLeavesIff(p, ts, held, params);
    FitsIs(results, usd, params, fee, p, MatchTicker(ts, p.base, p.quote).value, held, FlowOf(p, ts, params));
  }

  lemma FitsIs(results: seq<Sizing>, usd: Units, params: Params, fee: real, p: Pair, t: Ticker, held: Units, size: real)
    requires (forall r :: r in results ==> Sized(r)) && HasTiers(p)
    requires Priced(results, usd, IdealLadders(results, usd, params.target, params))
    requires p.base in held && CapFrac * held[p.base] == Room(results, usd, params, fee, p.base)
    requires p.quote in held && CapFrac * held[p.quote] == Room(results, usd, params, fee, p.quote)
    ensures Fits(results, usd, params, fee, p, t, size)
       <==> BothSidesAllow(p, t, held, size)
  {
    hide Room, Mult, PriceInBase, Priced, IdealLadders;
    var price := PriceInBase(t, p.base);
    if price.Some? {
      assert CapFrac * held[p.quote] * price.value == Room(results, usd, params, fee, p.quote) * price.value;
    }
  }

  // ---------------------------------------------------------------- the haircut counts twice

  /** No other result locks this asset. */
  predicate OnlyOneUses(results: seq<Sizing>, i: nat, a: string) {
    i < |results| && forall k :: 0 <= k < |results| && k != i ==> results[k].base != a && results[k].quote != a
  }

  lemma {:induction false} LockedByOne(results: seq<Sizing>, i: nat, usd: Units, ladders: Units, a: string)
    requires Priced(results, usd, ladders) && OnlyOneUses(results, i, a)
    ensures PricedPair(results[i], usd, ladders)
    ensures Locked(results, usd, ladders, a) == LockedBy(results[i], usd, ladders, a)
  {
    var n := |results| - 1;
    assert results[i] in results && results[n] in results;
    var before := results[..n];
    assert results == before + [results[n]];
    if i < n {
      LockedByOne(before, i, usd, ladders, a);
    } else {
      hide Converted, Cross;
      UnusedIsFree(before, usd, ladders, a);
    }
  }

  lemma UnusedIsFree(results: seq<Sizing>, usd: Units, ladders: Units, a: string)
    requires Priced(results, usd, ladders)
    requires forall k :: 0 <= k < |results| ==> results[k].base != a && results[k].quote != a
    ensures Locked(results, usd, ladders, a) == 0.0
  {
    assert a !in Touched(results, ladders);
    UntouchedIsFree(results, usd, ladders, a);
  }

  /** The quote balance that backs a pair nobody shares its quote asset with. */
  lemma UnsharedQuoteHolds(results: seq<Sizing>, i: nat, usd: Units, params: Params, fee: real)
    requires forall x :: x in results ==> Sized(x)
    requires DistinctNames(results) && GoodPrices(usd) && params.liquidFloor <= 0.6
    requires i < |results| && results[i].base in usd && results[i].quote in usd
    requires results[i].quote != Xch && results[i].base != results[i].quote
    requires OnlyOneUses(results, i, results[i].quote)
    ensures Priced(results, usd, IdealLadders(results, usd, params.target, params))
    ensures var r, held := results[i], IdealHoldings(results, usd, params, fee);
            && r.quote in held
            && CapFrac * held[r.quote] == Converted(Ladder(r, params.target, params), Cross(usd, r.base, r.quote))
  {
    var r := results[i];
    assert r in results;
    LaddersAreIdeal(results, usd, params.target, params);
    var ladders := IdealLadders(results, usd, params.target, params);
    IdealHoldingsAre(results, r, usd, params, fee, r.quote);
    LockedByOne(results, i, usd, ladders, r.quote);
    hide IdealHoldings, IdealLadders, Ladder, Converted, Cross, Locked, GoodPrices, Priced, OnlyOneUses;
  }

  /** Quote holdings that back just this ladder cap the pair no higher. */
  lemma QuoteSideIsTight(p: Pair, ts: seq<Ticker>, t: Ticker, held: Units, usd: Units, size: real, ladder: real)
    requires WellFormed(p) && PricesAgree(p, ts, usd) && MatchTicker(ts, p.base, p.quote) == Some(t)
    requires PriceInBase(t, p.base).Some? && p.quote in held
    requires ladder == size * Mult(p) && CapFrac * held[p.quote] == Converted(ladder, Cross(usd, p.base, p.quote))
    ensures HoldingsSize(p, t, held).Some? && HoldingsSize(p, t, held).value <= size
  {
    hide Mult, Cross;
    var mult := Mult(p);
    PriceIsPositive(t, p.base);
    var price := PriceInBase(t, p.base);
    hide PriceInBase;
    ConvertedCancels(ladder, Cross(usd, p.base, p.quote), price.value, CapFrac * held[p.quote]);
    hide Converted;
    var cap := SideCap(p, t, held, Tighter(p, t, held).value).value;
    assert cap <= ladder;
    PerTierLimits(size, mult, cap);
  }

  lemma PerTierLimits(size: real, mult: real, ladder: real)
    requires mult > 0.0 && ladder <= size * mult
    ensures PerTier(ladder, mult) <= size
  {
    var q := PerTier(ladder, mult);
    DivCancel(ladder, mult);
    if q > size {
      MulPositive(q - size, mult);
      assert (q - size) * mult == q * mult - size * mult;
    }
  }

  lemma TwiceCut(flow: real, haircut: real, floor: real, ideal: real)
    requires 0.0 < haircut <= 1.0 && floor >= 0.0 && ideal == Finished(flow, haircut, floor)
    ensures Finished(Min(flow, ideal), haircut, floor) == Finished(ideal, haircut, floor)
    ensures Finished(ideal, haircut, floor) == ideal <==> haircut == 1.0 || Cut(flow, haircut) <= floor
  {
    hide Cut;
    CutShrinks(ideal, haircut);
    CutIsMonotone(flow, ideal, haircut);
    CutIsMonotone(flow, 0.0, haircut);
    NoHaircut(ideal);
    NoHaircut(haircut);
    if flow >= 0.0 {
      CutShrinks(flow, haircut);
    }
  }

  /** In a list of any length, an XCH pair with one ticker that shares its quote asset with no other pair:
      holding the ideal balances of the list, it is recommended the ideal size with the haircut taken a
      second time; so it gets the ideal exactly when there is no haircut, or the minimum size decides. */
  lemma HaircutCountsTwice(results: seq<Sizing>, i: nat, p: Pair, ts: seq<Ticker>, j: nat, now: Units,
                           params: Params, fee: real)
    requires WellFormed(p) && HasMarket(p, ts) && params.target >= 0.0 && fee >= 0.0 && params.liquidFloor <= 0.6
    requires p.base == Xch && p.quote != Xch && p.quote != ""
    requires UniqueTicker(ts, j, p.quote) && Usd(ts).Some?
    requires (forall x :: x in results ==> Sized(x)) && DistinctNames(results)
    requires i < |results| && results[i] == Recommendation(p, ts, now, params) && OnlyOneUses(results, i, p.quote)
    ensures Priced(results, Usd(ts).value, IdealLadders(results, Usd(ts).value, params.target, params))
    ensures var usd, ideal := Usd(ts).value, IdealTier0(results[i], params.target, params);
            var r := Recommendation(p, ts, IdealHoldings(results, usd, params, fee), params);
            && r.tier0 == Finished(ideal, r.haircut, p.floor)
            && (r.tier0 == ideal <==> r.haircut == 1.0 || Cut(FlowOf(p, ts, params), r.haircut) <= p.floor)
  {
    hide *;
    WellFormedMeans(p);
    var r0, usd := results[i], Usd(ts).value;
    RecommendationSays(p, ts, now, params);
    LadderIs(p, r0, params);
    var ideal := IdealTier0(r0, params.target, params);
    UsdIsGood(ts);
    UniqueTickerAgrees(p, ts, j);
    PairIsPriced(p, ts, usd);
    UniqueIsMatched(ts, j, p.quote);
    UniqueHasPrice(ts, j, p.quote);
    UnsharedQuoteHolds(results, i, usd, params, fee);
    var held := IdealHoldings(results, usd, params, fee);
    IdealHoldingsFund(results, r0, usd, params, fee);
    IdealCapCovers(results, p, ts, now, usd, params, fee);
    QuoteSideIsTight(p, ts, ts[j], held, usd, ideal, Ladder(r0, params.target, params));
    CapIs(p, ts, held);
    CutTwice(p, ts, now, held, params);
  }

  lemma UsdIsGood(ts: seq<Ticker>)
    requires Usd(ts).Some?
    ensures GoodPrices(Usd(ts).value)
  {
    UsdIsPositive(ts);
  }

  lemma UniqueHasPrice(ts: seq<Ticker>, j: nat, asset: string)
    requires UniqueTicker(ts, j, asset) && asset != Xch
    ensures j < |ts| && PriceInBase(ts[j], Xch).Some?
  {
  }

  lemma CutTwice(p: Pair, ts: seq<Ticker>, now: Units, held: Units, params: Params)
    requires WellFormed(p) && HasMarket(p, ts)
    requires CapOf(p, ts, held) == Some(IdealTier0(Recommendation(p, ts, now, params), params.target, params))
    ensures var ideal := IdealTier0(Recommendation(p, ts, now, params), params.target, params);
            var r := Recommendation(p, ts, held, params);
            && r.tier0 == Finished(ideal, r.haircut, p.floor)
            && (r.tier0 == ideal <==> r.haircut == 1.0 || Cut(FlowOf(p, ts, params), r.haircut) <= p.floor)
  {
    hide *;
    WellFormedMeans(p);
    RecommendationSays(p, ts, now, params);
    SameIdeal(p, ts, now, held, params);
    RecommendationSays(p, ts, held, params);
    CappedIs(p, ts, held, params);
    TwiceCut(FlowOf(p, ts, params), Haircut(p.spread), p.floor,
             IdealTier0(Recommendation(p, ts, now, params), params.target, params));
  }

  lemma WellFormedMeans(p: Pair)
    requires WellFormed(p)
    ensures HasTiers(p) && Mult(p) > 0.0 && p.floor >= 0.0
  {
  }

  lemma CappedIs(p: Pair, ts: seq<Ticker>, held: Units, params: Params)
    requires HasTiers(p) && HasMarket(p, ts) && CapOf(p, ts, held).Some?
    ensures CappedSize(p, ts, held, params) == Min(FlowOf(p, ts, params), CapOf(p, ts, held).value)
  {
    hide FlowOf, CapOf;
  }
}
