/** What the ideal balances are made of (scripts/offer_sizing.py:420-476), in amounts: what ladders lock, what backs
    it, and the reserves on top. */
module BalanceLaws {
  import opened Wrappers
  import opened RealFacts
  import opened OfferSizing
  import opened IdealBalances

  /** A single ladder locks itself in its base and, at the dollar prices, its worth in its quote; and nothing else. */
  lemma OneLadderLocks(r: Sizing, usd: Units, ladders: Units, a: string)
    requires Priced([r], usd, ladders) && r.name in ladders && r.base != r.quote
    ensures r.base in usd && r.quote in usd
    ensures Locked([r], usd, ladders, r.base) == ladders[r.name]
    ensures Locked([r], usd, ladders, r.quote) * usd[r.quote] == ladders[r.name] * usd[r.base]
    ensures a != r.base && a != r.quote ==> Locked([r], usd, ladders, a) == 0.0
  {
    assert r in [r];
    var worth := Converted(ladders[r.name], Cross(usd, r.base, r.quote));
    WorthIs(ladders[r.name], usd[r.base], usd[r.quote]);
    LockedSnoc([], r, usd, ladders, r.base);
    LockedSnoc([], r, usd, ladders, r.quote);
    LockedSnoc([], r, usd, ladders, a);
    assert [] + [r] == [r];
    hide Converted, Cross;
  }

  lemma WorthIs(ladder: real, base: real, quote: real)
    requires quote != 0.0
    ensures Converted(ladder, base / quote) * quote == ladder * base
  {
    DivCancel(base, quote);
    var cross := base / quote;
    assert ladder * cross * quote == ladder * (cross * quote);
  }

  lemma PricedParts(xs: seq<Sizing>, ys: seq<Sizing>, usd: Units, ladders: Units)
    requires Priced(xs + ys, usd, ladders)
    ensures Priced(xs, usd, ladders) && Priced(ys, usd, ladders)
  {
    assert forall r :: r in xs || r in ys ==> r in xs + ys;
  }

  /** Ladders add up over any split of the pairs. */
  lemma {:induction false} LockedAdds(xs: seq<Sizing>, ys: seq<Sizing>, usd: Units, ladders: Units, a: string)
    requires Priced(xs + ys, usd, ladders)
    ensures Priced(xs, usd, ladders) && Priced(ys, usd, ladders)
    ensures Locked(xs + ys, usd, ladders, a) == Locked(xs, usd, ladders, a) + Locked(ys, usd, ladders, a)
  {
    PricedParts(xs, ys, usd, ladders);
    if |ys| == 0 {
      assert xs + ys == xs;
    } else {
      var ys', r := ys[..|ys| - 1], ys[|ys| - 1];
      assert xs + ys == (xs + ys') + [r] && ys == ys' + [r];
      PricedParts(xs + ys', [r], usd, ladders);
      LockedSnoc(xs + ys', r, usd, ladders, a);
      LockedSnoc(ys', r, usd, ladders, a);
      hide Locked, LockedBy, Priced;
      LockedAdds(xs, ys', usd, ladders, a);
    }
  }

  /** Exactly the assets of a ladder are required and deployed: what is locked is deployed, and is 40 % of what is
      required. */
  lemma RequirementsMean(results: seq<Sizing>, usd: Units, ladders: Units, a: string)
    requires Priced(results, usd, ladders)
    ensures var required, deployed := Required(results, usd, ladders), Deployed(results, usd, ladders);
            && (a in deployed <==> exists r :: r in results && r.name in ladders && (r.base == a || r.quote == a))
            && (a in required <==> a in deployed)
            && (a in deployed ==> deployed[a] == Locked(results, usd, ladders, a)
                                  && 0.4 * required[a] == Locked(results, usd, ladders, a))
  {
    hide Locked;
  }

  /** The share of an asset that would have to stay liquid, if a liquid floor below 1 asks for one. */
  ghost predicate IsFloor(deployed: Units, liquidFloor: real, a: string, x: real) {
    liquidFloor < 1.0 && a in deployed && x * (1.0 - liquidFloor) == deployed[a]
  }

  /** The ideal holdings of an asset are what its ladders require or what the liquid floor asks for, whichever is
      more, and of XCH the fee reserve on top. */
  lemma ReservesMean(required: Units, deployed: Units, fee: real, liquidFloor: real, a: string)
    ensures var need := if a in required then required[a] else 0.0;
            var extra := if a == "xch" then fee else 0.0;
            var ideal := Get(Reserved(required, deployed, fee, liquidFloor), a) - extra;
            && (ideal == need || IsFloor(deployed, liquidFloor, a, ideal))
            && ideal >= need
            && (forall x :: IsFloor(deployed, liquidFloor, a, x) ==> ideal >= x)
    ensures Reserved(required, deployed, fee, liquidFloor).Keys <= required.Keys + deployed.Keys + {"xch"}
    ensures a in required || a == "xch" ==> a in Reserved(required, deployed, fee, liquidFloor)
  {
    if liquidFloor < 1.0 && a in deployed {
      LiquidIs(deployed[a], liquidFloor);
      forall x | IsFloor(deployed, liquidFloor, a, x)
        ensures x == Liquid(deployed[a], liquidFloor)
      {
        DivUnique(x, deployed[a], 1.0 - liquidFloor);
      }
      assert IsFloor(deployed, liquidFloor, a, Liquid(deployed[a], liquidFloor));
      hide Liquid;
    }
    BackingGot(required, deployed, liquidFloor, a);
    assert Get(Reserved(required, deployed, fee, liquidFloor), a)
        == Get(Backings(required, deployed, liquidFloor), a) + if a == "xch" then fee else 0.0;
    hide Reserved, Backings;
  }

  lemma BackingGot(required: Units, deployed: Units, liquidFloor: real, a: string)
    ensures Get(Backings(required, deployed, liquidFloor), a) == Backing(required, deployed, liquidFloor, a)
    ensures Backings(required, deployed, liquidFloor).Keys <= required.Keys + deployed.Keys
  {
    hide Liquid;
  }
}
