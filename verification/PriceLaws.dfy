/** The dollar prices of the ideal balances (scripts/offer_sizing.py:386-404), ticker by ticker. */
module PriceLaws {
  import opened Wrappers
  import opened RealFacts
  import opened OfferSizing
  import opened IdealBalances

  /** The ticker prices the asset in XCH. */
  predicate InXch(t: Ticker, a: string) {
    t.target == "xch" && t.base == a && a != "" && t.lastPrice > 0.0
  }

  predicate NeverInXch(ts: seq<Ticker>, a: string) {
    forall i :: 0 <= i < |ts| ==> !InXch(ts[i], a)
  }

  /** The last one that does. */
  predicate LastPriced(ts: seq<Ticker>, a: string, i: nat) {
    i < |ts| && InXch(ts[i], a) && forall j :: i < j < |ts| ==> !InXch(ts[j], a)
  }

  lemma {:induction false} PricedByLast(ts: seq<Ticker>, a: string, i: nat)
    requires LastPriced(ts, a, i)
    ensures a in XchPerUnit(ts) && XchPerUnit(ts)[a] == ts[i].lastPrice
  {
    if i < |ts| - 1 {
      PricedByLast(ts[..|ts| - 1], a, i);
    }
  }

  lemma {:induction false} PricedIff(ts: seq<Ticker>, a: string)
    ensures a in XchPerUnit(ts) <==> !NeverInXch(ts, a)
  {
    if |ts| > 0 {
      PricedIff(ts[..|ts| - 1], a);
    }
  }

  /** There are prices if and only if some ticker prices wUSDC.b in XCH; then XCH has one, and so have exactly the
      assets that some ticker prices in it. */
  lemma PricedAssets(ts: seq<Ticker>, a: string)
    ensures Usd(ts).None? <==> NeverInXch(ts, Usdc)
    ensures Usd(ts).Some? ==> (a in Usd(ts).value <==> a == "xch" || !NeverInXch(ts, a))
  {
    PricedIff(ts, Usdc);
    PricedIff(ts, a);
    hide XchPerUnit, NeverInXch;
  }

  lemma UsdIs(ts: seq<Ticker>, anchor: nat, a: string)
    requires LastPriced(ts, Usdc, anchor) && (a in XchPerUnit(ts) || a == "xch")
    ensures Usd(ts).Some? && a in Usd(ts).value && Usdc in XchPerUnit(ts)
    ensures XchPerUnit(ts)[Usdc] == ts[anchor].lastPrice > 0.0
    ensures Usd(ts).value[a] == UsdOf(XchPerUnit(ts), a)
  {
    PricedByLast(ts, Usdc, anchor);
    hide XchPerUnit, UsdOf;
  }

  lemma UsdcIsNotXch()
    ensures Usdc != "xch"
  {
    assert |Usdc| == 64;
  }

  lemma Reciprocal(b: real)
    requires b > 0.0
    ensures (1.0 / b) * b == 1.0
  {
    DivCancel(1.0, b);
  }

  /** A unit of wUSDC.b is worth one dollar, XCH what makes its last ticker say so, and any other asset its last price
      in XCH. */
  lemma PricesMean(ts: seq<Ticker>, anchor: nat, a: string, i: nat)
    requires LastPriced(ts, Usdc, anchor) && LastPriced(ts, a, i)
    ensures var usd := Usd(ts);
            && usd.Some? && "xch" in usd.value && Usdc in usd.value && a in usd.value
            && usd.value[Usdc] == 1.0
            && usd.value["xch"] * ts[anchor].lastPrice == 1.0
            && (a != "xch" ==> usd.value[a] == ts[i].lastPrice * usd.value["xch"])
  {
    PricedByLast(ts, Usdc, anchor);
    PricedByLast(ts, a, i);
    UsdIs(ts, anchor, "xch");
    UsdIs(ts, anchor, Usdc);
    UsdIs(ts, anchor, a);
    UsdcIsNotXch();
    Reciprocal(ts[anchor].lastPrice);
    hide Usd, XchPerUnit, LastPriced;
    if a == Usdc {
      assert i == anchor;
    }
  }
}
