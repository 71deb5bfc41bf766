/** What each operation of the position book does, in amounts (cpp/src/state.cpp:45-123, 167-264): after any
    operations before it, and with every refusal. */
module PositionLaws {
  import opened Wrappers
  import opened RealFacts
  import opened Doubles
  import opened PositionBook

  // ---------------------------------------------------------------- rounding

  /** The nearest integer, and of two the one farther from zero. */
  ghost predicate IsNearest(x: real, n: int) {
    && -1.0 <= 2.0 * (n as real - x) <= 1.0
    && (2.0 * (n as real - x) == 1.0 ==> x >= 0.0)
    && (2.0 * (n as real - x) == -1.0 ==> x < 0.0)
  }

  lemma RoundIs(x: real)
    ensures IsNearest(x, Round(x))
    ensures forall n :: IsNearest(x, n) ==> n == Round(x)
  {
  }

  // ---------------------------------------------------------------- the operations

  /** The basis is the cost over the balance to the nearest mojo. */
  ghost predicate HasBasis(h: Holding) {
    h.balance > 0 && exists average: real :: average * h.balance as real == h.cost && IsNearest(average, h.basis)
  }

  ghost predicate IsEmpty(h: Holding) {
    h.balance == 0 && h.cost == 0.0 && h.basis == 0
  }

  /** A purchase of a positive quantity that the balance has room for adds its price, as a double, to the cost. */
  ghost predicate Buys(h: Holding, qty: int, price: int, h': Holding) {
    if qty > 0 && h.balance + qty <= 0x7FFF_FFFF_FFFF_FFFF then
      && h'.balance == h.balance + qty
      && h'.cost == h.cost + qty as real * AsDouble(price) as real
      && HasBasis(h')
    else h' == h
  }

  /** A sale of a positive quantity that is held releases its share of the cost. */
  ghost predicate Sells(h: Holding, qty: int, h': Holding) {
    if 0 < qty < h.balance then
      && h'.balance == h.balance - qty
      && h'.cost * h.balance as real == h.cost * (h.balance - qty) as real
      && HasBasis(h')
    else if 0 < qty == h.balance then IsEmpty(h')
    else h' == h
  }

  /** An observed balance replaces the tracked one. The cost follows in proportion, unless the average it gives is no
      amount; then, as where nothing was held, each unit costs 1. */
  ghost predicate Reconciles(h: Holding, observed: int, h': Holding) {
    if observed == h.balance then h' == h
    else if observed == 0 then IsEmpty(h')
    else
      && h'.balance == observed
      && if h.balance > 0 && 0.0 <= h.cost < 9223372036854774784.0 * h.balance as real
         then h'.cost * h.balance as real == h.cost * observed as real && HasBasis(h')
         else h'.cost == observed as real && h'.basis == 1
  }

  /** One operation on an entry. Sales and observations of nothing do not open one; a purchase does, refused or
      not. */
  ghost predicate Operates(h: Option<Holding>, op: Op, h': Option<Holding>) {
    var held := if h.Some? then h.value else Holding(0, 0.0, 0);
    match op
    case Buy(qty, price) => h'.Some? && Buys(held, qty, price, h'.value)
    case Sell(qty) => if h.None? then h' == None else h'.Some? && Sells(held, qty, h'.value)
    case Observe(observed) =>
      if observed < 0 || (h.None? && observed == 0) then h' == h
      else h'.Some? && Reconciles(held, observed, h'.value)
  }

  lemma BasisIs(h: Holding)
    requires h.balance > 0 && h.basis == BasisOf(h.cost, h.balance)
    ensures HasBasis(h)
  {
    DivCancel(h.cost, h.balance as real);
    RoundIs(Average(h));
    hide Round, IsNearest;
  }

  lemma BuyMeans(h: Holding, qty: Mojo, price: Mojo)
    requires 0 <= h.balance <= MaxMojo
    ensures Buys(h, qty, price, if Added(h, qty, price).Some? then Added(h, qty, price).value else h)
  {
    hide AsDouble, Ratio, Round;
    if h' :| Added(h, qty, price) == Some(h') {
      BasisIs(h');
      hide BasisOf, HasBasis;
    }
  }

  lemma ScaledIs(cost: real, part: int, whole: int)
    requires whole > 0
    ensures Scaled(cost, part, whole) * whole as real == cost * part as real
  {
    var p, w := part as real, whole as real;
    DivCancel(p, w);
    assert cost * (p / w) * w == cost * ((p / w) * w);
  }

  lemma SellMeans(h: Holding, qty: Mojo)
    ensures Sells(h, qty, if Removed(h, qty).Some? then Removed(h, qty).value else h)
  {
    hide Ratio, Round;
    if 0 < qty < h.balance {
      ScaledIs(h.cost, h.balance - qty, h.balance);
      BasisIs(Removed(h, qty).value);
      hide BasisOf, HasBasis, Scaled;
    }
  }

  lemma AverageIsAmountIff(cost: real, balance: int)
    requires balance > 0
    ensures 0.0 <= Ratio(cost, balance) < MojoCeiling <==> 0.0 <= cost < MojoCeiling * balance as real
  {
    var q, b := Ratio(cost, balance), balance as real;
    DivCancel(cost, b);
    SignOfProduct(q, b);
    SignOfProduct(q - MojoCeiling, b);
    assert (q - MojoCeiling) * b == cost - MojoCeiling * b;
  }

  lemma SignOfProduct(x: real, b: real)
    requires b > 0.0
    ensures x >= 0.0 <==> x * b >= 0.0
  {
    if x < 0.0 {
      MulPositive(-x, b);
      assert (-x) * b == -(x * b);
    }
  }

  lemma ObserveMeans(h: Holding, observed: Mojo)
    requires observed >= 0 && h.balance >= 0
    ensures Reconciles(h, observed, Reconciled(h, observed))
  {
    var h' := Reconciled(h, observed);
    hide Ratio, Round, Scaled;
    if observed > 0 && observed != h.balance {
      if h.balance > 0 {
        ScaledIs(h.cost, observed, h.balance);
        ScaledKeepsRatio(h.cost, observed, h.balance);
        AverageIsAmountIff(h.cost, h.balance);
        if h'.cost == Scaled(h.cost, observed, h.balance) && h'.basis == BasisOf(h'.cost, observed) {
          BasisIs(h');
        }
      } else {
        UnitRatio(observed);
        RoundOfOne();
      }
      hide HasBasis;
    }
  }

  /** After any operations, the next one does exactly this to the entry. */
  lemma OperationMeans(ops: seq<Op>, op: Op)
    ensures Operates(Run(ops), op, Run(ops + [op]))
  {
    assert (ops + [op])[..|ops|] == ops;
    RunKeepsBook(ops);
    KeptBalance(Run(ops), Paid(ops));
    hide Run, Buys, Sells, Reconciles, Added, Removed, Reconciled, Kept;
    var held := Held(Run(ops));
    assert Run(ops + [op]) == After(Run(ops), op) by {
      RunSnoc(ops, op);
    }
    match op
    case Buy(qty, price) => BuyMeans(held, qty, price);
    case Sell(qty) => SellMeans(held, qty);
    case Observe(observed) =>
      if observed >= 0 {
        ObserveMeans(held, observed);
      }
  }

  lemma RunSnoc(ops: seq<Op>, op: Op)
    ensures Run(ops + [op]) == After(Run(ops), op)
  {
    assert (ops + [op])[..|ops|] == ops;
    hide After;
  }

  /** And no other entry of the book. */
  lemma OtherEntriesStay(events: seq<Event>, e: Event, id: string)
    requires id != e.id
    ensures Lookup(RunBook(events + [e]), id) == Lookup(RunBook(events), id)
  {
    assert (events + [e])[..|events|] == events;
    hide After;
  }
}
