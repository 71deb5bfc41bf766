/** The weighted-average position book (cpp/src/state.cpp:45-123, 167-264). Amounts are 64-bit mojos; the
    cost, a double there, is a real here. A price is converted to a double before it is multiplied; sums,
    products and quotients are not rounded. */
module PositionBook {
  import opened Wrappers
  import opened RealFacts
  import opened Doubles

  const MinMojo: int := -0x8000_0000_0000_0000
  const MaxMojo: int := 0x7FFF_FFFF_FFFF_FFFF

  type Mojo = x: int | -0x8000_0000_0000_0000 <= x <= 0x7FFF_FFFF_FFFF_FFFF

  /** The double that the bound of to_mojo_checked denotes: 1024 below two to the 63. */
  const MojoCeiling: real := 9223372036854774784.0

  datatype Holding = Holding(balance: int, cost: real, basis: int)

  const Empty: Holding := Holding(0, 0.0, 0)

  // ---------------------------------------------------------------- arithmetic

  /** llround: to the nearest integer, halves away from zero. */
  function Round(x: real): int {
    if x >= 0.0 then (x + 0.5).Floor else -((-x + 0.5).Floor)
  }

  lemma RoundIsNearest(x: real)
    ensures -0.5 <= Round(x) as real - x <= 0.5
  {
  }

  /** Rounding never crosses an integer. */
  lemma RoundBetween(x: real, lo: int, hi: int)
    requires lo as real <= x <= hi as real
    ensures lo <= Round(x) <= hi
  {
    RoundIsNearest(x);
  }

  function ToMojoChecked(x: real): Option<int> {
    if x < 0.0 || x >= MojoCeiling then None else Some(Round(x))
  }

  /** A 64-bit sum. */
  function Wrapped(x: int): int {
    if x > MaxMojo then x - 0x1_0000_0000_0000_0000
    else if x < MinMojo then x + 0x1_0000_0000_0000_0000
    else x
  }

  function Ratio(cost: real, balance: int): real
    requires balance > 0
  {
    cost / balance as real
  }

  function Average(h: Holding): real
    requires h.balance > 0
  {
    Ratio(h.cost, h.balance)
  }

  function BasisOf(cost: real, balance: int): int {
    if balance > 0 then Round(Ratio(cost, balance)) else 0
  }

  // ---------------------------------------------------------------- the three operations, on values

  function Product(qty: int, price: int): real {
    qty as real * price as real
  }

  function Scaled(cost: real, part: int, whole: int): real
    requires whole > 0
  {
    cost * (part as real / whole as real)
  }

  /** None where the purchase is refused. */
  function Added(h: Holding, qty: Mojo, price: Mojo): Option<Holding> {
    if qty <= 0 then None
    else
      var balance := Wrapped(h.balance + qty);
      if balance <= 0 then None
      else
        var cost := h.cost + Product(qty, AsDouble(price));
        Some(Holding(balance, cost, BasisOf(cost, balance)))
  }

  function Removed(h: Holding, qty: Mojo): Option<Holding> {
    if qty <= 0 || qty > h.balance then None
    else if qty == h.balance then Some(Empty)
    else
      var cost := Scaled(h.cost, h.balance - qty, h.balance);
      Some(Holding(h.balance - qty, cost, BasisOf(cost, h.balance - qty)))
  }

  /** The cost a reconciliation to a different, positive balance would keep: the average of what was held,
      or one mojo a unit where nothing was. */
  function KeptCost(h: Holding, observed: Mojo): real {
    if h.balance > 0 then Scaled(h.cost, observed, h.balance) else observed as real
  }

  /** Does this reconciliation fall back to the unit basis because the average is no amount? */
  predicate Resets(h: Holding, observed: Mojo) {
    observed > 0 && observed != h.balance && ToMojoChecked(Ratio(KeptCost(h, observed), observed)).None?
  }

  function Reconciled(h: Holding, observed: Mojo): Holding
    requires observed >= 0
  {
    if observed == h.balance then h
    else if observed == 0 then Empty
    else
      var cost := KeptCost(h, observed);
      match ToMojoChecked(Ratio(cost, observed))
      case Some(basis) => Holding(observed, cost, basis)
      case None => Holding(observed, observed as real, 1)
  }

  // ---------------------------------------------------------------- the objects

  class Position {
    var balance: int
    var costBasis: int
    var totalCost: real

    ghost function Current(): Holding
      reads this
    {
      Holding(balance, totalCost, costBasis)
    }

    constructor ()
      ensures Current() == Empty
    {
      balance, costBasis, totalCost := 0, 0, 0.0;
    }

    method Add(qty: Mojo, unitPrice: Mojo) returns (ok: bool)
      modifies this
      ensures ok == Added(old(Current()), qty, unitPrice).Some?
      ensures Current() == if ok then Added(old(Current()), qty, unitPrice).value else old(Current())
    {
      hide Round, Ratio, Product, AsDouble;
      if qty <= 0 {
        return false;
      }
      var newBalance := Wrapped(balance + qty);
      if newBalance <= 0 {
        return false;
      }
      totalCost := totalCost + Product(qty, AsDouble(unitPrice));
      balance := newBalance;
      costBasis := BasisOf(totalCost, balance);
      return true;
    }

    method Remove(qty: Mojo) returns (ok: bool)
      modifies this
      ensures ok == Removed(old(Current()), qty).Some?
      ensures Current() == if ok then Removed(old(Current()), qty).value else old(Current())
    {
      hide Round, Ratio, Scaled;
      if qty <= 0 {
        return false;
      }
      if qty > balance {
        return false;
      }
      if qty == balance {
        totalCost := 0.0;
        balance := 0;
      } else {
        totalCost := Scaled(totalCost, balance - qty, balance);
        balance := balance - qty;
      }
      costBasis := BasisOf(totalCost, balance);
      return true;
    }

    /** The part of reconcile_balance that works on one position. */
    method Reconcile(observed: Mojo)
      requires observed >= 0
      modifies this
      ensures Current() == Reconciled(old(Current()), observed)
    {
      hide Round, Ratio, Scaled;
      var previous := balance;
      if previous == observed {
        return;
      }
      if observed == 0 {
        balance := 0;
        totalCost := 0.0;
      } else if previous > 0 {
        totalCost := Scaled(totalCost, observed, previous);
        balance := observed;
      } else {
        balance := observed;
        totalCost := observed as real;
      }
      costBasis := 0;
      if balance > 0 {
        var basis := ToMojoChecked(Ratio(totalCost, balance));
        if basis.Some? {
          costBasis := basis.value;
        } else {
          totalCost := balance as real;
          costBasis := 1;
        }
      }
    }
  }

  datatype Op = Buy(qty: Mojo, price: Mojo) | Sell(qty: Mojo) | Observe(balance: Mojo)

  function Held(h: Option<Holding>): Holding {
    match h case Some(x) => x case None => Empty
  }

  /** One operation on one asset; None is an asset the book does not track. A refused purchase still opens
      an entry. */
  function After(h: Option<Holding>, op: Op): Option<Holding> {
    match op
    case Buy(qty, price) =>
      (match Added(Held(h), qty, price) case Some(x) => Some(x) case None => Some(Held(h)))
    case Sell(qty) =>
      if h.None? then None
      else (match Removed(h.value, qty) case Some(x) => Some(x) case None => h)
    case Observe(observed) =>
      if observed < 0 || (h.None? && observed == 0) then h else Some(Reconciled(Held(h), observed))
  }

  function Lookup(book: map<string, Holding>, id: string): Option<Holding> {
    if id in book then Some(book[id]) else None
  }

  function AfterOp(book: map<string, Holding>, id: string, op: Op): map<string, Holding> {
    match After(Lookup(book, id), op) case Some(h) => book[id := h] case None => book
  }

  lemma BookAfterBuy(book: map<string, Holding>, id: string, qty: Mojo, price: Mojo)
    ensures var was := Held(Lookup(book, id));
            AfterOp(book, id, Buy(qty, price))
            == book[id := if Added(was, qty, price).Some? then Added(was, qty, price).value else was]
  {
    hide Added;
  }

  lemma RefusedObservation(book: map<string, Holding>, id: string, observed: Mojo)
    requires observed < 0 || (id !in book && observed == 0)
    ensures AfterOp(book, id, Observe(observed)) == book
  {
    hide Reconciled;
  }

  lemma BookAfterObservation(book: map<string, Holding>, id: string, observed: Mojo)
    requires observed >= 0 && (id in book || observed > 0)
    ensures AfterOp(book, id, Observe(observed)) == book[id := Reconciled(Held(Lookup(book, id)), observed)]
  {
    hide Reconciled;
  }

  class State {
    var positions: map<string, Position>

    ghost predicate Valid()
      reads this
    {
      forall a, b :: a in positions && b in positions && a != b ==> positions[a] != positions[b]
    }

    ghost function Book(): map<string, Holding>
      reads this, positions.Values
    {
      map a | a in positions :: positions[a].Current()
    }

    constructor ()
      ensures Valid() && Book() == map[]
    {
      positions := map[];
    }

    /** try_emplace. */
    method Entry(id: string) returns (p: Position)
      requires Valid()
      modifies this
      ensures Valid() && id in positions && p == positions[id]
      ensures if id in old(positions) then positions == old(positions)
              else positions == old(positions)[id := p] && fresh(p) && p.Current() == Empty
    {
      if id !in positions {
        var q := new Position();
        positions := positions[id := q];
      }
      p := positions[id];
    }

    method RecordBuy(id: string, qty: Mojo, unitPrice: Mojo)
      requires Valid()
      modifies this, positions.Values
      ensures Valid() && fresh(positions.Values - old(positions.Values))
      ensures Book() == AfterOp(old(Book()), id, Buy(qty, unitPrice))
    {
      hide Added, After, AfterOp;
      ghost var book := Book();
      var p := Entry(id);
      assert p.Current() == Held(Lookup(book, id));
      var _ := p.Add(qty, unitPrice);
      assert Book() == book[id := p.Current()];
      BookAfterBuy(book, id, qty, unitPrice);
    }

    method RecordSell(id: string, qty: Mojo) returns (ok: bool)
      requires Valid()
      modifies positions.Values
      ensures Valid() && Book() == AfterOp(old(Book()), id, Sell(qty))
      ensures ok <==> id in old(Book()) && 0 < qty <= old(Book())[id].balance
    {
      if id !in positions {
        return false;
      }
      ok := positions[id].Remove(qty);
      hide Scaled, BasisOf;
    }

    /** The balance before, or None where the observation is refused. */
    method ReconcileBalance(id: string, observed: Mojo) returns (previous: Option<int>)
      requires Valid()
      modifies this, positions.Values
      ensures Valid() && fresh(positions.Values - old(positions.Values))
      ensures Book() == AfterOp(old(Book()), id, Observe(observed))
      ensures previous == if observed < 0 then None else Some(Held(Lookup(old(Book()), id)).balance)
    {
      hide Reconciled, After;
      ghost var book := Book();
      if observed < 0 {
        RefusedObservation(book, id, observed);
        return None;
      }
      if id !in positions && observed == 0 {
        RefusedObservation(book, id, observed);
        return Some(0);
      }
      hide AfterOp;
      var p := Entry(id);
      assert p.Current() == Held(Lookup(book, id));
      previous := Some(p.balance);
      p.Reconcile(observed);
      assert Book() == book[id := p.Current()];
      BookAfterObservation(book, id, observed);
    }
  }

  // ---------------------------------------------------------------- runs

  function Run(ops: seq<Op>): Option<Holding> {
    if |ops| == 0 then None else After(Run(ops[..|ops| - 1]), ops[|ops| - 1])
  }

  datatype Event = Event(id: string, op: Op)

  function RunBook(events: seq<Event>): map<string, Holding> {
    if |events| == 0 then map[]
    else AfterOp(RunBook(events[..|events| - 1]), events[|events| - 1].id, events[|events| - 1].op)
  }

  function OpsOn(events: seq<Event>, id: string): seq<Op> {
    if |events| == 0 then []
    else
      var e := events[|events| - 1];
      if e.id == id then OpsOn(events[..|events| - 1], id) + [e.op] else OpsOn(events[..|events| - 1], id)
  }

  /** Assets do not interfere: an entry is what its own operations made of it. */
  lemma {:induction false} AssetsAreIndependent(events: seq<Event>, id: string)
    ensures Lookup(RunBook(events), id) == Run(OpsOn(events, id))
  {
    hide After;
    if |events| > 0 {
      var before, e := events[..|events| - 1], events[|events| - 1];
      AssetsAreIndependent(before, id);
      AssetsAreIndependent(before, e.id);
      if e.id == id {
        assert (OpsOn(before, id) + [e.op])[..|OpsOn(before, id)|] == OpsOn(before, id);
        EntriesStay(Lookup(RunBook(before), id), e.op);
      }
    }
  }

  lemma EntriesStay(h: Option<Holding>, op: Op)
    ensures h.Some? ==> After(h, op).Some?
  {
  }

  /** The unit prices in a position, as doubles: those paid since it was last empty, with 1 for a balance that was
      observed out of nothing or fell back to the unit basis. */
  function Paid(ops: seq<Op>): seq<int> {
    if |ops| == 0 then []
    else
      var before, op := ops[..|ops| - 1], ops[|ops| - 1];
      var h, h' := Held(Run(before)), Held(Run(ops));
      if h'.balance == 0 then []
      else match op
        case Buy(qty, price) => if Added(h, qty, price).Some? then Paid(before) + [AsDouble(price)] else Paid(before)
        case Sell(_) => Paid(before)
        case Observe(observed) =>
          if observed > 0 && (h.balance == 0 || Resets(h, observed)) then [1] else Paid(before)
  }

  function Smallest(prices: seq<int>): (m: int)
    requires |prices| > 0
    ensures m in prices && forall p :: p in prices ==> m <= p
  {
    var last := prices[|prices| - 1];
    if |prices| == 1 then last
    else
      assert prices == prices[..|prices| - 1] + [last];
      var m := Smallest(prices[..|prices| - 1]);
      if last < m then last else m
  }

  function Largest(prices: seq<int>): (m: int)
    requires |prices| > 0
    ensures m in prices && forall p :: p in prices ==> p <= m
  {
    var last := prices[|prices| - 1];
    if |prices| == 1 then last
    else
      assert prices == prices[..|prices| - 1] + [last];
      var m := Largest(prices[..|prices| - 1]);
      if last > m then last else m
  }

  /** The cost lies between that of the same balance at the lowest and at the highest of the prices. */
  ghost predicate CostWithin(cost: real, balance: int, lo: int, hi: int) {
    Product(balance, lo) <= cost <= Product(balance, hi)
  }

  ghost predicate Kept(h: Option<Holding>, paid: seq<int>) {
    var x := Held(h);
    && 0 <= x.balance <= MaxMojo
    && (x.balance == 0 ==> x == Empty && paid == [])
    && (x.balance > 0 ==>
          |paid| > 0 && x.basis == BasisOf(x.cost, x.balance)
          && CostWithin(x.cost, x.balance, Smallest(paid), Largest(paid)))
  }

  // ---------------------------------------------------------------- scalar facts

  lemma ProductMonotone(balance: int, a: int, b: int)
    requires balance >= 0 && a <= b
    ensures Product(balance, a) <= Product(balance, b)
  {
  }

  lemma ProductAdds(x: int, y: int, p: int)
    ensures Product(x + y, p) == Product(x, p) + Product(y, p)
  {
  }

  lemma CostWidens(cost: real, balance: int, lo: int, hi: int, lo': int, hi': int)
    requires balance >= 0 && CostWithin(cost, balance, lo, hi) && lo' <= lo && hi <= hi'
    ensures CostWithin(cost, balance, lo', hi')
  {
    ProductMonotone(balance, lo', lo);
    ProductMonotone(balance, hi, hi');
  }

  lemma ScaleFact(cost: real, bound: real, part: real, whole: real)
    requires whole > 0.0 && part >= 0.0 && bound * whole <= cost
    ensures bound * part <= cost * (part / whole)
  {
    var r := part / whole;
    DivCancel(part, whole);
    assert r >= 0.0;
    MulMonotone(bound * whole, cost, r);
    assert bound * whole * r == bound * part by {
      assert bound * whole * r == bound * (r * whole);
    }
  }

  lemma ScaledKeepsBounds(cost: real, part: int, whole: int, lo: int, hi: int)
    requires whole > 0 && part >= 0 && CostWithin(cost, whole, lo, hi)
    ensures CostWithin(Scaled(cost, part, whole), part, lo, hi)
  {
    var p, w := part as real, whole as real;
    ScaleFact(cost, lo as real, p, w);
    ScaleFact(-cost, -(hi as real), p, w);
    assert (-cost) * (p / w) == -(cost * (p / w));
  }

  /** Scaling a cost with its balance leaves the ratio alone. */
  lemma ScaledKeepsRatio(cost: real, part: int, whole: int)
    requires whole > 0 && part > 0
    ensures Ratio(Scaled(cost, part, whole), part) == Ratio(cost, whole)
  {
    var p, w := part as real, whole as real;
    var q := cost / w;
    DivCancel(cost, w);
    DivCancel(p, w);
    assert q * p == cost * (p / w) by {
      assert q * p == q * ((p / w) * w);
      assert q * ((p / w) * w) == (q * w) * (p / w);
    }
    DivUnique(q, Scaled(cost, part, whole), p);
  }

  lemma RatioWithin(cost: real, balance: int, lo: int, hi: int)
    requires balance > 0 && CostWithin(cost, balance, lo, hi)
    ensures lo as real <= Ratio(cost, balance) <= hi as real
  {
    DivBounds(cost, balance as real, lo as real, hi as real);
  }

  lemma UnitRatio(balance: int)
    requires balance > 0
    ensures Ratio(balance as real, balance) == 1.0 && CostWithin(balance as real, balance, 1, 1)
  {
    DivUnique(1.0, balance as real, balance as real);
  }

  // ---------------------------------------------------------------- what every run keeps

  lemma BuyKeeps(h: Option<Holding>, paid: seq<int>, qty: Mojo, price: Mojo)
    requires Kept(h, paid) && Added(Held(h), qty, price).Some?
    ensures Kept(After(h, Buy(qty, price)), paid + [AsDouble(price)])
  {
    hide AsDouble;
    var x, y := Held(h), Added(Held(h), qty, price).value;
    assert y.balance == x.balance + qty > 0;
    var all := paid + [AsDouble(price)];
    assert AsDouble(price) in all;
    ProductMonotone(qty, Smallest(all), AsDouble(price));
    ProductMonotone(qty, AsDouble(price), Largest(all));
    ProductAdds(x.balance, qty, Smallest(all));
    ProductAdds(x.balance, qty, Largest(all));
    if x.balance > 0 {
      assert Smallest(paid) in all && Largest(paid) in all;
      CostWidens(x.cost, x.balance, Smallest(paid), Largest(paid), Smallest(all), Largest(all));
    }
    hide Round, Ratio, Smallest, Largest;
  }

  lemma SellKeeps(h: Option<Holding>, paid: seq<int>, qty: Mojo)
    requires Kept(h, paid)
    ensures Kept(After(h, Sell(qty)), if Held(After(h, Sell(qty))).balance == 0 then [] else paid)
  {
    var x := Held(h);
    hide Round, Ratio, Scaled, Product;
    if 0 < qty < x.balance {
      ScaledKeepsBounds(x.cost, x.balance - qty, x.balance, Smallest(paid), Largest(paid));
    }
  }

  /** The prices of a position after a reconciliation. */
  function PaidAfter(h: Holding, paid: seq<int>, observed: Mojo): seq<int> {
    if observed > 0 && (h.balance == 0 || Resets(h, observed)) then [1] else paid
  }

  lemma ObserveKeeps(h: Option<Holding>, paid: seq<int>, observed: Mojo)
    requires Kept(h, paid)
    ensures var h' := After(h, Observe(observed));
            Kept(h', if Held(h').balance == 0 then [] else PaidAfter(Held(h), paid, observed))
  {
    var x := Held(h);
    hide Round, Ratio, Scaled, Product;
    if observed > 0 && observed != x.balance {
      UnitRatio(observed);
      RoundOfOne();
      if x.balance > 0 {
        ScaledKeepsBounds(x.cost, observed, x.balance, Smallest(paid), Largest(paid));
      }
    }
  }

  lemma RoundOfOne()
    ensures Round(1.0) == 1
  {
  }

  /** After any operations: the balance is never negative, an empty position costs nothing, and the cost
      is that of the balance at prices between the extremes of those paid since it was last empty. */
  lemma {:induction false} RunKeepsBook(ops: seq<Op>)
    ensures Kept(Run(ops), Paid(ops))
  {
    if |ops| > 0 {
      var before, op := ops[..|ops| - 1], ops[|ops| - 1];
      RunKeepsBook(before);
      hide Kept, Added, Removed, Reconciled, Resets;
      match op
      case Buy(qty, price) =>
        if Added(Held(Run(before)), qty, price).Some? {
          BuyKeeps(Run(before), Paid(before), qty, price);
          AddedIsPositive(Held(Run(before)), qty, price);
        } else {
          EmptyEntry(Run(before), Paid(before));
        }
      case Sell(qty) => SellKeeps(Run(before), Paid(before), qty);
      case Observe(observed) => ObserveKeeps(Run(before), Paid(before), observed);
    }
  }

  lemma AddedIsPositive(h: Holding, qty: Mojo, price: Mojo)
    requires Added(h, qty, price).Some?
    ensures Added(h, qty, price).value.balance > 0
  {
  }

  lemma EmptyEntry(h: Option<Holding>, paid: seq<int>)
    requires Kept(h, paid)
    ensures Kept(Some(Held(h)), paid) && (Held(h).balance == 0 ==> paid == [])
  {
  }

  /** The basis is the average to the nearest mojo, and lies between the smallest and the largest unit
      price paid since the position was last empty. It fits its 64 bits exactly if the average is below the
      largest mojo and a half. */
  lemma BasisIsAFairPrice(ops: seq<Op>)
    requires Held(Run(ops)).balance > 0
    ensures var h := Held(Run(ops));
            && |Paid(ops)| > 0 && Smallest(Paid(ops)) <= h.basis <= Largest(Paid(ops))
            && Smallest(Paid(ops)) as real <= Average(h) <= Largest(Paid(ops)) as real
            && -0.5 <= h.basis as real - Average(h) <= 0.5
            && MinMojo <= h.basis <= MaxMojo + 1
            && (h.basis <= MaxMojo <==> Average(h) < MaxMojo as real + 0.5)
  {
    RunKeepsBook(ops);
    var h := Held(Run(ops));
    PaidAreAmounts(ops);
    RoundReaches(Average(h), MaxMojo + 1);
    RatioWithin(h.cost, h.balance, Smallest(Paid(ops)), Largest(Paid(ops)));
    RoundBetween(Average(h), Smallest(Paid(ops)), Largest(Paid(ops)));
    RoundIsNearest(Average(h));
    hide Round, Run, Paid, Smallest, Largest;
  }

  lemma RoundReaches(x: real, n: int)
    requires n > 0
    ensures Round(x) >= n <==> x >= n as real - 0.5
  {
  }

  lemma {:induction false} PaidAreAmounts(ops: seq<Op>)
    ensures forall p :: p in Paid(ops) ==> MinMojo <= p <= MaxMojo + 1
  {
    hide After, Added, Resets, AsDouble;
    if |ops| > 0 {
      var op := ops[|ops| - 1];
      if op.Buy? {
        DoubleRange(op.price);
      }
      PaidAreAmounts(ops[..|ops| - 1]);
    }
  }

  /** Every price in a position is 1 or the double of one that was paid. */
  lemma {:induction false} PaidComesFrom(ops: seq<Op>)
    ensures forall p :: p in Paid(ops) ==> p == 1 || exists op :: op in ops && op.Buy? && AsDouble(op.price) == p
  {
    hide After, Added, Resets, AsDouble;
    if |ops| > 0 {
      var before, op := ops[..|ops| - 1], ops[|ops| - 1];
      assert ops == before + [op];
      PaidComesFrom(before);
    }
  }

  function Fraction(x: real): real {
    x - x.Floor as real
  }

  /** Rounding up happens at half and above; below zero only above half. */
  lemma RoundOverstatesIff(x: real)
    ensures Round(x) as real > x <==> Fraction(x) > 0.5 || (Fraction(x) == 0.5 && x >= 0.0)
    ensures Round(x) as real == x <==> Fraction(x) == 0.0
  {
    var n, f := x.Floor, Fraction(x);
    if x >= 0.0 {
      FloorIs(x + 0.5, if f < 0.5 then n else n + 1);
    } else {
      FloorIs(-x + 0.5, if f <= 0.5 then -n else -n - 1);
    }
  }

  lemma FloorIs(x: real, n: int)
    requires n as real <= x < n as real + 1.0
    ensures x.Floor == n
  {
  }

  /** After any operations: exactly when the basis overstates the average. It does not truncate. */
  lemma BasisOverstatesIff(ops: seq<Op>)
    requires Held(Run(ops)).balance > 0
    ensures var h := Held(Run(ops));
            && (h.basis as real > Average(h)
                <==> Fraction(Average(h)) > 0.5 || (Fraction(Average(h)) == 0.5 && Average(h) >= 0.0))
            && (h.basis as real == Average(h) <==> Fraction(Average(h)) == 0.0)
  {
    RunKeepsBook(ops);
    RoundOverstatesIff(Average(Held(Run(ops))));
    hide Round, Run, Paid, Smallest, Largest, Fraction;
  }

  /** It happens: one mojo at 1 and one at 2. */
  lemma BasisCanOverstate()
    ensures exists ops :: Held(Run(ops)).balance > 0 && Held(Run(ops)).basis as real > Average(Held(Run(ops)))
  {
    SmallIsExact(1);
    SmallIsExact(2);
    hide AsDouble;
    var one, two := [Buy(1, 1)], [Buy(1, 1), Buy(1, 2)];
    assert two[..1] == one && one[..0] == [];
    assert Run(one) == Some(Holding(1, 1.0, 1));
    assert Run(two) == Some(Holding(2, 3.0, 2));
    assert Average(Held(Run(two))) == 1.5;
  }

  /** What an operation does to a plain count of units. */
  function Counted(units: int, op: Op): int {
    match op
    case Buy(qty, _) => if 0 < qty && units + qty <= MaxMojo then units + qty else units
    case Sell(qty) => if 0 < qty <= units then units - qty else units
    case Observe(observed) => if observed >= 0 then observed else units
  }

  function Count(ops: seq<Op>): int {
    if |ops| == 0 then 0 else Counted(Count(ops[..|ops| - 1]), ops[|ops| - 1])
  }

  /** The balance is a plain count: purchases are refused only when they would overflow, sales only when
      they exceed it, and an observation sets it. */
  lemma {:induction false} BalanceIsCount(ops: seq<Op>)
    ensures Held(Run(ops)).balance == Count(ops)
  {
    if |ops| > 0 {
      var before := ops[..|ops| - 1];
      BalanceIsCount(before);
      RunKeepsBook(before);
      hide Kept, Product, Scaled, BasisOf, ToMojoChecked, Ratio, AsDouble;
      assert 0 <= Held(Run(before)).balance <= MaxMojo by {
        KeptBalance(Run(before), Paid(before));
      }
    }
  }

  lemma KeptBalance(h: Option<Holding>, paid: seq<int>)
    requires Kept(h, paid)
    ensures 0 <= Held(h).balance <= MaxMojo
  {
  }

  /** A purchase weighs its price into the average by its size. */
  lemma PurchaseWeighs(h: Holding, qty: Mojo, price: Mojo)
    requires 0 <= h.balance <= MaxMojo && Added(h, qty, price).Some? && (h.balance == 0 ==> h.cost == 0.0)
    ensures var y := Added(h, qty, price).value;
            && y.balance == h.balance + qty
            && Average(y) * y.balance as real
               == (if h.balance > 0 then Average(h) * h.balance as real else 0.0) + qty as real * AsDouble(price) as real
  {
    hide AsDouble;
    var y := Added(h, qty, price).value;
    DivCancel(y.cost, y.balance as real);
    if h.balance > 0 {
      DivCancel(h.cost, h.balance as real);
    }
  }

  // ---------------------------------------------------------------- the average survives

  lemma SaleKeepsAverage(h: Holding, qty: Mojo)
    requires 0 < qty < h.balance
    ensures Average(Removed(h, qty).value) == Average(h)
    ensures Removed(h, qty).value.cost == h.cost - qty as real * Average(h)
  {
    ScaledKeepsRatio(h.cost, h.balance - qty, h.balance);
    var left := Removed(h, qty).value;
    hide Scaled;
    DivCancel(h.cost, h.balance as real);
    DivCancel(left.cost, left.balance as real);
    assert left.cost == Average(h) * (h.balance - qty) as real;
    assert (h.balance - qty) as real == h.balance as real - qty as real;
  }

  lemma ReconciliationKeepsAverageIff(h: Holding, observed: Mojo)
    requires h.balance > 0 && observed > 0 && observed != h.balance
    ensures Resets(h, observed) <==> Average(h) < 0.0 || Average(h) >= MojoCeiling
    ensures Average(Reconciled(h, observed)) == if Resets(h, observed) then 1.0 else Average(h)
  {
    ScaledKeepsRatio(h.cost, observed, h.balance);
    UnitRatio(observed);
    hide Ratio, Scaled, Round;
  }

  /** Selling in two parts is selling at once. */
  lemma SalesCompose(h: Holding, a: Mojo, b: Mojo)
    requires 0 < a && 0 < b && a + b <= h.balance && a + b <= MaxMojo
    ensures Removed(Removed(h, a).value, b) == Removed(h, a + b)
  {
    var left := Removed(h, a).value;
    assert left.balance == h.balance - a;
    if a + b == h.balance {
      assert Removed(left, b) == Some(Empty);
    } else {
      SaleKeepsAverage(h, a);
      SaleKeepsAverage(Removed(h, a).value, b);
      SaleKeepsAverage(h, a + b);
      var twice, once := Removed(left, b).value, Removed(h, a + b).value;
      hide Scaled, Ratio, Round;
      assert (a + b) as real * Average(h) == a as real * Average(h) + b as real * Average(h);
      hide Average;
      assert twice.cost == once.cost && twice.balance == once.balance;
    }
  }

  /** An observed fall is booked exactly as the sale of the difference, as long as it cannot reset. */
  lemma ObservedFallIsASale(h: Holding, qty: Mojo)
    requires 0 < qty <= h.balance <= MaxMojo && !Resets(h, h.balance - qty)
    ensures Some(Reconciled(h, h.balance - qty)) == Removed(h, qty)
  {
    hide Scaled, Ratio, Round;
  }

  // ---------------------------------------------------------------- the reset

  /** A price whose double is an amount by the rule of to_mojo_checked. */
  predicate Representable(price: int) {
    0 <= price && AsDouble(price) as real < MojoCeiling
  }

  /** That is, neither negative nor within 1535 of two to the 63. */
  lemma RepresentableIff(price: int)
    requires MinMojo <= price <= MaxMojo
    ensures Representable(price) <==> 0 <= price < 9223372036854774273
  {
    hide AsDouble;
    TopDoubles(price);
  }

  lemma NoReset(ops: seq<Op>, observed: Mojo)
    requires forall op :: op in ops && op.Buy? ==> Representable(op.price)
    ensures !Resets(Held(Run(ops)), observed)
  {
    var h := Held(Run(ops));
    RunKeepsBook(ops);
    if observed > 0 && observed != h.balance {
      if h.balance > 0 {
        PaidAreRepresentable(ops);
        BasisIsAFairPrice(ops);
        ReconciliationKeepsAverageIff(h, observed);
        assert Smallest(Paid(ops)) >= 0 && Largest(Paid(ops)) as real < MojoCeiling;
      } else {
        UnitRatio(observed);
      }
    }
  }

  lemma PaidAreRepresentable(ops: seq<Op>)
    requires forall op :: op in ops && op.Buy? ==> Representable(op.price)
    ensures forall p :: p in Paid(ops) ==> 0 <= p && p as real < MojoCeiling
  {
    hide AsDouble, Paid;
    PaidComesFrom(ops);
    forall op | op in ops && op.Buy?
      ensures AsDouble(op.price) >= 0
    {
      DoubleRange(op.price);
    }
  }

  ghost predicate PricesFrom(ops: seq<Op>, prices: iset<int>) {
    forall op :: op in ops && op.Buy? ==> op.price in prices
  }

  ghost predicate CanReset(prices: iset<int>) {
    exists ops: seq<Op>, observed: Mojo :: PricesFrom(ops, prices) && Resets(Held(Run(ops)), observed)
  }

  lemma OnePurchase(p: Mojo)
    ensures Run([Buy(1, p)]) == Some(Holding(1, AsDouble(p) as real, AsDouble(p)))
  {
    hide AsDouble;
    assert [Buy(1, p)][..0] == [];
    DivUnique(AsDouble(p) as real, AsDouble(p) as real, 1.0);
    RoundBetween(AsDouble(p) as real, AsDouble(p), AsDouble(p));
  }

  /** The fall-back to the unit basis is reachable exactly when some price is negative or at least 1535 short
      of two to the 63: its double is then no smaller than the bound of to_mojo_checked. */
  lemma ResetReachableIff(prices: iset<int>)
    requires forall p :: p in prices ==> MinMojo <= p <= MaxMojo
    ensures CanReset(prices) <==> exists p :: p in prices && !(0 <= p < 9223372036854774273)
  {
    hide AsDouble, Run, Resets;
    forall p | p in prices
      ensures Representable(p) <==> 0 <= p < 9223372036854774273
    {
      RepresentableIff(p);
    }
    if CanReset(prices) && forall p :: p in prices ==> Representable(p) {
      var ops: seq<Op>, observed: Mojo :| PricesFrom(ops, prices) && Resets(Held(Run(ops)), observed);
      NoReset(ops, observed);
    }
    if p :| p in prices && !Representable(p) {
      OnePurchaseResets(p);
      assert PricesFrom([Buy(1, p)], prices);
    }
  }

  lemma OnePurchaseResets(p: Mojo)
    requires !Representable(p)
    ensures Resets(Held(Run([Buy(1, p)])), 2)
  {
    hide AsDouble;
    OnePurchase(p);
    DoubleRange(p);
    var h := Held(Run([Buy(1, p)]));
    DivUnique(AsDouble(p) as real, AsDouble(p) as real, 1.0);
    ReconciliationKeepsAverageIff(h, 2);
  }

  // ---------------------------------------------------------------- a basis that is no amount

  ghost predicate CanOverflow(prices: iset<int>) {
    exists ops: seq<Op> ::
      PricesFrom(ops, prices) && Held(Run(ops)).balance > 0 && Held(Run(ops)).basis > MaxMojo
  }

  /** Purchases and sales round the average without that check. The result is out of range, which llround
      leaves unspecified, for some run exactly when some price is at least 512 short of two to the 63. */
  lemma OverflowReachableIff(prices: iset<int>)
    requires forall p :: p in prices ==> MinMojo <= p <= MaxMojo
    ensures CanOverflow(prices) <==> exists p :: p in prices && p >= 9223372036854775296
  {
    hide AsDouble, Run, Paid;
    if CanOverflow(prices) {
      var ops: seq<Op> :|
        PricesFrom(ops, prices) && Held(Run(ops)).balance > 0 && Held(Run(ops)).basis > MaxMojo;
      BasisIsAFairPrice(ops);
      PaidComesFrom(ops);
      PaidAreAmounts(ops);
      var top := Largest(Paid(ops));
      var op :| op in ops && op.Buy? && AsDouble(op.price) == top;
      TopDoubles(op.price);
    }
    if p :| p in prices && p >= 9223372036854775296 {
      TopDoubles(p);
      OnePurchase(p);
      assert PricesFrom([Buy(1, p)], prices);
    }
  }
}
