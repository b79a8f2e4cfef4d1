/** The market maker. It quotes from a cost function of the shares outstanding; the function is a parameter, of which
    only the bounds matter that every run of trades relies on. */
module MarketMaker {
  import opened BudgetSearch
  import opened Collateral
  import opened Sums
  import opened Wrappers

  type Cost = (real, real) -> real

  /** Never below either coordinate, nondecreasing, and rising by no more than the shares added. */
  ghost predicate IsCost(c: Cost)
  {
    && (forall y, n :: Covers(c, y, n))
    && (forall y, z, n :: RisesInYes(c, y, z, n))
    && (forall y, m, n :: RisesInNo(c, y, m, n))
  }

  ghost predicate Covers(c: Cost, y: real, n: real)
  {
    c(y, n) >= y && c(y, n) >= n
  }

  ghost predicate RisesInYes(c: Cost, y: real, z: real, n: real)
  {
    y <= z ==> c(y, n) <= c(z, n) <= c(y, n) + (z - y)
  }

  ghost predicate RisesInNo(c: Cost, y: real, m: real, n: real)
  {
    m <= n ==> c(y, m) <= c(y, n) <= c(y, m) + (n - m)
  }

  /** The liquidity is what the record holds, or the default when that is not positive. */
  datatype Maker = Maker(cost: Cost, price: Cost, liquidity: real)

  const MAX_PRICE: real := 0.99

  /** Shares outstanding on either side, in hundredths. */
  datatype Shares = Shares(yes: int, no: int)

  function Amount(hundredths: int): real
  {
    hundredths as real / 100.0
  }

  /** Rounding to hundredths, halves away from zero. */
  function Rounded(x: real): int
  {
    if x >= 0.0 then (100.0 * x + 0.5).Floor else -(0.5 - 100.0 * x).Floor
  }

  lemma RoundedIsClose(x: real)
    ensures x - 0.005 <= Amount(Rounded(x)) <= x + 0.005
  {
  }

  lemma RoundedOnGrid(h: int, x: real)
    requires h >= 0 && x >= 0.0
    ensures Rounded(Amount(h)) == h
    ensures Rounded(Amount(h) + x) == h + Rounded(x)
  {
  }

  /** All that matters here of the natural logarithm. */
  ghost predicate IsLog(log: real -> real)
  {
    && (forall x :: x >= 1.0 ==> log(x) >= 0.0)
    && (forall x, y :: x > 0.0 && y > 0.0 && x * y == 1.0 ==> log(x) + log(y) == 0.0)
  }

  function Clamped(x: real, least: real, most: real): real
  {
    if x < least then least else if x > most then most else x
  }

  function Odds(percent: int): (odds: real)
    ensures odds > 0.0
  {
    var probability := Clamped(percent as real / 100.0, MIN_PRICE, MAX_PRICE);
    QuotientIsPositive(probability, 1.0 - probability);
    probability / (1.0 - probability)
  }

  lemma QuotientIsPositive(a: real, b: real)
    requires a > 0.0 && b > 0.0
    ensures a / b > 0.0
  {
    var x := a / b;
    assert x * b == a;
    assert x <= 0.0 ==> x * b <= 0.0;
  }

  /** The shares a market starts with, all on the likelier side. */
  function InitialShares(log: real -> real, percent: int, liquidity: real): (q: Shares)
    ensures q.yes >= 0 && q.no >= 0 && (q.yes == 0 || q.no == 0)
  {
    var distance := liquidity * log(Odds(percent));
    if distance >= 0.0 then Shares(Rounded(distance), 0) else Shares(0, Rounded(-distance))
  }

  lemma OddsAreReciprocal(percent: int)
    ensures Odds(percent) * Odds(100 - percent) == 1.0
    ensures percent >= 50 ==> Odds(percent) >= 1.0
  {
    var p := Clamped(percent as real / 100.0, MIN_PRICE, MAX_PRICE);
    assert Clamped((100 - percent) as real / 100.0, MIN_PRICE, MAX_PRICE) == 1.0 - p;
    Reciprocals(p, 1.0 - p);
  }

  lemma Reciprocals(a: real, b: real)
    requires a > 0.0 && b > 0.0
    ensures (a / b) * (b / a) == 1.0
    ensures a >= b ==> a / b >= 1.0
  {
    var x, y := a / b, b / a;
    assert x * b == a && y * a == b;
    assert (x * y) * a == x * b == a;
    assert x * y == 1.0;
    assert x < 1.0 ==> x * b < 1.0 * b;
  }

  /** The opposite percentage starts with the same shares on the other side; from an even market on they are on the
      yes side. */
  lemma InitialSharesAreMirrored(log: real -> real, percent: int, liquidity: real)
    requires IsLog(log) && liquidity > 0.0
    ensures var q, opposite := InitialShares(log, percent, liquidity), InitialShares(log, 100 - percent, liquidity);
      opposite == Shares(q.no, q.yes)
    ensures percent >= 50 ==> InitialShares(log, percent, liquidity).no == 0
  {
    OddsAreReciprocal(percent);
    var x, y := log(Odds(percent)), log(Odds(100 - percent));
    assert x + y == 0.0;
    assert liquidity * y == -(liquidity * x);
  }

  function CostAt(c: Cost, q: Shares): real
  {
    c(Amount(q.yes), Amount(q.no))
  }

  function CostWith(c: Cost, q: Shares, side: Side, shares: real): real
  {
    if side.Yes? then c(Amount(q.yes) + shares, Amount(q.no)) else c(Amount(q.yes), Amount(q.no) + shares)
  }

  function OrderCost(c: Cost, q: Shares, side: Side): real -> real
  {
    (shares: real) => CostWith(c, q, side, shares) - CostAt(c, q)
  }

  function On(q: Shares, side: Side): int
  {
    if side.Yes? then q.yes else q.no
  }

  function WithOn(q: Shares, side: Side, shares: int): Shares
  {
    if side.Yes? then q.(yes := shares) else q.(no := shares)
  }

  function PriceWith(m: Maker, q: Shares, side: Side, shares: real): real
  {
    if side.Yes? then m.price(Amount(q.yes) + shares, Amount(q.no)) else m.price(Amount(q.yes), Amount(q.no) + shares)
  }

  // ----- Quotes -----

  datatype BuyQuote = BuyQuote(amount: nat, shares: int, potentialPayout: int, after: Shares)

  function Search(m: Maker, q: Shares, side: Side, amount: nat): Bracket
    requires m.liquidity > 0.0
  {
    Found(OrderCost(m.cost, q, side), m.liquidity, Amount(amount))
  }

  /** The quote for an order of `amount` cents. */
  function QuoteBuy(m: Maker, q: Shares, side: Side, amount: nat): Result<BuyQuote, string>
    requires m.liquidity > 0.0
  {
    var shares := Search(m, q, side, amount).high;
    if shares <= 0.0 then Err("unable to quote this order")
    else
      var price := PriceWith(m, q, side, shares);
      if price < MIN_PRICE || price > MAX_PRICE then
        Err("order would push the market outside 1c-99c; use a smaller amount")
      else if Amount(amount) / shares <= 0.0 then Err("unable to quote this order")
      else Ok(BuyQuote(amount, Rounded(shares), Rounded(shares),
                       WithOn(q, side, Rounded(Amount(On(q, side)) + shares))))
  }

  datatype SaleQuote = SaleQuote(proceeds: int, after: Shares)

  /** The quote for giving back `shares` hundredths of a share. */
  function QuoteCashout(m: Maker, q: Shares, side: Side, shares: int): Result<SaleQuote, string>
  {
    if shares <= 0 then Err("no open shares to cash out")
    else
      var left := Larger(0.0, Amount(On(q, side)) - Amount(shares));
      var newCost := if side.Yes? then m.cost(left, Amount(q.no)) else m.cost(Amount(q.yes), left);
      var proceeds := Rounded(CostAt(m.cost, q) - newCost);
      if proceeds <= 0 then Err("cashout has no available payout")
      else Ok(SaleQuote(proceeds, WithOn(q, side, Rounded(left))))
  }

  // ----- One step -----

  lemma NothingCostsNothing(c: Cost, q: Shares, side: Side)
    ensures OrderCost(c, q, side)(0.0) == 0.0
  {
  }

  lemma AddedCost(c: Cost, q: Shares, side: Side, s: real, t: real)
    requires IsCost(c) && s <= t
    ensures OrderCost(c, q, side)(s) <= OrderCost(c, q, side)(t) <= OrderCost(c, q, side)(s) + (t - s)
  {
    if side.Yes? {
      assert RisesInYes(c, Amount(q.yes) + s, Amount(q.yes) + t, Amount(q.no));
    } else {
      assert RisesInNo(c, Amount(q.yes), Amount(q.no) + s, Amount(q.no) + t);
    }
  }

  /** The shares found cost at most the final width more than the amount. */
  lemma FoundCostsTheAmount(m: Maker, q: Shares, side: Side, amount: nat)
    requires m.liquidity > 0.0 && IsCost(m.cost) && amount > 0
    ensures var search := Search(m, q, side, amount);
      0.0 <= search.low < search.high
      && OrderCost(m.cost, q, side)(search.high) <= Amount(amount) + (search.high - search.low)
  {
    var search := Search(m, q, side, amount);
    NothingCostsNothing(m.cost, q, side);
    FoundBracketsTheBudget(OrderCost(m.cost, q, side), m.liquidity, Amount(amount));
    AddedCost(m.cost, q, side, search.low, search.high);
  }

  /** Selling shares, rounded to hundredths, moves the cost by what they cost, but for half a cent. */
  lemma RoundedSale(c: Cost, q: Shares, side: Side, shares: real)
    requires IsCost(c) && On(q, side) >= 0 && shares >= 0.0
    ensures Rounded(shares) >= 0
    ensures Rounded(Amount(On(q, side)) + shares) == On(q, side) + Rounded(shares)
    ensures var after := WithOn(q, side, On(q, side) + Rounded(shares));
      OrderCost(c, q, side)(shares) - 0.005 <= CostAt(c, after) - CostAt(c, q) <= OrderCost(c, q, side)(shares) + 0.005
  {
    RoundedIsClose(shares);
    RoundedOnGrid(On(q, side), shares);
    RoundedCost(c, q, side, shares, Amount(Rounded(shares)));
    AmountsAdd(On(q, side), Rounded(shares));
  }

  /** What an accepted order does: it adds the shares it sells, which are those the search found, to the hundredth, and
      are worth the amount but for that rounding and the width of the search. It promises one unit for each share. */
  lemma BuyMovesTheCost(m: Maker, q: Shares, side: Side, amount: nat)
    requires m.liquidity > 0.0 && IsCost(m.cost) && On(q, side) >= 0 && amount > 0
    requires QuoteBuy(m, q, side, amount).Ok?
    ensures var quote, search := QuoteBuy(m, q, side, amount).value, Search(m, q, side, amount);
      && quote.amount == amount && quote.potentialPayout == quote.shares >= 0
      && search.high - 0.005 <= Amount(quote.shares) <= search.high + 0.005
      && quote.after == WithOn(q, side, On(q, side) + quote.shares)
      && CostAt(m.cost, quote.after) <= CostAt(m.cost, q) + Amount(amount) + 0.005 + (search.high - search.low)
  {
    FoundCostsTheAmount(m, q, side, amount);
    RoundedSale(m.cost, q, side, Search(m, q, side, amount).high);
    RoundedIsClose(Search(m, q, side, amount).high);
  }

  lemma AmountsAdd(g: int, h: int)
    ensures Amount(g + h) == Amount(g) + Amount(h)
  {
  }

  lemma RoundedCost(c: Cost, q: Shares, side: Side, s: real, t: real)
    requires IsCost(c) && s - 0.005 <= t <= s + 0.005
    ensures OrderCost(c, q, side)(s) - 0.005 <= OrderCost(c, q, side)(t) <= OrderCost(c, q, side)(s) + 0.005
  {
    if s <= t {
      AddedCost(c, q, side, s, t);
    } else {
      AddedCost(c, q, side, t, s);
    }
  }

  lemma LeftOnGrid(held: int, shares: int)
    requires 0 <= shares <= held
    ensures Larger(0.0, Amount(held) - Amount(shares)) == Amount(held - shares)
    ensures Rounded(Larger(0.0, Amount(held) - Amount(shares))) == held - shares
  {
  }

  /** What an accepted cash-out does while the side holds the shares: nothing is clamped, and the proceeds are what the
      cost falls by, but for half a cent. */
  lemma CashoutMovesTheCost(m: Maker, q: Shares, side: Side, shares: int)
    requires 0 < shares <= On(q, side)
    ensures var after := WithOn(q, side, On(q, side) - shares);
      var proceeds := Rounded(CostAt(m.cost, q) - CostAt(m.cost, after));
      && QuoteCashout(m, q, side, shares) ==
           (if proceeds <= 0 then Err("cashout has no available payout") else Ok(SaleQuote(proceeds, after)))
      && CostAt(m.cost, after) <= CostAt(m.cost, q) - Amount(proceeds) + 0.005
  {
    LeftOnGrid(On(q, side), shares);
    RoundedIsClose(CostAt(m.cost, q) - CostAt(m.cost, WithOn(q, side, On(q, side) - shares)));
  }

  lemma SharesAreFound(m: Maker, q: Shares, side: Side, amount: nat)
    requires m.liquidity > 0.0
    ensures Search(m, q, side, amount).high > 0.0
  {
    var cost := OrderCost(m.cost, q, side);
    BisectionBrackets(cost, Amount(amount), Bracket(0.0, StartOf(cost, m.liquidity, Amount(amount)).high), HALVINGS);
  }

  lemma AveragePriceSign(amount: nat, shares: real)
    requires shares > 0.0
    ensures Amount(amount) / shares <= 0.0 <==> amount == 0
  {
    var price := Amount(amount) / shares;
    assert price * shares == Amount(amount);
    assert price <= 0.0 ==> price * shares <= 0.0;
  }

  /** Shares are found for every budget, so an order is refused only when its amount rounds to nothing, or when the
      shares, added to its side, would push the price of yes out of the range from one cent to 99. */
  lemma OrdersAreRefusedForTheirPrice(m: Maker, q: Shares, side: Side, amount: nat)
    requires m.liquidity > 0.0
    ensures var yes, no, bought := Amount(q.yes), Amount(q.no), Search(m, q, side, amount).high;
      var price := if side.Yes? then m.price(yes + bought, no) else m.price(yes, no + bought);
      QuoteBuy(m, q, side, amount).Ok? <==> amount > 0 && 0.01 <= price <= 0.99
  {
    SharesAreFound(m, q, side, amount);
    AveragePriceSign(amount, Search(m, q, side, amount).high);
  }

  // ----- A round trip -----

  /** What buying and then giving back exactly the shares bought returns. */
  function RoundTrip(m: Maker, q: Shares, side: Side, amount: nat): Result<SaleQuote, string>
    requires m.liquidity > 0.0
  {
    var quote := QuoteBuy(m, q, side, amount);
    if quote.Err? then Err(quote.error)
    else QuoteCashout(m, quote.value.after, side, quote.value.shares)
  }

  /** The last guess of the doubling, in whole hundredths of a share. */
  function LastGuess(m: Maker, q: Shares, side: Side, amount: nat): int
    requires m.liquidity > 0.0
  {
    Rounded(StartOf(OrderCost(m.cost, q, side), m.liquidity, Amount(amount)).high)
  }

  /** That guess costs what a sale of the amount less one cent rounds up to, and at least what rounds to one cent. */
  predicate IsPaidBack(m: Maker, q: Shares, side: Side, amount: nat)
    requires m.liquidity > 0.0
  {
    OrderCost(m.cost, q, side)(Amount(LastGuess(m, q, side, amount))) >= Larger(0.005, Amount(amount) - 0.015)
  }

  /** What the shares sold raise the cost by, once they are rounded to hundredths. */
  function SoldWorth(m: Maker, q: Shares, side: Side, amount: nat): real
    requires m.liquidity > 0.0
  {
    OrderCost(m.cost, q, side)(Amount(Rounded(Search(m, q, side, amount).high)))
  }

  function Returned(worth: real, q: Shares): Result<SaleQuote, string>
  {
    if Rounded(worth) <= 0 then Err("cashout has no available payout") else Ok(SaleQuote(Rounded(worth), q))
  }

  lemma ShareIsFound(m: Maker, q: Shares, side: Side, amount: nat)
    requires m.liquidity > 0.0 && IsCost(m.cost) && amount > 0
    ensures Rounded(Search(m, q, side, amount).high) > 0
  {
    var cost, search := OrderCost(m.cost, q, side), Search(m, q, side, amount);
    if Reaches(cost, m.liquidity, Amount(amount)) {
      NothingCostsNothing(m.cost, q, side);
      FoundBracketsTheBudget(cost, m.liquidity, Amount(amount));
      AddedCost(m.cost, q, side, 0.0, search.high);
    } else {
      OrderCostIsNonDecreasing(m.cost, q, side);
      UnreachedIsTheLastGuess(cost, m.liquidity, Amount(amount));
      GuessIsALot(m, q, side, amount);
    }
    RoundedAtLeast(search.high, 1);
  }

  /** The round trip restores the shares outstanding, and returns what the shares sold are worth. */
  lemma RoundTripReturnsTheWorth(m: Maker, q: Shares, side: Side, amount: nat)
    requires m.liquidity > 0.0 && On(q, side) >= 0 && QuoteBuy(m, q, side, amount).Ok?
    requires Rounded(Search(m, q, side, amount).high) > 0
    ensures RoundTrip(m, q, side, amount) == Returned(SoldWorth(m, q, side, amount), q)
  {
    var high := Search(m, q, side, amount).high;
    SharesAreFound(m, q, side, amount);
    RoundedOnGrid(On(q, side), high);
    SoldSharesComeBack(m, q, side, Rounded(high));
  }

  /** What a sale of the shares just bought returns: what they raised the cost by, rounded to the cent. */
  lemma SoldSharesComeBack(m: Maker, q: Shares, side: Side, shares: int)
    requires On(q, side) >= 0 && shares > 0
    ensures QuoteCashout(m, WithOn(q, side, On(q, side) + shares), side, shares)
         == Returned(OrderCost(m.cost, q, side)(Amount(shares)), q)
  {
    var after := WithOn(q, side, On(q, side) + shares);
    AmountsAdd(On(q, side), shares);
    CashoutMovesTheCost(m, after, side, shares);
    assert WithOn(after, side, On(q, side)) == q;
  }

  /** A number rounds to `h` cents or more exactly when it is no more than half a cent short of them. */
  lemma RoundedAtLeast(x: real, h: int)
    requires h > 0
    ensures Rounded(x) >= h <==> x >= Amount(h) - 0.005
  {
  }

  lemma OrderCostIsNonDecreasing(c: Cost, q: Shares, side: Side)
    requires IsCost(c)
    ensures NonDecreasing(OrderCost(c, q, side))
  {
    forall x, y | x <= y ensures OrderCost(c, q, side)(x) <= OrderCost(c, q, side)(y) {
      AddedCost(c, q, side, x, y);
    }
  }

  lemma GuessIsALot(m: Maker, q: Shares, side: Side, amount: nat)
    requires m.liquidity > 0.0 && amount > 0
    ensures StartOf(OrderCost(m.cost, q, side), m.liquidity, Amount(amount)).high >= 1.0
  {
  }

  /** If the doubling reached the budget, the last guess is paid back, and the shares sold are worth the amount. */
  lemma ReachedWorth(m: Maker, q: Shares, side: Side, amount: nat)
    requires m.liquidity > 0.0 && IsCost(m.cost) && amount > 0
    requires Reaches(OrderCost(m.cost, q, side), m.liquidity, Amount(amount))
    requires Search(m, q, side, amount).high - Search(m, q, side, amount).low < 0.005
    ensures IsPaidBack(m, q, side, amount)
    ensures Amount(amount) - 0.005 <= SoldWorth(m, q, side, amount) < Amount(amount) + 0.01
  {
    var cost, search := OrderCost(m.cost, q, side), Search(m, q, side, amount);
    var high := StartOf(cost, m.liquidity, Amount(amount)).high;
    FoundCostsTheAmount(m, q, side, amount);
    NothingCostsNothing(m.cost, q, side);
    FoundBracketsTheBudget(cost, m.liquidity, Amount(amount));
    RoundedIsClose(search.high);
    RoundedCost(m.cost, q, side, search.high, Amount(Rounded(search.high)));
    RoundedIsClose(high);
    RoundedCost(m.cost, q, side, high, Amount(Rounded(high)));
  }

  /** If it did not, the shares sold are the last guess, and worth no more than the amount. */
  lemma CutOffWorth(m: Maker, q: Shares, side: Side, amount: nat)
    requires m.liquidity > 0.0 && IsCost(m.cost)
    requires !Reaches(OrderCost(m.cost, q, side), m.liquidity, Amount(amount))
    ensures SoldWorth(m, q, side, amount) == OrderCost(m.cost, q, side)(Amount(LastGuess(m, q, side, amount)))
    ensures SoldWorth(m, q, side, amount) < Amount(amount) + 0.005
  {
    var cost := OrderCost(m.cost, q, side);
    var high := StartOf(cost, m.liquidity, Amount(amount)).high;
    OrderCostIsNonDecreasing(m.cost, q, side);
    UnreachedIsTheLastGuess(cost, m.liquidity, Amount(amount));
    RoundedIsClose(high);
    RoundedCost(m.cost, q, side, high, Amount(Rounded(high)));
  }

  lemma WorthInCents(worth: real, amount: nat)
    requires amount > 0
    ensures Rounded(worth) >= amount <==> worth >= Amount(amount) - 0.005
    ensures Rounded(worth) <= amount <==> worth < Amount(amount) + 0.005
    ensures Rounded(worth) <= amount + 1 <==> worth < Amount(amount) + 0.015
    ensures Rounded(worth) > 0 && Rounded(worth) >= amount - 1 <==> worth >= Larger(0.005, Amount(amount) - 0.015)
  {
    RoundedAtLeast(worth, 1);
    RoundedAtLeast(worth, amount);
    RoundedAtLeast(worth, amount + 1);
    RoundedAtLeast(worth, amount + 2);
    if amount > 1 {
      RoundedAtLeast(worth, amount - 1);
    }
  }

  /** Buying and then giving back exactly the shares bought restores the shares outstanding and returns the amount to
      the cent, give or take one, exactly when the last guess of the doubling costs enough. When the doubling reached
      the budget the trader never gets back less than was paid. */
  lemma BuyThenCashOut(m: Maker, q: Shares, side: Side, amount: nat)
    requires m.liquidity > 0.0 && IsCost(m.cost) && On(q, side) >= 0 && amount > 0
    requires QuoteBuy(m, q, side, amount).Ok?
    requires Search(m, q, side, amount).high - Search(m, q, side, amount).low < 0.005
    ensures var sale := RoundTrip(m, q, side, amount);
      && (sale.Ok? ==> sale.value.after == q)
      && (sale.Ok? && amount - 1 <= sale.value.proceeds <= amount + 1 <==> IsPaidBack(m, q, side, amount))
      && (Reaches(OrderCost(m.cost, q, side), m.liquidity, Amount(amount)) ==>
            sale.Ok? && amount <= sale.value.proceeds <= amount + 1)
  {
    ShareIsFound(m, q, side, amount);
    RoundTripReturnsTheWorth(m, q, side, amount);
    WorthInCents(SoldWorth(m, q, side, amount), amount);
    if Reaches(OrderCost(m.cost, q, side), m.liquidity, Amount(amount)) {
      ReachedWorth(m, q, side, amount);
    } else {
      CutOffWorth(m, q, side, amount);
    }
  }

  /** Shares are never worth more than a unit each. */
  lemma ProceedsAreCovered(m: Maker, q: Shares, side: Side, amount: nat)
    requires m.liquidity > 0.0 && IsCost(m.cost) && On(q, side) >= 0 && amount > 0
    requires QuoteBuy(m, q, side, amount).Ok? && RoundTrip(m, q, side, amount).Ok?
    ensures RoundTrip(m, q, side, amount).value.proceeds <= QuoteBuy(m, q, side, amount).value.shares
  {
    var shares := Rounded(Search(m, q, side, amount).high);
    ShareIsFound(m, q, side, amount);
    RoundTripReturnsTheWorth(m, q, side, amount);
    NothingCostsNothing(m.cost, q, side);
    AddedCost(m.cost, q, side, 0.0, Amount(shares));
    RoundedAtLeast(SoldWorth(m, q, side, amount), shares + 1);
  }

  /** Shares that cost the amount are never exceeded by those sold, if the search is narrow. */
  lemma SharesAreNoMore(m: Maker, q: Shares, side: Side, amount: nat, enough: int)
    requires m.liquidity > 0.0 && IsCost(m.cost) && amount > 0 && enough > 0
    requires QuoteBuy(m, q, side, amount).Ok?
    requires Search(m, q, side, amount).high - Search(m, q, side, amount).low < 0.005
    requires OrderCost(m.cost, q, side)(Amount(enough)) >= Amount(amount)
    ensures QuoteBuy(m, q, side, amount).value.shares <= enough
  {
    var cost := OrderCost(m.cost, q, side);
    OrderCostIsNonDecreasing(m.cost, q, side);
    NothingCostsNothing(m.cost, q, side);
    NothingSmallerSuffices(cost, m.liquidity, Amount(amount), Amount(enough));
    RoundedAtLeast(Search(m, q, side, amount).high, enough + 1);
  }

  /** A doubling that was cut off sells its last guess, and the trader gets back what that guess is worth: never more
      than was paid, and at most one cent less exactly when the guess costs enough. */
  lemma CutOffRoundTrip(m: Maker, q: Shares, side: Side, amount: nat)
    requires m.liquidity > 0.0 && IsCost(m.cost) && On(q, side) >= 0 && amount > 0
    requires QuoteBuy(m, q, side, amount).Ok?
    requires !Reaches(OrderCost(m.cost, q, side), m.liquidity, Amount(amount))
    ensures var sale := RoundTrip(m, q, side, amount);
      && (sale.Ok? ==> sale.value.after == q && sale.value.proceeds <= amount)
      && (sale.Ok? && sale.value.proceeds >= amount - 1 <==> IsPaidBack(m, q, side, amount))
  {
    ShareIsFound(m, q, side, amount);
    RoundTripReturnsTheWorth(m, q, side, amount);
    WorthInCents(SoldWorth(m, q, side, amount), amount);
    CutOffWorth(m, q, side, amount);
  }

  /** A budget that, with what the cost exceeds the side's shares by, is at most half the cap never reaches the cap; if
      the first guess is below the cap too, the search is as narrow as the round trip asks for. */
  lemma OrdinaryBudgetsAreSearchedFully(m: Maker, q: Shares, side: Side, amount: nat)
    requires m.liquidity > 0.0 && IsCost(m.cost) && amount > 0
    requires Amount(amount) + CostAt(m.cost, q) - Amount(On(q, side)) <= SHARE_CAP / 2.0
    requires FirstGuess(m.liquidity, Amount(amount)) <= SHARE_CAP
    ensures Reaches(OrderCost(m.cost, q, side), m.liquidity, Amount(amount))
    ensures Search(m, q, side, amount).high - Search(m, q, side, amount).low < 0.005
  {
    var cost, gap := OrderCost(m.cost, q, side), CostAt(m.cost, q) - Amount(On(q, side));
    forall x | x >= 0.0 ensures cost(x) >= x - gap {
      SideIsCovered(m.cost, q, side, x);
    }
    CapIsNotReached(cost, m.liquidity, Amount(amount), gap);
    NothingCostsNothing(m.cost, q, side);
    WidthIsSmall(cost, m.liquidity, Amount(amount));
  }

  lemma SideIsCovered(c: Cost, q: Shares, side: Side, shares: real)
    requires IsCost(c)
    ensures CostWith(c, q, side, shares) >= Amount(On(q, side)) + shares
  {
    assert Covers(c, Amount(q.yes) + shares, Amount(q.no));
    assert Covers(c, Amount(q.yes), Amount(q.no) + shares);
  }

  predicate IsCutOff(m: Maker, q: Shares, side: Side, amount: nat)
    requires m.liquidity > 0.0
  {
    var cost := OrderCost(m.cost, q, side);
    cost(StartOf(cost, m.liquidity, Amount(amount)).high) < Amount(amount) - 0.02
  }

  /** If the doubling was cut off more than two cents short of the budget, the round trip loses more than one cent. */
  lemma CutOffBudgetIsLost(m: Maker, q: Shares, side: Side, amount: nat)
    requires m.liquidity > 0.0 && IsCost(m.cost) && On(q, side) >= 0 && amount > 0 && IsCutOff(m, q, side, amount)
    requires QuoteBuy(m, q, side, amount).Ok?
    ensures var sale := RoundTrip(m, q, side, amount);
      sale.Err? || sale.value.proceeds < amount - 1
  {
    var high := StartOf(OrderCost(m.cost, q, side), m.liquidity, Amount(amount)).high;
    RoundedIsClose(high);
    RoundedCost(m.cost, q, side, high, Amount(Rounded(high)));
    CutOffRoundTrip(m, q, side, amount);
  }

  /** A first guess of 50000 shares, doubled fifteen times; fourteen times is below the cap. */
  const DOUBLED: real := 1638400000.0

  /** Every market of liquidity 500 with that many no shares outstanding and no yes shares, whose cost and price are
      those of a balanced market once the yes shares have caught up. */
  ghost predicate CatchesUp(m: Maker)
  {
    && m.liquidity == 500.0 && IsCost(m.cost)
    && m.cost(DOUBLED, DOUBLED) <= DOUBLED + 400.0
    && m.price(DOUBLED, DOUBLED) == 0.5
  }

  lemma CatchingUpIsCheap(m: Maker, q: Shares, x: real)
    requires CatchesUp(m) && q == Shares(0, 163840000000) && x <= DOUBLED
    ensures OrderCost(m.cost, q, Yes)(x) <= 400.0
    ensures PriceWith(m, q, Yes, DOUBLED) == 0.5
  {
    AddedCost(m.cost, q, Yes, x, DOUBLED);
    assert Covers(m.cost, 0.0, DOUBLED);
  }

  lemma CatchingUpIsCutOff(m: Maker, q: Shares, stake: nat)
    requires CatchesUp(m) && q == Shares(0, 163840000000) && stake == 50000
    ensures StartOf(OrderCost(m.cost, q, Yes), m.liquidity, Amount(stake)) == Start(DOUBLED, true)
    ensures OrderCost(m.cost, q, Yes)(DOUBLED) <= 400.0
  {
    var cost, guess := OrderCost(m.cost, q, Yes), FirstGuess(m.liquidity, Amount(stake));
    forall x | x <= DOUBLED ensures cost(x) <= 400.0 {
      CatchingUpIsCheap(m, q, x);
    }
    assert DoubledTimes(50000.0, 14) == 819200000.0;
    assert DoubledTimes(50000.0, 15) == DOUBLED;
    DoublesPastTheCap(cost, Amount(stake), guess, 15);
  }

  /** An order whose doubling was cut off is accepted exactly when the price at the last guess is in range. */
  lemma CutOffIsRefusedForItsPrice(m: Maker, q: Shares, side: Side, amount: nat)
    requires m.liquidity > 0.0 && IsCost(m.cost) && amount > 0
    requires !Reaches(OrderCost(m.cost, q, side), m.liquidity, Amount(amount))
    ensures var high := StartOf(OrderCost(m.cost, q, side), m.liquidity, Amount(amount)).high;
      QuoteBuy(m, q, side, amount).Ok? <==> MIN_PRICE <= PriceWith(m, q, side, high) <= MAX_PRICE
  {
    OrderCostIsNonDecreasing(m.cost, q, side);
    UnreachedIsTheLastGuess(OrderCost(m.cost, q, side), m.liquidity, Amount(amount));
    OrdersAreRefusedForTheirPrice(m, q, side, amount);
  }

  /** It does happen: in such a market a stake of 500 is accepted, and the shares it buys are not bought back for what
      they were sold for. */
  lemma SomeBudgetIsCutOff(m: Maker, q: Shares, stake: nat)
    requires CatchesUp(m) && q == Shares(0, 163840000000) && stake == 50000
    ensures QuoteBuy(m, q, Yes, stake).Ok?
    ensures var sale := RoundTrip(m, q, Yes, stake);
      sale.Err? || sale.value.proceeds < stake - 1
  {
    CatchingUpIsCutOff(m, q, stake);
    CatchingUpIsCheap(m, q, DOUBLED);
    CutOffIsRefusedForItsPrice(m, q, Yes, stake);
    CutOffBudgetIsLost(m, q, Yes, stake);
  }

  // ----- Runs of trades -----

  /** `payout` is what the quote promised if the side wins. */
  datatype Position = Position(user: UserId, side: Side, amount: nat, shares: int, payout: int)

  /** A market's book. `steps` counts the accepted orders, and `width` adds up the widths of their searches. */
  datatype Book = Book(q: Shares, open: seq<Position>, collected: int, paid: int, steps: nat, width: real)

  datatype Order = Buy(user: UserId, side: Side, amount: nat) | CashOut(user: UserId, side: Side)

  function SharesFor(side: Side): Position -> int
  {
    (p: Position) => if p.side == side then p.shares else 0
  }

  function PayoutFor(side: Side): Position -> int
  {
    (p: Position) => if p.side == side then p.payout else 0
  }

  function SharesOf(user: UserId, side: Side): Position -> int
  {
    (p: Position) => if p.user == user && p.side == side then p.shares else 0
  }

  function AmountOf(user: UserId, side: Side): Position -> int
  {
    (p: Position) => if p.user == user && p.side == side then p.amount else 0
  }

  /** The positions that stay open when a user cashes out a side. */
  function Without(open: seq<Position>, user: UserId, side: Side): seq<Position>
  {
    if open == [] then []
    else
      var before, p := Without(open[..|open| - 1], user, side), open[|open| - 1];
      if p.user == user && p.side == side then before else before + [p]
  }

  /** The book with one more position, found by a search of this width. */
  function Bought(s: Book, p: Position, after: Shares, width: real): Book
  {
    s.(q := after, open := s.open + [p], collected := s.collected + p.amount, steps := s.steps + 1,
       width := s.width + width)
  }

  function Next(m: Maker, s: Book, order: Order): Book
    requires m.liquidity > 0.0
  {
    match order
    case Buy(user, side, amount) =>
      var quote := QuoteBuy(m, s.q, side, amount);
      if quote.Err? then s
      else
        var search := Search(m, s.q, side, amount);
        Bought(s, Position(user, side, amount, quote.value.shares, quote.value.potentialPayout), quote.value.after,
               search.high - search.low)
    case CashOut(user, side) =>
      var shares := Sum(s.open, SharesOf(user, side));
      var quote := QuoteCashout(m, s.q, side, shares);
      if shares <= 0 || Sum(s.open, AmountOf(user, side)) <= 0 || quote.Err? then s
      else
        s.(q := quote.value.after, open := Without(s.open, user, side), paid := s.paid + quote.value.proceeds,
           steps := s.steps + 1)
  }

  function Run(m: Maker, s: Book, orders: seq<Order>): Book
    requires m.liquidity > 0.0
    decreases |orders|
  {
    if orders == [] then s else Run(m, Next(m, s, orders[0]), orders[1..])
  }

  function Opening(q: Shares): Book
  {
    Book(q, [], 0, 0, 0, 0.0)
  }

  ghost predicate IsPromised(p: Position)
  {
    p.payout == p.shares >= 0
  }

  ghost predicate ArePromised(open: seq<Position>)
  {
    forall i :: 0 <= i < |open| ==> IsPromised(open[i])
  }

  /** The shares outstanding are the initial ones and those of the open positions, each of which is promised a unit; and
      the cost has risen by no more than the money kept, half a cent per order, and the widths of the searches. */
  ghost predicate Balanced(m: Maker, q0: Shares, s: Book)
  {
    && ArePromised(s.open)
    && s.q.yes == q0.yes + Sum(s.open, SharesFor(Yes))
    && s.q.no == q0.no + Sum(s.open, SharesFor(No))
    && CostAt(m.cost, s.q) <= CostAt(m.cost, q0) + Amount(s.collected - s.paid) + 0.005 * s.steps as real + s.width
  }

  lemma {:induction false} CashoutTakesThePosition(open: seq<Position>, user: UserId, side: Side, other: Side)
    ensures Sum(Without(open, user, side), SharesFor(other))
         == Sum(open, SharesFor(other)) - (if other == side then Sum(open, SharesOf(user, side)) else 0)
  {
    if open != [] {
      var n := |open| - 1;
      var before, p := Without(open[..n], user, side), open[n];
      CashoutTakesThePosition(open[..n], user, side, other);
      if !(p.user == user && p.side == side) {
        SumAppend(before, p, SharesFor(other));
      }
    }
  }

  lemma {:induction false} RemainingArePromised(open: seq<Position>, user: UserId, side: Side)
    requires ArePromised(open)
    ensures ArePromised(Without(open, user, side))
  {
    if open != [] {
      assert IsPromised(open[|open| - 1]);
      RemainingArePromised(open[..|open| - 1], user, side);
    }
  }

  lemma PositionIsCovered(open: seq<Position>, user: UserId, side: Side)
    requires ArePromised(open)
    ensures Sum(open, SharesOf(user, side)) <= Sum(open, SharesFor(side))
  {
  }

  /** What is promised for a side is its shares. */
  lemma PromisedIsShares(open: seq<Position>, side: Side)
    requires ArePromised(open)
    ensures Sum(open, PayoutFor(side)) == Sum(open, SharesFor(side)) >= 0
  {
  }

  lemma PromisedAfterBuy(open: seq<Position>, p: Position, side: Side)
    requires ArePromised(open) && IsPromised(p)
    ensures ArePromised(open + [p])
    ensures Sum(open + [p], SharesFor(side)) == Sum(open, SharesFor(side)) + if p.side == side then p.shares else 0
  {
    SumAppend(open, p, SharesFor(side));
  }

  lemma OutstandingAreNonNegative(m: Maker, q0: Shares, s: Book, side: Side)
    requires q0.yes >= 0 && q0.no >= 0 && Balanced(m, q0, s)
    ensures On(s.q, side) >= 0
  {
    SumNonNegative(s.open, SharesFor(side));
  }

  lemma BuyStaysBalanced(m: Maker, q0: Shares, s: Book, user: UserId, side: Side, amount: nat)
    requires m.liquidity > 0.0 && IsCost(m.cost) && q0.yes >= 0 && q0.no >= 0 && Balanced(m, q0, s)
    ensures Balanced(m, q0, Next(m, s, Buy(user, side, amount)))
  {
    if QuoteBuy(m, s.q, side, amount).Ok? {
      var quote, search := QuoteBuy(m, s.q, side, amount).value, Search(m, s.q, side, amount);
      OrdersAreRefusedForTheirPrice(m, s.q, side, amount);
      OutstandingAreNonNegative(m, q0, s, side);
      BuyMovesTheCost(m, s.q, side, amount);
      BoughtIsBalanced(m, q0, s, Position(user, side, amount, quote.shares, quote.potentialPayout), quote.after,
                       search.high - search.low);
    }
  }

  lemma BoughtIsBalanced(m: Maker, q0: Shares, s: Book, p: Position, after: Shares, width: real)
    requires Balanced(m, q0, s) && IsPromised(p) && after == WithOn(s.q, p.side, On(s.q, p.side) + p.shares)
    requires CostAt(m.cost, after) <= CostAt(m.cost, s.q) + Amount(p.amount) + 0.005 + width
    ensures Balanced(m, q0, Bought(s, p, after, width))
  {
    PromisedAfterBuy(s.open, p, Yes);
    PromisedAfterBuy(s.open, p, No);
    AmountsAdd(s.collected - s.paid, p.amount);
  }

  lemma CashoutStaysBalanced(m: Maker, q0: Shares, s: Book, user: UserId, side: Side)
    requires m.liquidity > 0.0 && q0.yes >= 0 && q0.no >= 0 && Balanced(m, q0, s)
    ensures Balanced(m, q0, Next(m, s, CashOut(user, side)))
  {
    var shares := Sum(s.open, SharesOf(user, side));
    PositionIsCovered(s.open, user, side);
    CashoutTakesThePosition(s.open, user, side, Yes);
    CashoutTakesThePosition(s.open, user, side, No);
    RemainingArePromised(s.open, user, side);
    if shares > 0 {
      CashoutMovesTheCost(m, s.q, side, shares);
    }
  }

  lemma StepStaysBalanced(m: Maker, q0: Shares, s: Book, order: Order)
    requires m.liquidity > 0.0 && IsCost(m.cost) && q0.yes >= 0 && q0.no >= 0 && Balanced(m, q0, s)
    ensures Balanced(m, q0, Next(m, s, order))
  {
    match order
    case Buy(user, side, amount) => BuyStaysBalanced(m, q0, s, user, side, amount);
    case CashOut(user, side) => CashoutStaysBalanced(m, q0, s, user, side);
  }

  lemma {:induction false} RunStaysBalanced(m: Maker, q0: Shares, s: Book, orders: seq<Order>)
    requires m.liquidity > 0.0 && IsCost(m.cost) && q0.yes >= 0 && q0.no >= 0 && Balanced(m, q0, s)
    ensures Balanced(m, q0, Run(m, s, orders))
    decreases |orders|
  {
    if orders != [] {
      StepStaysBalanced(m, q0, s, orders[0]);
      RunStaysBalanced(m, q0, Next(m, s, orders[0]), orders[1..]);
    }
  }

  /** What the open positions were promised, in hundredths, if the worse side for the market maker wins. */
  function WorstPayout(open: seq<Position>): (worst: int)
    ensures worst == Sum(open, PayoutFor(Yes)) || worst == Sum(open, PayoutFor(No))
    ensures forall side: Side :: worst >= Sum(open, PayoutFor(side))
  {
    var yes, no := Sum(open, PayoutFor(Yes)), Sum(open, PayoutFor(No));
    if yes >= no then yes else no
  }

  lemma BalancedLoss(m: Maker, q0: Shares, s: Book, side: Side)
    requires IsCost(m.cost) && q0.yes >= 0 && q0.no >= 0 && Balanced(m, q0, s)
    ensures Amount(Sum(s.open, PayoutFor(side))) - Amount(s.collected - s.paid)
         <= CostAt(m.cost, q0) - Amount(On(q0, side)) + 0.005 * s.steps as real + s.width
  {
    assert Covers(m.cost, Amount(s.q.yes), Amount(s.q.no));
    PromisedIsShares(s.open, side);
    AmountsAdd(On(q0, side), Sum(s.open, SharesFor(side)));
  }

  /** After any run of orders the market maker's loss, were a side to win, is at most what the starting cost exceeds
      that side's initial shares by, half a cent for every order, and the widths of the searches; whichever side wins,
      it is at most the starting cost and those. */
  lemma LossIsBounded(m: Maker, q0: Shares, orders: seq<Order>, s: Book, side: Side)
    requires m.liquidity > 0.0 && IsCost(m.cost) && q0.yes >= 0 && q0.no >= 0 && s == Run(m, Opening(q0), orders)
    ensures Amount(Sum(s.open, PayoutFor(side))) - Amount(s.collected - s.paid)
         <= CostAt(m.cost, q0) - Amount(On(q0, side)) + 0.005 * s.steps as real + s.width
    ensures Amount(WorstPayout(s.open)) - Amount(s.collected - s.paid)
         <= CostAt(m.cost, q0) + 0.005 * s.steps as real + s.width
  {
    RunStaysBalanced(m, q0, Opening(q0), orders);
    BalancedLoss(m, q0, s, side);
    BalancedLoss(m, q0, s, Yes);
    BalancedLoss(m, q0, s, No);
  }

  /** The first guess of every order is below the cap. */
  ghost predicate AreModest(m: Maker, orders: seq<Order>)
  {
    forall i :: 0 <= i < |orders| && orders[i].Buy? ==> FirstGuess(m.liquidity, Amount(orders[i].amount)) <= SHARE_CAP
  }

  lemma StepWidthIsSmall(m: Maker, s: Book, order: Order)
    requires m.liquidity > 0.0 && AreModest(m, [order])
    ensures Next(m, s, order).width - s.width <= 0.005 * (Next(m, s, order).steps - s.steps) as real
  {
    if order.Buy? && QuoteBuy(m, s.q, order.side, order.amount).Ok? {
      assert [order][0] == order;
      OrdersAreRefusedForTheirPrice(m, s.q, order.side, order.amount);
      NothingCostsNothing(m.cost, s.q, order.side);
      WidthIsSmall(OrderCost(m.cost, s.q, order.side), m.liquidity, Amount(order.amount));
    }
  }

  lemma {:induction false} WidthsAreSmall(m: Maker, s: Book, orders: seq<Order>)
    requires m.liquidity > 0.0 && AreModest(m, orders) && s.width <= 0.005 * s.steps as real
    ensures Run(m, s, orders).width <= 0.005 * Run(m, s, orders).steps as real
    decreases |orders|
  {
    if orders != [] {
      StepWidthIsSmall(m, s, orders[0]);
      WidthsAreSmall(m, Next(m, s, orders[0]), orders[1..]);
    }
  }

  lemma {:induction false} StepsAreOrders(m: Maker, s: Book, orders: seq<Order>)
    requires m.liquidity > 0.0
    ensures Run(m, s, orders).steps <= s.steps + |orders|
    decreases |orders|
  {
    if orders != [] {
      StepsAreOrders(m, Next(m, s, orders[0]), orders[1..]);
    }
  }

  /** So with first guesses below the cap the loss, were a side to win, is at most what the starting cost exceeds that
      side's initial shares by, and one cent for every order. */
  lemma LossIsACentPerOrder(m: Maker, q0: Shares, orders: seq<Order>, s: Book, side: Side)
    requires m.liquidity > 0.0 && IsCost(m.cost) && q0.yes >= 0 && q0.no >= 0 && AreModest(m, orders)
    requires s == Run(m, Opening(q0), orders)
    ensures s.steps <= |orders|
    ensures Amount(Sum(s.open, PayoutFor(side))) - Amount(s.collected - s.paid)
         <= CostAt(m.cost, q0) - Amount(On(q0, side)) + 0.01 * s.steps as real
  {
    WidthsAreSmall(m, Opening(q0), orders);
    StepsAreOrders(m, Opening(q0), orders);
    LossIsBounded(m, q0, orders, s, side);
  }

  /** In every run in which the market holds, with the starting cost and a cent per order, less than half the cap, an
      accepted order is never cut off: its round trip returns the amount or one cent more. */
  lemma RoundTripInEveryRun(m: Maker, q0: Shares, orders: seq<Order>, s: Book, side: Side, amount: nat)
    requires m.liquidity > 0.0 && IsCost(m.cost) && q0.yes >= 0 && q0.no >= 0 && AreModest(m, orders)
    requires s == Run(m, Opening(q0), orders)
    requires FirstGuess(m.liquidity, Amount(amount)) <= SHARE_CAP
    requires Amount(amount) + CostAt(m.cost, q0) + Amount(s.collected - s.paid) + 0.01 * s.steps as real
        <= SHARE_CAP / 2.0
    requires QuoteBuy(m, s.q, side, amount).Ok?
    ensures var sale := RoundTrip(m, s.q, side, amount);
      sale.Ok? && sale.value.after == s.q && amount <= sale.value.proceeds <= amount + 1
  {
    RunStaysBalanced(m, q0, Opening(q0), orders);
    WidthsAreSmall(m, Opening(q0), orders);
    OutstandingAreNonNegative(m, q0, s, side);
    OrdersAreRefusedForTheirPrice(m, s.q, side, amount);
    OrdinaryBudgetsAreSearchedFully(m, s.q, side, amount);
    BuyThenCashOut(m, s.q, side, amount);
  }

  /** In every run a cash-out leaves the other shares of its side outstanding: the clamp at zero never takes effect. */
  lemma ClampNeverFires(m: Maker, q0: Shares, orders: seq<Order>, user: UserId, side: Side)
    requires m.liquidity > 0.0 && IsCost(m.cost) && q0.yes >= 0 && q0.no >= 0
    ensures var s := Run(m, Opening(q0), orders);
      Sum(s.open, SharesOf(user, side)) <= On(s.q, side) - On(q0, side)
  {
    RunStaysBalanced(m, q0, Opening(q0), orders);
    PositionIsCovered(Run(m, Opening(q0), orders).open, user, side);
  }
}
