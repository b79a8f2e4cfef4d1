/** A market's money follows its cost: what a run of orders has kept is, to a cent for every order, what the cost has
    risen by, whatever the orders were. So two runs to the same shares keep the same, and a position is bought back for
    what it was sold for. */
module MarketPath {
  import opened BudgetSearch
  import opened Collateral
  import opened MarketMaker
  import opened Sums
  import opened Wrappers

  // ----- What a run keeps -----

  /** Every order of the run is modest, and the doubling reached its amount. */
  ghost predicate AreOrdinary(m: Maker, s: Book, orders: seq<Order>)
    requires m.liquidity > 0.0
    decreases |orders|
  {
    orders != [] ==> IsOrdinary(m, s, orders[0]) && AreOrdinary(m, Next(m, s, orders[0]), orders[1..])
  }

  ghost predicate IsOrdinary(m: Maker, s: Book, order: Order)
    requires m.liquidity > 0.0
  {
    order.Buy? ==>
      && FirstGuess(m.liquidity, Amount(order.amount)) <= SHARE_CAP
      && Reaches(OrderCost(m.cost, s.q, order.side), m.liquidity, Amount(order.amount))
  }

  /** How much more a book has kept than its cost has risen by. */
  function Ahead(m: Maker, s: Book): real
  {
    Amount(s.collected - s.paid) - CostAt(m.cost, s.q)
  }

  ghost predicate IsWithin(x: real, y: real, d: real)
  {
    x - d <= y <= x + d
  }

  /** An ordinary order raises the cost by its amount, to the cent. */
  lemma OrdinaryBuyIsWorthItsAmount(m: Maker, q: Shares, side: Side, amount: nat)
    requires m.liquidity > 0.0 && IsCost(m.cost) && On(q, side) >= 0 && amount > 0
    requires FirstGuess(m.liquidity, Amount(amount)) <= SHARE_CAP
    requires Reaches(OrderCost(m.cost, q, side), m.liquidity, Amount(amount))
    requires QuoteBuy(m, q, side, amount).Ok?
    ensures IsWithin(Amount(amount), CostAt(m.cost, QuoteBuy(m, q, side, amount).value.after) - CostAt(m.cost, q), 0.01)
  {
    var cost, high := OrderCost(m.cost, q, side), Search(m, q, side, amount).high;
    FoundCostsTheAmount(m, q, side, amount);
    NothingCostsNothing(m.cost, q, side);
    FoundBracketsTheBudget(cost, m.liquidity, Amount(amount));
    WidthIsSmall(cost, m.liquidity, Amount(amount));
    RoundedSale(m.cost, q, side, high);
  }

  lemma OrdinaryBuyStaysLevel(m: Maker, q0: Shares, s: Book, user: UserId, side: Side, amount: nat)
    requires m.liquidity > 0.0 && IsCost(m.cost) && q0.yes >= 0 && q0.no >= 0 && Balanced(m, q0, s)
    requires IsOrdinary(m, s, Buy(user, side, amount))
    ensures var after := Next(m, s, Buy(user, side, amount));
            after.steps >= s.steps && IsWithin(Ahead(m, s), Ahead(m, after), 0.01 * (after.steps - s.steps) as real)
  {
    OrdersAreRefusedForTheirPrice(m, s.q, side, amount);
    if QuoteBuy(m, s.q, side, amount).Ok? {
      OutstandingAreNonNegative(m, q0, s, side);
      OrdinaryBuyIsWorthItsAmount(m, s.q, side, amount);
      AmountsAdd(s.collected - s.paid, amount);
    }
  }

  lemma CashoutStaysLevel(m: Maker, q0: Shares, s: Book, user: UserId, side: Side)
    requires m.liquidity > 0.0 && q0.yes >= 0 && q0.no >= 0 && Balanced(m, q0, s)
    ensures var after := Next(m, s, CashOut(user, side));
            after.steps >= s.steps && IsWithin(Ahead(m, s), Ahead(m, after), 0.01 * (after.steps - s.steps) as real)
  {
    var shares := Sum(s.open, SharesOf(user, side));
    PositionIsCovered(s.open, user, side);
    PromisedIsShares(s.open, side);
    if shares > 0 {
      CashoutMovesTheCost(m, s.q, side, shares);
      var worth := CostAt(m.cost, s.q) - CostAt(m.cost, WithOn(s.q, side, On(s.q, side) - shares));
      RoundedIsClose(worth);
      AmountsAdd(s.collected - s.paid, -Rounded(worth));
    }
  }

  /** One step takes the book no further than a cent from its cost. */
  lemma StepStaysLevel(m: Maker, q0: Shares, s: Book, order: Order)
    requires m.liquidity > 0.0 && IsCost(m.cost) && q0.yes >= 0 && q0.no >= 0 && Balanced(m, q0, s)
    requires IsOrdinary(m, s, order)
    ensures var after := Next(m, s, order);
            after.steps >= s.steps && IsWithin(Ahead(m, s), Ahead(m, after), 0.01 * (after.steps - s.steps) as real)
  {
    match order
    case Buy(user, side, amount) => OrdinaryBuyStaysLevel(m, q0, s, user, side, amount);
    case CashOut(user, side) => CashoutStaysLevel(m, q0, s, user, side);
  }

  lemma {:induction false} RunStaysLevel(m: Maker, q0: Shares, s: Book, orders: seq<Order>)
    requires m.liquidity > 0.0 && IsCost(m.cost) && q0.yes >= 0 && q0.no >= 0 && Balanced(m, q0, s)
    requires AreOrdinary(m, s, orders)
    ensures var after := Run(m, s, orders);
            after.steps >= s.steps && IsWithin(Ahead(m, s), Ahead(m, after), 0.01 * (after.steps - s.steps) as real)
    decreases |orders|
  {
    if orders != [] {
      var next := Next(m, s, orders[0]);
      StepStaysLevel(m, q0, s, orders[0]);
      StepStaysBalanced(m, q0, s, orders[0]);
      RunStaysLevel(m, q0, next, orders[1..]);
    }
  }

  /** After any run of ordinary orders the money kept is what the cost has risen by, to a cent for every order. */
  lemma KeptIsTheCost(m: Maker, q0: Shares, orders: seq<Order>, s: Book)
    requires m.liquidity > 0.0 && IsCost(m.cost) && q0.yes >= 0 && q0.no >= 0 && AreOrdinary(m, Opening(q0), orders)
    requires s == Run(m, Opening(q0), orders)
    ensures s.steps <= |orders|
    ensures IsWithin(CostAt(m.cost, s.q) - CostAt(m.cost, q0), Amount(s.collected - s.paid), 0.01 * s.steps as real)
  {
    RunStaysLevel(m, q0, Opening(q0), orders);
    StepsAreOrders(m, Opening(q0), orders);
  }

  /** Two runs that leave the same shares outstanding have kept the same money, to a cent for every order: the order in
      which traders come, and what they buy and give back on the way, does not matter. */
  lemma PathDoesNotMatter(m: Maker, q0: Shares, orders: seq<Order>, others: seq<Order>, s: Book, t: Book)
    requires m.liquidity > 0.0 && IsCost(m.cost) && q0.yes >= 0 && q0.no >= 0
    requires AreOrdinary(m, Opening(q0), orders) && AreOrdinary(m, Opening(q0), others)
    requires s == Run(m, Opening(q0), orders) && t == Run(m, Opening(q0), others) && s.q == t.q
    ensures IsWithin(Amount(t.collected - t.paid), Amount(s.collected - s.paid), 0.01 * (s.steps + t.steps) as real)
  {
    KeptIsTheCost(m, q0, orders, s);
    KeptIsTheCost(m, q0, others, t);
  }

  // ----- A position on the book -----

  lemma {:induction false} StrangersStay(open: seq<Position>, user: UserId, side: Side)
    requires forall i :: 0 <= i < |open| ==> !(open[i].user == user && open[i].side == side)
    ensures Without(open, user, side) == open
    ensures Sum(open, SharesOf(user, side)) == 0 && Sum(open, AmountOf(user, side)) == 0
  {
    if open != [] {
      StrangersStay(open[..|open| - 1], user, side);
      assert open == open[..|open| - 1] + [open[|open| - 1]];
    }
  }

  lemma OwnPositionLeaves(open: seq<Position>, p: Position)
    requires forall i :: 0 <= i < |open| ==> !(open[i].user == p.user && open[i].side == p.side)
    ensures Without(open + [p], p.user, p.side) == open
    ensures Sum(open + [p], SharesOf(p.user, p.side)) == p.shares
    ensures Sum(open + [p], AmountOf(p.user, p.side)) == p.amount
  {
    StrangersStay(open, p.user, p.side);
    SumAppend(open, p, SharesOf(p.user, p.side));
    SumAppend(open, p, AmountOf(p.user, p.side));
    assert (open + [p])[..|open|] == open;
  }

  lemma TwoOrders(m: Maker, s: Book, first: Order, second: Order)
    requires m.liquidity > 0.0
    ensures Run(m, s, [first, second]) == Next(m, Next(m, s, first), second)
  {
    assert [first, second][1..] == [second];
    assert Run(m, Next(m, s, first), [second]) == Run(m, Next(m, Next(m, s, first), second), []);
  }

  /** A user who holds nothing on a side buys and cashes out at once: the book is as it was, and has collected the
      amount and paid it back, or one cent more. */
  lemma PositionIsBoughtBack(m: Maker, q0: Shares, s: Book, user: UserId, side: Side, amount: nat, after: Book)
    requires m.liquidity > 0.0 && IsCost(m.cost) && q0.yes >= 0 && q0.no >= 0 && Balanced(m, q0, s)
    requires IsOrdinary(m, s, Buy(user, side, amount)) && QuoteBuy(m, s.q, side, amount).Ok?
    requires forall i :: 0 <= i < |s.open| ==> !(s.open[i].user == user && s.open[i].side == side)
    requires after == Run(m, s, [Buy(user, side, amount), CashOut(user, side)])
    ensures after.q == s.q && after.open == s.open && after.collected == s.collected + amount
    ensures s.paid + amount <= after.paid <= s.paid + amount + 1
  {
    var buy, quote := Buy(user, side, amount), QuoteBuy(m, s.q, side, amount).value;
    var position := Position(user, side, amount, quote.shares, quote.potentialPayout);
    OrdersAreRefusedForTheirPrice(m, s.q, side, amount);
    OutstandingAreNonNegative(m, q0, s, side);
    NothingCostsNothing(m.cost, s.q, side);
    WidthIsSmall(OrderCost(m.cost, s.q, side), m.liquidity, Amount(amount));
    BuyThenCashOut(m, s.q, side, amount);
    OwnPositionLeaves(s.open, position);
    TwoOrders(m, s, buy, CashOut(user, side));
  }

  // ----- Where a market starts -----

  lemma SameQuotient(a: real, b: real, k: real)
    requires b > 0.0 && k > 0.0
    ensures (a / k) / (b / k) == a / b
  {
    var x, y, z := a / k, b / k, a / b;
    assert x * k == a && y * k == b && z * b == a;
    assert (z * y) * k == z * b == x * k;
    assert z * y == x;
    assert y > 0.0 by {
      QuotientIsPositive(b, k);
    }
  }

  lemma OddsAreTheRatio(percent: int)
    requires 1 <= percent <= 99
    ensures Odds(percent) == percent as real / (100 - percent) as real
  {
    SameQuotient(percent as real, (100 - percent) as real, 100.0);
    assert 1.0 - percent as real / 100.0 == (100 - percent) as real / 100.0;
  }

  /** A market starts as far towards yes as the logarithm of its odds says, to the hundredth of a share; a percentage
      that is not between 1 and 99 starts like the nearest that is. */
  lemma StartsAtTheOdds(log: real -> real, percent: int, liquidity: real)
    ensures var q := InitialShares(log, percent, liquidity);
            var nearest := if percent < 1 then 1 else if percent > 99 then 99 else percent;
            IsWithin(liquidity * log(nearest as real / (100 - nearest) as real), Amount(q.yes - q.no), 0.005)
  {
    var nearest := if percent < 1 then 1 else if percent > 99 then 99 else percent;
    assert Odds(percent) == Odds(nearest);
    OddsAreTheRatio(nearest);
    var distance := liquidity * log(Odds(percent));
    RoundedIsClose(distance);
    RoundedIsClose(-distance);
  }
}
