/** The search for the number of shares that a budget buys: doubling until the cost reaches the budget, then halving
    the interval a fixed number of times. It works on any function from shares to their cost. */
module BudgetSearch {
  import opened Arithmetic

  const SHARE_CAP: real := 1000000000.0

  const HALVINGS: nat := 80

  const MIN_PRICE: real := 0.01

  function Larger(a: real, b: real): real
  {
    if a >= b then a else b
  }

  function FirstGuess(liquidity: real, amount: real): real
  {
    Larger(amount / MIN_PRICE, amount + liquidity)
  }

  /** Where the doubling ends, and whether it ended at the cap. */
  datatype Start = Start(high: real, capped: bool)

  function Doubled(cost: real -> real, amount: real, high: real): (start: Start)
    requires high > 0.0
    ensures start.high >= high
    ensures if start.capped then start.high > SHARE_CAP && cost(start.high / 2.0) < amount
        else cost(start.high) >= amount
    decreases DoublingsLeft(high)
  {
    if cost(high) >= amount then Start(high, false)
    else if 2.0 * high > SHARE_CAP then Start(2.0 * high, true)
    else
      QuotientHalves(high);
      Doubled(cost, amount, 2.0 * high)
  }

  /** A bound on the doublings that stay below the cap. */
  function DoublingsLeft(high: real): (n: nat)
    requires high > 0.0
    ensures n > 0
  {
    if high <= SHARE_CAP then 1 + (SHARE_CAP / high).Floor else 1
  }

  lemma QuotientHalves(high: real)
    requires 0.0 < high && 2.0 * high <= SHARE_CAP
    ensures DoublingsLeft(2.0 * high) < DoublingsLeft(high)
  {
  }

  datatype Bracket = Bracket(low: real, high: real)

  function Halved(cost: real -> real, amount: real, b: Bracket): Bracket
  {
    var mid := (b.low + b.high) / 2.0;
    if cost(mid) < amount then Bracket(mid, b.high) else Bracket(b.low, mid)
  }

  function Bisected(cost: real -> real, amount: real, b: Bracket, steps: nat): Bracket
    decreases steps, b
  {
    if steps == 0 then b else Halved(cost, amount, Bisected(cost, amount, b, steps - 1))
  }

  function StartOf(cost: real -> real, liquidity: real, amount: real): Start
    requires FirstGuess(liquidity, amount) > 0.0
  {
    Doubled(cost, amount, FirstGuess(liquidity, amount))
  }

  /** The doubling ended at a number of shares that costs the amount, as it always does below the cap. */
  predicate Reaches(cost: real -> real, liquidity: real, amount: real): (reached: bool)
    requires FirstGuess(liquidity, amount) > 0.0
    ensures !StartOf(cost, liquidity, amount).capped ==> reached
  {
    cost(StartOf(cost, liquidity, amount).high) >= amount
  }

  function Found(cost: real -> real, liquidity: real, amount: real): Bracket
    requires FirstGuess(liquidity, amount) > 0.0
  {
    Bisected(cost, amount, Bracket(0.0, StartOf(cost, liquidity, amount).high), HALVINGS)
  }

  /** Doubles until the cost reaches the amount, or the cap is passed. */
  method DoubleUp(cost: real -> real, amount: real, guess: real) returns (start: Start)
    requires guess > 0.0
    ensures start == Doubled(cost, amount, guess)
  {
    var high := guess;
    while cost(high) < amount
      invariant high > 0.0
      invariant Doubled(cost, amount, high) == Doubled(cost, amount, guess)
      decreases DoublingsLeft(high)
    {
      if 2.0 * high > SHARE_CAP {
        return Start(2.0 * high, true);
      }
      QuotientHalves(high);
      high := high * 2.0;
    }
    return Start(high, false);
  }

  /** The search itself; `low` is the lower end of the interval that is left. */
  method SharesForBudget(cost: real -> real, liquidity: real, amount: real) returns (high: real, low: real)
    requires FirstGuess(liquidity, amount) > 0.0
    ensures Bracket(low, high) == Found(cost, liquidity, amount)
  {
    var start := DoubleUp(cost, amount, FirstGuess(liquidity, amount));
    low, high := 0.0, start.high;
    for i := 0 to HALVINGS
      invariant Bracket(low, high) == Bisected(cost, amount, Bracket(0.0, start.high), i)
    {
      var mid := (low + high) / 2.0;
      if cost(mid) < amount {
        low := mid;
      } else {
        high := mid;
      }
    }
  }

  // ----- What the search finds -----

  /** A width after it has been halved `n` times. */
  function HalvedTimes(width: real, n: nat): real
  {
    if n == 0 then width else HalvedTimes(width, n - 1) / 2.0
  }

  lemma {:induction false} HalvedIsQuotient(width: real, n: nat)
    ensures HalvedTimes(width, n) * (Pow(2, n) as real) == width
  {
    if n > 0 {
      HalvedIsQuotient(width, n - 1);
      DoubleAndHalf(HalvedTimes(width, n - 1), Pow(2, n - 1) as real);
    }
  }

  lemma DoubleAndHalf(x: real, y: real)
    ensures (x / 2.0) * (2.0 * y) == x * y
  {
  }

  lemma {:induction false} BisectionBrackets(cost: real -> real, amount: real, b: Bracket, steps: nat)
    requires b.low < b.high
    ensures var r := Bisected(cost, amount, b, steps);
      && b.low <= r.low < r.high <= b.high
      && r.high - r.low == HalvedTimes(b.high - b.low, steps)
      && (cost(b.low) < amount ==> cost(r.low) < amount)
      && (cost(b.high) >= amount ==> cost(r.high) >= amount)
  {
    if steps > 0 {
      BisectionBrackets(cost, amount, b, steps - 1);
    }
  }

  ghost predicate NonDecreasing(cost: real -> real)
  {
    forall x, y :: x <= y ==> cost(x) <= cost(y)
  }

  /** The shares found cost at least the budget if the doubling reached it, and exceed by no more than the final width a
      number that costs less. */
  lemma FoundBracketsTheBudget(cost: real -> real, liquidity: real, amount: real)
    requires FirstGuess(liquidity, amount) > 0.0 && cost(0.0) < amount
    ensures var start, found := StartOf(cost, liquidity, amount), Found(cost, liquidity, amount);
      && 0.0 <= found.low < found.high <= start.high
      && found.high - found.low == HalvedTimes(start.high, HALVINGS)
      && cost(found.low) < amount
      && (Reaches(cost, liquidity, amount) ==> cost(found.high) >= amount)
  {
    var start := StartOf(cost, liquidity, amount);
    var b := Bracket(0.0, start.high);
    BisectionBrackets(cost, amount, b, HALVINGS);
  }

  /** For a nondecreasing cost no number of shares up to the lower end reaches the budget, so the shares found exceed
      the least sufficient number by no more than the final width. */
  lemma NothingSmallerSuffices(cost: real -> real, liquidity: real, amount: real, shares: real)
    requires FirstGuess(liquidity, amount) > 0.0 && cost(0.0) < amount && NonDecreasing(cost)
    requires cost(shares) >= amount
    ensures Found(cost, liquidity, amount).low < shares
  {
    FoundBracketsTheBudget(cost, liquidity, amount);
    var low := Found(cost, liquidity, amount).low;
    assert shares <= low ==> cost(shares) <= cost(low);
  }

  lemma HalvingsAreMany()
    ensures Pow(2, HALVINGS) >= 1000000000000
  {
    assert Pow(2, 1) == 2 * Pow(2, 0) == 2;
    PowSum(2, 1, 1);
    PowSum(2, 2, 2);
    PowSum(2, 4, 4);
    PowSum(2, 8, 8);
    PowSum(2, 16, 16);
    PowSum(2, 32, 8);
    assert Pow(2, 40) == 1099511627776;
    PowSum(2, 40, 40);
  }

  lemma HalvedBelowHalfACent(high: real)
    requires high <= 2.0 * SHARE_CAP
    ensures HalvedTimes(high, HALVINGS) < 0.005
  {
    HalvingsAreMany();
    HalvedIsQuotient(high, HALVINGS);
    SmallQuotient(HalvedTimes(high, HALVINGS), Pow(2, HALVINGS) as real);
  }

  lemma SmallQuotient(width: real, n: real)
    requires width * n <= 2.0 * SHARE_CAP && n >= 1000000000000.0
    ensures width < 0.005
  {
  }

  /** When the first guess is below the cap the final width is below half a cent. */
  lemma WidthIsSmall(cost: real -> real, liquidity: real, amount: real)
    requires 0.0 < FirstGuess(liquidity, amount) <= SHARE_CAP && cost(0.0) < amount
    ensures Found(cost, liquidity, amount).high - Found(cost, liquidity, amount).low < 0.005
  {
    FoundBracketsTheBudget(cost, liquidity, amount);
    StartIsNearTheCap(cost, amount, FirstGuess(liquidity, amount));
    HalvedBelowHalfACent(StartOf(cost, liquidity, amount).high);
  }

  lemma {:induction false} StartIsNearTheCap(cost: real -> real, amount: real, high: real)
    requires 0.0 < high <= SHARE_CAP
    ensures Doubled(cost, amount, high).high <= 2.0 * SHARE_CAP
    decreases DoublingsLeft(high)
  {
    if cost(high) < amount && 2.0 * high <= SHARE_CAP {
      QuotientHalves(high);
      StartIsNearTheCap(cost, amount, 2.0 * high);
    }
  }

  /** A share costs a cent or more. */
  ghost predicate CostsACent(cost: real -> real)
  {
    forall x :: x >= 0.0 ==> cost(x) >= x / 100.0
  }

  /** The cost is behind the shares by no more than the gap. */
  ghost predicate LagsBy(cost: real -> real, gap: real)
  {
    forall x :: x >= 0.0 ==> cost(x) >= x - gap
  }

  /** The first guess is enough for a cost of a cent or more a share, and for one that lags behind the shares by no more
      than the liquidity: the search starts at a hundred shares for each unit of the amount, or at the amount and the
      liquidity together, whichever is more. */
  lemma FirstGuessSuffices(cost: real -> real, liquidity: real, amount: real)
    requires amount > 0.0 && liquidity > 0.0
    requires CostsACent(cost) || LagsBy(cost, liquidity)
    ensures FirstGuess(liquidity, amount) > 0.0
    ensures var most := if 100.0 * amount >= amount + liquidity then 100.0 * amount else amount + liquidity;
            StartOf(cost, liquidity, amount) == Start(most, false)
  {
  }

  // ----- When the doubling is cut off -----

  /** A guess after it has been doubled `n` times. */
  function DoubledTimes(guess: real, n: nat): (high: real)
    requires guess > 0.0
    ensures high >= guess
    decreases n
  {
    if n == 0 then guess else DoubledTimes(2.0 * guess, n - 1)
  }

  ghost predicate AllBelow(cost: real -> real, amount: real, bound: real)
  {
    forall x :: x <= bound ==> cost(x) < amount
  }

  /** The doubling ends at the first guess beyond the cap if nothing up to it reaches the budget. */
  lemma {:induction false} DoublesPastTheCap(cost: real -> real, amount: real, guess: real, n: nat)
    requires guess > 0.0 && n > 0
    requires DoubledTimes(guess, n - 1) <= SHARE_CAP < DoubledTimes(guess, n)
    requires AllBelow(cost, amount, DoubledTimes(guess, n))
    ensures Doubled(cost, amount, guess) == Start(DoubledTimes(guess, n), true)
    decreases n
  {
    if n == 1 {
      assert DoubledTimes(guess, 1) == DoubledTimes(2.0 * guess, 0) == 2.0 * guess;
    } else {
      DoublesPastTheCap(cost, amount, 2.0 * guess, n - 1);
    }
  }

  /** If nothing in the interval reaches the budget, the halving leaves its upper end where it is. */
  lemma {:induction false} HalvingKeepsTheUpperEnd(cost: real -> real, amount: real, b: Bracket, steps: nat)
    requires b.low < b.high && AllBelow(cost, amount, b.high)
    ensures Bisected(cost, amount, b, steps).high == b.high
  {
    if steps > 0 {
      HalvingKeepsTheUpperEnd(cost, amount, b, steps - 1);
      BisectionBrackets(cost, amount, b, steps - 1);
    }
  }

  /** A nondecreasing cost that is not reached leaves the search at the last guess of the doubling. */
  lemma UnreachedIsTheLastGuess(cost: real -> real, liquidity: real, amount: real)
    requires FirstGuess(liquidity, amount) > 0.0 && NonDecreasing(cost) && !Reaches(cost, liquidity, amount)
    ensures Found(cost, liquidity, amount).high == StartOf(cost, liquidity, amount).high
  {
    var high := StartOf(cost, liquidity, amount).high;
    forall x | x <= high ensures cost(x) < amount {
      assert cost(x) <= cost(high);
    }
    HalvingKeepsTheUpperEnd(cost, amount, Bracket(0.0, high), HALVINGS);
  }

  /** A cost that lags behind the number of shares by a bounded gap is reached before the cap. */
  lemma CapIsNotReached(cost: real -> real, liquidity: real, amount: real, gap: real)
    requires FirstGuess(liquidity, amount) > 0.0
    requires LagsBy(cost, gap)
    requires amount + gap <= SHARE_CAP / 2.0
    ensures !StartOf(cost, liquidity, amount).capped
  {
  }
}
