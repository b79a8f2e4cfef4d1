/** When a claim that is owed can be paid: the guard counts transfers that have left the wallet until they are marked as
    sent, so that such a transfer can hold up a claim that the wallet covers. */
module ClaimPayment {
  import BudgetSearch
  import MarketMaker

  import opened Collateral
  import opened Ledger
  import opened LedgerSafety
  import opened LedgerSolvency
  import opened Money
  import opened Sums
  import opened Wrappers

  /** Payouts whose transfer has left the wallet although they are not marked as sent. */
  function InTransitOn(p: PollId): Trade -> int
  {
    (t: Trade) =>
      if t.poll == p && HasFixedPayout(t) && !t.payoutStatus.Sent? && t.paidOut > 0 then t.settlementPayout else 0
  }

  function InTransit(trades: seq<Trade>): PollId -> int
  {
    (p: PollId) => Sum(trades, InTransitOn(p))
  }

  /** The report requires what is owed and what is in transit, no more and no less. */
  lemma RequiredIsOwedAndInTransit(s: State)
    requires Tracked(s)
    ensures TotalRequired(s.polls, s.trades) == TotalOwed(s.polls, s.trades) + Sum(s.polls, InTransit(s.trades))
  {
    forall p ensures RequiredOn(s.trades)(p) == OwedOn(s.trades)(p) + InTransit(s.trades)(p) {
      RequiredOnOneMarket(s, p);
    }
    SumJoin(s.polls, OwedOn(s.trades), InTransit(s.trades), s.polls, RequiredOn(s.trades));
  }

  lemma RequiredOnOneMarket(s: State, p: PollId)
    requires Tracked(s)
    ensures MarketOf(s.trades, p).required == OwedMarket(s.trades, p) + Sum(s.trades, InTransitOn(p))
  {
    forall i | 0 <= i < |s.trades|
      ensures FixedOn(p)(s.trades[i]) == UnpaidOn(p)(s.trades[i]) + InTransitOn(p)(s.trades[i])
    {
      assert PayoutTracked(s.trades[i], InFlight(s, i), InFlightMoved(s, i));
    }
    SumJoin(s.trades, UnpaidOn(p), InTransitOn(p), s.trades, FixedOn(p));
    SumNonNegative(s.trades, UnpaidOn(p));
    SumNonNegative(s.trades, InTransitOn(p));
  }

  lemma SendGuardCountsTheRequirement(cfg: Config, s: State, k: nat)
    requires cfg.guarantee && Invariant(s)
    requires k < |s.flights| && s.flights[k].phase.Waiting? && s.trades[s.flights[k].trade].settlementPayout > 0
    ensures var rest := TotalRequired(s.polls, s.trades) - s.trades[s.flights[k].trade].settlementPayout;
            && rest >= 0
            && (CanSend(cfg, s, k) <==>
                  s.wallet - s.trades[s.flights[k].trade].settlementPayout >= WithBuffer(rest, cfg.bufferBps))
  {
    var i := s.flights[k].trade;
    SendGuardIsRecompute(cfg, s, k);
    WaitingPayoutIsFixed(s, k);
    SendingReleasesThePayout(s.polls, s.trades, i);
    SumNonNegative(s.polls, RequiredOn(s.trades[i := s.trades[i].(payoutStatus := Sent)]));
  }

  /** With any buffer a waiting claim can be sent exactly when the wallet afterwards holds the reserve of what else is
      owed and of what is in transit. */
  lemma SendGuardCountsTheTransit(cfg: Config, s: State, k: nat)
    requires cfg.guarantee && Invariant(s)
    requires k < |s.flights| && s.flights[k].phase.Waiting? && s.trades[s.flights[k].trade].settlementPayout > 0
    ensures var payout := s.trades[s.flights[k].trade].settlementPayout;
            var counted := TotalOwed(s.polls, s.trades) + Sum(s.polls, InTransit(s.trades));
            && counted >= payout
            && (CanSend(cfg, s, k) <==> s.wallet - payout >= WithBuffer(counted - payout, cfg.bufferBps))
  {
    SendGuardCountsTheRequirement(cfg, s, k);
    RequiredIsOwedAndInTransit(s);
  }

  lemma NoBuffer(required: int)
    ensures WithBuffer(required, 0) == Max(0, required)
  {
  }

  /** Without a buffer a waiting claim can be sent exactly when the wallet covers what is owed and what is in
      transit. */
  lemma SendNeedsTheTransit(cfg: Config, s: State, k: nat)
    requires cfg.guarantee && cfg.bufferBps == 0 && Invariant(s)
    requires k < |s.flights| && s.flights[k].phase.Waiting? && s.trades[s.flights[k].trade].settlementPayout > 0
    ensures CanSend(cfg, s, k) <==> s.wallet >= TotalOwed(s.polls, s.trades) + Sum(s.polls, InTransit(s.trades))
  {
    SendGuardCountsTheTransit(cfg, s, k);
    var counted := TotalOwed(s.polls, s.trades) + Sum(s.polls, InTransit(s.trades));
    NoBuffer(counted - s.trades[s.flights[k].trade].settlementPayout);
  }

  /** So after every run with the guarantee on and no buffer, a claim that waits to be sent can be sent if nothing is in
      transit. */
  lemma OwedClaimsCanBeSent(cfg: Config, wallet: nat, steps: seq<Step>, s: State, k: nat)
    requires cfg.guarantee && cfg.bufferBps == 0 && s == Run(cfg, Initial(wallet), steps)
    requires k < |s.flights| && s.flights[k].phase.Waiting?
    requires s.flights[k].trade < |s.trades| && s.trades[s.flights[k].trade].settlementPayout > 0
    requires forall i :: 0 <= i < |s.trades| && s.trades[i].paidOut > 0 ==> s.trades[i].payoutStatus.Sent?
    ensures CanSend(cfg, s, k)
  {
    InitialIsSafe(wallet);
    RunKeepsInvariant(cfg, Initial(wallet), steps);
    RunKeepsSolvent(cfg, Initial(wallet), steps);
    forall p ensures InTransit(s.trades)(p) == 0 {
      ZeroSum(s.trades, InTransitOn(p));
    }
    ZeroSum(s.polls, InTransit(s.trades));
    SendNeedsTheTransit(cfg, s, k);
  }

  // ----- A claim that is owed, covered, and refused -----

  /** What one trade requires on its own. */
  function AloneRequired(t: Trade): int
  {
    if t.status.Open? then Max(t.potentialPayout, t.amount)
    else if HasFixedPayout(t) && !t.payoutStatus.Sent? then t.settlementPayout
    else 0
  }

  lemma OneSum<T>(a: T, weight: T -> int)
    ensures Sum([a], weight) == weight(a)
  {
    assert [a] == [] + [a];
    SumAppend([], a, weight);
  }

  lemma TwoSum<T>(a: T, b: T, weight: T -> int)
    ensures Sum([a, b], weight) == weight(a) + weight(b)
  {
    assert [a, b] == [a] + [b];
    OneSum(a, weight);
    SumAppend([a], b, weight);
  }

  lemma OneTradeRequires(a: Trade)
    ensures TotalRequired([a.poll], [a]) == AloneRequired(a)
  {
    var p := a.poll;
    OneSum<PollId>(p, RequiredOn([a]));
    OneSum(a, YesOn(p));
    OneSum(a, NoOn(p));
    OneSum(a, RefundOn(p));
    OneSum(a, FixedOn(p));
  }

  lemma OneTradeOfTwo(a: Trade, b: Trade, p: PollId)
    requires (a.poll == p) != (b.poll == p)
    ensures MarketOf([a, b], p).required == AloneRequired(if a.poll == p then a else b)
    ensures Sum([a, b], InTransitOn(p)) == InTransitOn(p)(if a.poll == p then a else b)
  {
    TwoSum(a, b, YesOn(p));
    TwoSum(a, b, NoOn(p));
    TwoSum(a, b, RefundOn(p));
    TwoSum(a, b, FixedOn(p));
    TwoSum(a, b, InTransitOn(p));
  }

  lemma TwoTradesRequire(a: Trade, b: Trade)
    requires a.poll != b.poll
    ensures TotalRequired([a.poll, b.poll], [a, b]) == AloneRequired(a) + AloneRequired(b)
    ensures Sum([a.poll, b.poll], InTransit([a, b])) == InTransitOn(a.poll)(a) + InTransitOn(b.poll)(b)
  {
    TwoSum<PollId>(a.poll, b.poll, RequiredOn([a, b]));
    TwoSum<PollId>(a.poll, b.poll, InTransit([a, b]));
    OneTradeOfTwo(a, b, a.poll);
    OneTradeOfTwo(a, b, b.poll);
  }

  predicate IsNewYes(t: Trade)
  {
    FreshTrade(t) && t.side.Yes? && t.amount in ALLOWED_AMOUNTS && t.shares == t.potentialPayout
  }

  /** A yes stake of one of the fixed amounts, for at least as many shares. */
  predicate IsStake(t: Trade)
  {
    IsNewYes(t) && t.shares >= t.amount
  }

  function Staking(t: Trade): Step
  {
    PlaceTrade(t.user, t.poll, t.side, t.amount, t.shares, t.escrow, 0, t.leaf)
  }

  lemma NoFee(amount: nat)
    ensures EscrowTotal(amount, 0) == amount
  {
  }

  lemma ReservedForStakes(cfg: Config, wallet: int, polls: seq<PollId>, trades: seq<Trade>)
    requires cfg.bufferBps == 0 && 0 <= TotalRequired(polls, trades) <= wallet
    ensures Reserved(cfg, wallet, polls, trades)
  {
    NoBuffer(TotalRequired(polls, trades));
  }

  lemma StakeCanBePlaced(cfg: Config, s: State, t: Trade)
    requires cfg.bufferBps == 0 && IsStake(t) && Tradeable(s, t.poll)
    requires t.escrow < |s.deposits| && s.deposits[t.escrow] == t.amount
    requires forall i :: 0 <= i < |s.trades| ==> s.trades[i].escrow != t.escrow
    requires 0 <= TotalRequired(s.polls, s.trades + [t]) <= s.wallet
    ensures CanPlace(cfg, s, t, 0)
  {
    ReservedForStakes(cfg, s.wallet, s.polls, s.trades + [t]);
    NoFee(t.amount);
  }

  lemma PlacedIsTheTrade(t: Trade)
    requires FreshTrade(t) && t.shares == t.potentialPayout
    ensures NewTrade(t.user, t.poll, t.side, t.amount, t.shares, t.escrow, t.leaf) == t
  {
  }

  lemma StakePlaced(cfg: Config, s: State, t: Trade)
    requires IsStake(t) && CanPlace(cfg, s, t, 0)
    ensures Next(cfg, s, Staking(t)) == s.(trades := s.trades + [t])
  {
    PlacedIsTheTrade(t);
  }

  /** The market of `t` is opened, its escrow comes in, and the stake is placed. */
  function Opening(t: Trade): seq<Step>
  {
    [AddPoll(t.poll, Published), Deposit(t.amount), Staking(t)]
  }

  function Ready(s: State, poll: PollId, amount: nat): State
  {
    s.(wallet := s.wallet + amount, polls := s.polls + [poll],
       info := s.info[poll := PollInfo(Published, false, false)],
       deposits := s.deposits + [amount], received := s.received + amount)
  }

  function Opened(s: State, t: Trade): State
  {
    var ready := Ready(s, t.poll, t.amount);
    ready.(trades := ready.trades + [t])
  }

  lemma EscrowPaid(cfg: Config, s: State, poll: PollId, amount: nat)
    requires poll !in s.info
    ensures Next(cfg, Next(cfg, s, AddPoll(poll, Published)), Deposit(amount)) == Ready(s, poll, amount)
  {
  }

  lemma RunThree(cfg: Config, s: State, a: Step, b: Step, c: Step)
    ensures Run(cfg, s, [a, b, c]) == Next(cfg, Next(cfg, Next(cfg, s, a), b), c)
  {
    assert [a, b, c][1..] == [b, c] && [b, c][1..] == [c] && [c][1..] == [];
    assert Run(cfg, Next(cfg, Next(cfg, s, a), b), [c]) == Next(cfg, Next(cfg, Next(cfg, s, a), b), c);
  }

  lemma StakeOpened(cfg: Config, s: State, t: Trade)
    requires cfg.bufferBps == 0 && IsStake(t) && t.poll !in s.info && t.escrow == |s.deposits|
    requires forall i :: 0 <= i < |s.trades| ==> s.trades[i].escrow != t.escrow
    requires 0 <= TotalRequired(s.polls + [t.poll], s.trades + [t]) <= s.wallet + t.amount
    ensures Run(cfg, s, Opening(t)) == Opened(s, t)
  {
    EscrowPaid(cfg, s, t.poll, t.amount);
    StakeCanBePlaced(cfg, Ready(s, t.poll, t.amount), t);
    StakePlaced(cfg, Ready(s, t.poll, t.amount), t);
    RunThree(cfg, s, AddPoll(t.poll, Published), Deposit(t.amount), Staking(t));
  }

  lemma {:induction false} RunConcat(cfg: Config, s: State, steps: seq<Step>, more: seq<Step>)
    ensures Run(cfg, s, steps + more) == Run(cfg, Run(cfg, s, steps), more)
    decreases |steps|
  {
    if steps == [] {
      assert steps + more == more;
    } else {
      assert (steps + more)[1..] == steps[1..] + more;
      RunConcat(cfg, Next(cfg, s, steps[0]), steps[1..], more);
    }
  }

  /** The second position is cashed out with a transfer whose end is not known, the first market is won, and its winner
      reserves the payout. */
  function Endgame(a: Trade, b: Trade, proceeds: nat): seq<Step>
  {
    [CashOut(b.user, b.poll, Yes, proceeds, [0, proceeds], Pending),
     Settle(a.poll, ResolveYes),
     ReservePublic(a.user, 0)]
  }

  function CashedOutStake(b: Trade, proceeds: nat, payoutStatus: PayoutStatus): Trade
  {
    b.(status := CashedOut, settlementPayout := proceeds, payoutStatus := payoutStatus, paidOut := 1)
  }

  function WonStake(a: Trade, payoutStatus: PayoutStatus): Trade
  {
    a.(status := Won, settlementPayout := a.potentialPayout, payoutStatus := payoutStatus)
  }

  lemma TwoParts(x: int, y: int)
    ensures Total([x, y]) == x + y
  {
    assert [x, y][..1] == [x] && [x][..0] == [];
    assert Total([x, y]) == Total([x]) + y;
    assert Total([x]) == Total([]) + x;
  }

  lemma StakeCanBeCashedOut(cfg: Config, s: State, a: Trade, b: Trade, proceeds: nat)
    requires cfg.bufferBps == 0 && IsStake(a) && IsStake(b) && a.poll != b.poll && proceeds > 0
    requires s.trades == [a, b] && s.polls == [a.poll, b.poll] && Tradeable(s, b.poll)
    requires s.wallet - proceeds >= a.shares
    ensures CanCashOut(cfg, s, b.user, b.poll, Yes, proceeds, [0, proceeds])
  {
    var sent := CashedOutStake(b, proceeds, Sent);
    TwoSum(a, b, PositionShares(b.user, b.poll, Yes));
    TwoSum(a, b, PositionAmount(b.user, b.poll, Yes));
    assert PartsOf([a, b], [0, proceeds], b.user, b.poll, Yes) == [0, proceeds];
    TwoParts(0, proceeds);
    assert CashOutTrades([a, b], b.user, b.poll, Yes, [0, proceeds], Sent, 1) == [a, sent];
    TwoTradesRequire(a, sent);
    ReservedForStakes(cfg, s.wallet - proceeds, s.polls, [a, sent]);
  }

  lemma StakeCashedOut(cfg: Config, s: State, a: Trade, b: Trade, proceeds: nat)
    requires IsStake(b) && a.poll != b.poll && s.trades == [a, b]
    requires CanCashOut(cfg, s, b.user, b.poll, Yes, proceeds, [0, proceeds])
    ensures Next(cfg, s, CashOut(b.user, b.poll, Yes, proceeds, [0, proceeds], Pending))
         == s.(wallet := s.wallet - proceeds, trades := [a, CashedOutStake(b, proceeds, Submitted)])
  {
    assert CashOutTrades([a, b], b.user, b.poll, Yes, [0, proceeds], Submitted, 1)
        == [a, CashedOutStake(b, proceeds, Submitted)];
  }

  lemma StakeWon(cfg: Config, s: State, a: Trade, b: Trade)
    requires IsStake(a) && b.poll != a.poll && s.trades == [a, b] && CanSettle(s, a.poll)
    ensures Next(cfg, s, Settle(a.poll, ResolveYes)).trades == [WonStake(a, Claimable), b]
  {
  }

  /** The ledger when both stakes are placed, with no more in the wallet than they require. */
  predicate TwoStakes(s: State, a: Trade, b: Trade)
  {
    && s.trades == [a, b] && s.polls == [a.poll, b.poll] && s.wallet == a.shares + b.shares && s.flights == []
    && Tradeable(s, b.poll) && CanSettle(s, a.poll)
  }

  /** The ledger at the end: the first stake's shares are owed to the winner, and the proceeds are in transit. */
  predicate WinnerWaits(s: State, a: Trade, b: Trade, proceeds: nat)
  {
    && s.trades == [WonStake(a, ClaimPending), CashedOutStake(b, proceeds, Submitted)]
    && s.polls == [a.poll, b.poll] && s.wallet == a.shares + b.shares - proceeds
    && s.flights == [Flight(0, None, Waiting)]
  }

  lemma EndgamePlayed(cfg: Config, s: State, a: Trade, b: Trade, proceeds: nat)
    requires cfg.bufferBps == 0 && IsStake(a) && IsStake(b) && a.poll != b.poll && TwoStakes(s, a, b)
    requires 0 < proceeds <= b.shares
    ensures WinnerWaits(Run(cfg, s, Endgame(a, b, proceeds)), a, b, proceeds)
  {
    var sold := CashedOutStake(b, proceeds, Submitted);
    var out := s.(wallet := s.wallet - proceeds, trades := [a, sold]);
    StakeCanBeCashedOut(cfg, s, a, b, proceeds);
    StakeCashedOut(cfg, s, a, b, proceeds);
    StakeWon(cfg, out, a, sold);
    var steps := Endgame(a, b, proceeds);
    RunThree(cfg, s, steps[0], steps[1], steps[2]);
  }

  /** The first stake is in its market, and the wallet holds what both stakes require but for the second amount. */
  predicate FirstStaked(s: State, a: Trade, b: Trade)
  {
    && s.trades == [a] && s.polls == [a.poll] && s.wallet == a.shares + b.shares - b.amount
    && s.flights == [] && |s.deposits| == 1
    && a.poll in s.info && s.info[a.poll] == PollInfo(Published, false, false)
    && forall p :: p in s.info ==> p == a.poll
  }

  /** What the treasury put in: the stakes' shares beyond their amounts. */
  predicate IsSeed(wallet: nat, a: Trade, b: Trade)
  {
    wallet + a.amount + b.amount == a.shares + b.shares
  }

  lemma FirstStakePlaced(cfg: Config, wallet: nat, a: Trade, b: Trade)
    requires cfg.bufferBps == 0 && IsStake(a) && IsStake(b) && a.escrow == 0 && IsSeed(wallet, a, b)
    ensures FirstStaked(Run(cfg, Initial(wallet), Opening(a)), a, b)
  {
    OneTradeRequires(a);
    var s := Initial(wallet);
    assert s.polls + [a.poll] == [a.poll] && s.trades + [a] == [a];
    StakeOpened(cfg, s, a);
  }

  lemma SecondStakePlaced(cfg: Config, s: State, a: Trade, b: Trade)
    requires cfg.bufferBps == 0 && IsStake(a) && IsStake(b) && a.poll != b.poll && a.escrow == 0 && b.escrow == 1
    requires FirstStaked(s, a, b)
    ensures TwoStakes(Run(cfg, s, Opening(b)), a, b)
  {
    TwoTradesRequire(a, b);
    assert s.polls + [b.poll] == [a.poll, b.poll] && s.trades + [b] == [a, b];
    StakeOpened(cfg, s, b);
  }

  lemma StakesPlaced(cfg: Config, wallet: nat, a: Trade, b: Trade)
    requires cfg.bufferBps == 0 && IsStake(a) && IsStake(b) && a.poll != b.poll && a.escrow == 0 && b.escrow == 1
    requires IsSeed(wallet, a, b)
    ensures TwoStakes(Run(cfg, Initial(wallet), Opening(a) + Opening(b)), a, b)
  {
    FirstStakePlaced(cfg, wallet, a, b);
    SecondStakePlaced(cfg, Run(cfg, Initial(wallet), Opening(a)), a, b);
    RunConcat(cfg, Initial(wallet), Opening(a), Opening(b));
  }

  /** Two stakes in two markets, the second cashed out, the first won. */
  function Story(a: Trade, b: Trade, proceeds: nat): seq<Step>
  {
    Opening(a) + Opening(b) + Endgame(a, b, proceeds)
  }

  lemma StoryTold(cfg: Config, wallet: nat, a: Trade, b: Trade, proceeds: nat)
    requires cfg.bufferBps == 0 && IsStake(a) && IsStake(b) && a.poll != b.poll && a.escrow == 0 && b.escrow == 1
    requires 0 < proceeds <= b.shares && IsSeed(wallet, a, b)
    ensures WinnerWaits(Run(cfg, Initial(wallet), Story(a, b, proceeds)), a, b, proceeds)
  {
    StakesPlaced(cfg, wallet, a, b);
    EndgamePlayed(cfg, Run(cfg, Initial(wallet), Opening(a) + Opening(b)), a, b, proceeds);
    RunConcat(cfg, Initial(wallet), Opening(a) + Opening(b), Endgame(a, b, proceeds));
  }

  lemma WinnerIsOwed(cfg: Config, s: State, a: Trade, b: Trade, proceeds: nat)
    requires cfg.guarantee && cfg.bufferBps == 0 && Invariant(s)
    requires IsStake(a) && IsStake(b) && a.poll != b.poll && proceeds > 0 && WinnerWaits(s, a, b, proceeds)
    ensures TotalOwed(s.polls, s.trades) == a.shares
    ensures CanSend(cfg, s, 0) <==> b.shares >= 2 * proceeds
  {
    TwoTradesRequire(WonStake(a, ClaimPending), CashedOutStake(b, proceeds, Submitted));
    RequiredIsOwedAndInTransit(s);
    SendNeedsTheTransit(cfg, s, 0);
  }

  /** After this run the winner's shares are all that is owed, and the wallet covers them; yet the claim can be sent
      exactly when the cash-out that has left the wallet without being marked as sent returned no more than half a unit
      per share. */
  lemma CoveredClaimIsRefused(cfg: Config, wallet: nat, a: Trade, b: Trade, proceeds: nat, s: State)
    requires cfg.guarantee && cfg.bufferBps == 0 && 0 < proceeds <= b.shares && IsSeed(wallet, a, b)
    requires IsStake(a) && IsStake(b) && a.poll != b.poll && a.escrow == 0 && b.escrow == 1
    requires s == Run(cfg, Initial(wallet), Story(a, b, proceeds))
    ensures |s.flights| == 1 && s.flights[0].phase.Waiting?
    ensures TotalOwed(s.polls, s.trades) == a.shares <= s.wallet
    ensures CanSend(cfg, s, 0) <==> b.shares >= 2 * proceeds
  {
    StoryTold(cfg, wallet, a, b, proceeds);
    InitialIsSafe(wallet);
    RunKeepsInvariant(cfg, Initial(wallet), Story(a, b, proceeds));
    WinnerIsOwed(cfg, s, a, b, proceeds);
  }

  // ----- The same run at quoted figures -----

  /** The market maker sells these shares for this amount, in a market whose search is complete. */
  ghost predicate IsQuoted(m: MarketMaker.Maker, q: MarketMaker.Shares, t: Trade)
  {
    && m.liquidity > 0.0 && MarketMaker.IsCost(m.cost) && q.yes >= 0
    && BudgetSearch.Reaches(MarketMaker.OrderCost(m.cost, q, Yes), m.liquidity, MarketMaker.Amount(t.amount))
    && var quote, search := MarketMaker.QuoteBuy(m, q, Yes, t.amount), MarketMaker.Search(m, q, Yes, t.amount);
       search.high - search.low < 0.005 && quote.Ok? && quote.value.shares == t.shares
  }

  lemma QuotedIsStake(m: MarketMaker.Maker, q: MarketMaker.Shares, t: Trade)
    requires IsNewYes(t) && IsQuoted(m, q, t)
    ensures IsStake(t)
    ensures var sale := MarketMaker.RoundTrip(m, q, Yes, t.amount);
            sale.Ok? && t.amount <= sale.value.proceeds <= t.amount + 1 && sale.value.proceeds <= t.shares
  {
    assert t.amount > 0;
    MarketMaker.BuyThenCashOut(m, q, Yes, t.amount);
    MarketMaker.ProceedsAreCovered(m, q, Yes, t.amount);
  }

  /** Two new trades in two markets that quote them, and what the second market returns for its position. */
  ghost predicate AreQuoted(ma: MarketMaker.Maker, qa: MarketMaker.Shares, a: Trade,
                            mb: MarketMaker.Maker, qb: MarketMaker.Shares, b: Trade, proceeds: nat)
  {
    && IsNewYes(a) && IsNewYes(b) && a.poll != b.poll && a.escrow == 0 && b.escrow == 1
    && IsQuoted(ma, qa, a) && IsQuoted(mb, qb, b)
    && MarketMaker.RoundTrip(mb, qb, Yes, b.amount) == Ok(MarketMaker.SaleQuote(proceeds, qb))
  }

  /** Whatever markets quote the two stakes, if the second is cashed out for what its market returns, the claim that the
      wallet covers is sent exactly when the second position holds two shares or more for each unit it returned. */
  lemma QuotedClaimIsRefused(cfg: Config, ma: MarketMaker.Maker, qa: MarketMaker.Shares, a: Trade,
                             mb: MarketMaker.Maker, qb: MarketMaker.Shares, b: Trade,
                             proceeds: nat, wallet: nat, s: State)
    requires cfg.guarantee && cfg.bufferBps == 0
    requires AreQuoted(ma, qa, a, mb, qb, b, proceeds) && IsSeed(wallet, a, b)
    requires s == Run(cfg, Initial(wallet), Story(a, b, proceeds))
    ensures b.amount <= proceeds <= b.amount + 1
    ensures |s.flights| == 1 && s.flights[0].phase.Waiting?
    ensures TotalOwed(s.polls, s.trades) == a.shares <= s.wallet
    ensures CanSend(cfg, s, 0) <==> b.shares >= 2 * proceeds
  {
    QuotedIsStake(ma, qa, a);
    QuotedIsStake(mb, qb, b);
    CoveredClaimIsRefused(cfg, wallet, a, b, proceeds, s);
  }

  /** So it is refused in every market that sells above fifty cents on average: where one hundredth less than two shares
      per unit already costs the stake. */
  lemma AboveHalfIsRefused(cfg: Config, ma: MarketMaker.Maker, qa: MarketMaker.Shares, a: Trade,
                           mb: MarketMaker.Maker, qb: MarketMaker.Shares, b: Trade,
                           proceeds: nat, wallet: nat, s: State)
    requires cfg.guarantee && cfg.bufferBps == 0
    requires AreQuoted(ma, qa, a, mb, qb, b, proceeds) && IsSeed(wallet, a, b)
    requires s == Run(cfg, Initial(wallet), Story(a, b, proceeds))
    requires MarketMaker.OrderCost(mb.cost, qb, Yes)(MarketMaker.Amount(2 * b.amount - 1))
          >= MarketMaker.Amount(b.amount)
    ensures TotalOwed(s.polls, s.trades) == a.shares <= s.wallet
    ensures !CanSend(cfg, s, 0)
  {
    QuotedClaimIsRefused(cfg, ma, qa, a, mb, qb, b, proceeds, wallet, s);
    MarketMaker.SharesAreNoMore(mb, qb, Yes, b.amount, 2 * b.amount - 1);
  }
}
