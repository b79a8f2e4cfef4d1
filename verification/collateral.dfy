/** The figure that guards the project wallet: what every market may still have to pay. */
module Collateral {
  import opened Money
  import opened Sums

  // Database keys: only their equality matters.
  type PollId = nat

  type UserId = nat

  type LeafId = nat

  datatype Side = Yes | No

  datatype TradeStatus = Open | Won | Lost | Cancelled | CashedOut

  /** `Blank` is the empty status of a fresh trade and `NoPayout` the stored word "none". */
  datatype PayoutStatus = Blank | NoPayout | Claimable | ClaimPending | ClaimFailed | PayoutFailed | Submitted | Sent

  /** A stored trade. `paidOut` is an observer the store does not keep: how many transfers of this
      trade's payout have left the wallet and not come back. */
  datatype Trade = Trade(
    user: UserId,
    poll: PollId,
    side: Side,
    amount: nat,
    shares: nat,
    potentialPayout: nat,
    escrow: nat,
    leaf: LeafId,
    status: TradeStatus,
    settlementPayout: nat,
    payoutStatus: PayoutStatus,
    paidOut: nat)

  datatype Market = Market(poll: PollId, yes: int, no: int, refund: int, fixed: int, required: int)

  datatype Requirement = Requirement(markets: seq<Market>, total: int)

  datatype TradeQuote = TradeQuote(poll: PollId, side: Side, amount: int, potentialPayout: int)

  datatype CashoutQuote = CashoutQuote(poll: PollId, side: Side, amount: int, shares: int)

  // ----- Liabilities of one market -----

  function YesOn(p: PollId): Trade -> int
  {
    (t: Trade) => if t.poll == p && t.status.Open? && t.side.Yes? then t.potentialPayout else 0
  }

  function NoOn(p: PollId): Trade -> int
  {
    (t: Trade) => if t.poll == p && t.status.Open? && t.side.No? then t.potentialPayout else 0
  }

  function RefundOn(p: PollId): Trade -> int
  {
    (t: Trade) => if t.poll == p && t.status.Open? then t.amount else 0
  }

  predicate HasFixedPayout(t: Trade)
  {
    t.status in {Won, Cancelled, CashedOut} && t.settlementPayout > 0
  }

  /** Payouts already fixed by a settlement or a cash-out, and not yet marked as sent. */
  function FixedOn(p: PollId): Trade -> int
  {
    (t: Trade) => if t.poll == p && HasFixedPayout(t) && !t.payoutStatus.Sent? then t.settlementPayout else 0
  }

  /** The fixed payouts, and whatever outcome costs most. */
  function CollateralRequired(yes: int, no: int, refund: int, fixed: int): int
  {
    var worst := if yes >= no && yes >= refund then yes else if no >= refund then no else refund;
    (if fixed >= 0 then fixed else 0) + (if worst >= 0 then worst else 0)
  }

  function NewMarket(p: PollId, yes: int, no: int, refund: int, fixed: int): Market
  {
    Market(p, yes, no, refund, fixed, CollateralRequired(yes, no, refund, fixed))
  }

  /** What the trades say about market `p`. */
  function MarketOf(trades: seq<Trade>, p: PollId): Market
  {
    NewMarket(p, Sum(trades, YesOn(p)), Sum(trades, NoOn(p)), Sum(trades, RefundOn(p)), Sum(trades, FixedOn(p)))
  }

  function RequiredOn(trades: seq<Trade>): PollId -> int
  {
    (p: PollId) => MarketOf(trades, p).required
  }

  function TotalRequired(polls: seq<PollId>, trades: seq<Trade>): int
  {
    Sum(polls, RequiredOn(trades))
  }

  ghost predicate Distinct<T(!new)>(xs: seq<T>)
  {
    forall i, j :: 0 <= i < j < |xs| ==> xs[i] != xs[j]
  }

  lemma LiabilitiesNonNegative(trades: seq<Trade>, p: PollId)
    ensures Sum(trades, YesOn(p)) >= 0 && Sum(trades, NoOn(p)) >= 0
    ensures Sum(trades, RefundOn(p)) >= 0 && Sum(trades, FixedOn(p)) >= 0
  {
  }

  /** A market's requirement is the least amount that pays the fixed payouts on top of any one of the
      three outcomes: yes wins, no wins, or everything is refunded. */
  lemma RequirementIsLeast(trades: seq<Trade>, p: PollId, reserve: int)
    ensures MarketOf(trades, p).required <= reserve
            <==> && Sum(trades, FixedOn(p)) + Sum(trades, YesOn(p)) <= reserve
                 && Sum(trades, FixedOn(p)) + Sum(trades, NoOn(p)) <= reserve
                 && Sum(trades, FixedOn(p)) + Sum(trades, RefundOn(p)) <= reserve
  {
    LiabilitiesNonNegative(trades, p);
  }

  // ----- Reports of the whole ledger -----

  predicate Lists(markets: seq<Market>, p: PollId)
  {
    exists i :: 0 <= i < |markets| && markets[i].poll == p
  }

  /** The first position listing `p`, or the length when none does. */
  function IndexOf(markets: seq<Market>, p: PollId): (i: nat)
    ensures i <= |markets|
    ensures i < |markets| ==> markets[i].poll == p
    ensures forall j :: 0 <= j < i ==> markets[j].poll != p
  {
    if |markets| == 0 || markets[0].poll == p then 0 else IndexOf(markets[1..], p) + 1
  }

  /** The figures a report gives for `p`; a market that is not listed requires nothing. */
  function Figures(markets: seq<Market>, p: PollId): Market
  {
    var i := IndexOf(markets, p);
    if i < |markets| then markets[i] else NewMarket(p, 0, 0, 0, 0)
  }

  ghost predicate DistinctMarkets(markets: seq<Market>)
  {
    forall i, j :: 0 <= i < j < |markets| ==> markets[i].poll != markets[j].poll
  }

  /** A report tells the truth about the trades when its total is the required total and it gives the
      right figures for every poll, whether it lists the poll or leaves it out. */
  ghost predicate Agrees(r: Requirement, polls: seq<PollId>, trades: seq<Trade>)
  {
    && r.total == TotalRequired(polls, trades)
    && DistinctMarkets(r.markets)
    && FiguresAre(r.markets, polls, trades)
  }

  lemma IndexOfIsUnique(markets: seq<Market>, i: nat)
    requires DistinctMarkets(markets) && i < |markets|
    ensures IndexOf(markets, markets[i].poll) == i
  {
  }

  lemma FiguresAfterAppend(markets: seq<Market>, m: Market, p: PollId)
    requires !Lists(markets, m.poll)
    ensures Figures(markets + [m], p) == if p == m.poll then m else Figures(markets, p)
  {
    var whole := markets + [m];
    var i, j := IndexOf(markets, p), IndexOf(whole, p);
    if i < |markets| {
      assert whole[i].poll == p;
      assert j <= i;
      assert markets[j].poll == p;
    } else {
      assert p == m.poll ==> whole[|markets|].poll == p;
    }
  }

  lemma FiguresAfterUpdate(markets: seq<Market>, i: nat, m: Market, p: PollId)
    requires DistinctMarkets(markets) && i < |markets| && markets[i].poll == m.poll
    ensures DistinctMarkets(markets[i := m])
    ensures Figures(markets[i := m], p) == if p == m.poll then m else Figures(markets, p)
  {
    var changed := markets[i := m];
    assert forall k :: 0 <= k < |markets| ==> changed[k].poll == markets[k].poll;
    var a, b := IndexOf(markets, p), IndexOf(changed, p);
    assert a < |markets| ==> changed[a].poll == p && b <= a;
    assert b < |markets| ==> markets[b].poll == p && a <= b;
    if p == m.poll {
      IndexOfIsUnique(markets, i);
    }
  }

  ghost predicate FiguresAre(markets: seq<Market>, polls: seq<PollId>, trades: seq<Trade>)
  {
    forall p :: p in polls ==> Figures(markets, p) == MarketOf(trades, p)
  }

  /** The recomputing loop has reported on these polls: every listed market requires something. */
  ghost predicate Reports(found: seq<Market>, total: int, polls: seq<PollId>, trades: seq<Trade>)
  {
    total == TotalRequired(polls, trades) && FiguresAre(found, polls, trades) && ListsOnly(found, polls)
  }

  lemma FigureGrows(found: seq<Market>, polls: seq<PollId>, trades: seq<Trade>, p: PollId, q: PollId)
    requires p !in polls && FiguresAre(found, polls, trades) && (q in polls || q == p)
    requires forall i :: 0 <= i < |found| ==> found[i].poll in polls
    ensures Figures(found + [MarketOf(trades, p)], q) == MarketOf(trades, q)
    ensures q != p || MarketOf(trades, p).required <= 0 ==> Figures(found, q) == MarketOf(trades, q)
  {
    assert !Lists(found, p);
    LiabilitiesNonNegative(trades, p);
    FiguresAfterAppend(found, MarketOf(trades, p), q);
  }

  lemma FiguresGrow(found: seq<Market>, polls: seq<PollId>, trades: seq<Trade>, p: PollId)
    requires p !in polls && FiguresAre(found, polls, trades)
    requires forall i :: 0 <= i < |found| ==> found[i].poll in polls
    ensures MarketOf(trades, p).required <= 0 ==> FiguresAre(found, polls + [p], trades)
    ensures FiguresAre(found + [MarketOf(trades, p)], polls + [p], trades)
  {
    forall q | q in polls + [p]
      ensures Figures(found + [MarketOf(trades, p)], q) == MarketOf(trades, q)
      ensures MarketOf(trades, p).required <= 0 ==> Figures(found, q) == MarketOf(trades, q)
    {
      FigureGrows(found, polls, trades, p, q);
    }
  }

  lemma TotalGrows(polls: seq<PollId>, p: PollId, trades: seq<Trade>)
    ensures TotalRequired(polls + [p], trades) == TotalRequired(polls, trades) + MarketOf(trades, p).required
    ensures MarketOf(trades, p).required >= 0
  {
    SumAppend(polls, p, RequiredOn(trades));
    LiabilitiesNonNegative(trades, p);
  }

  ghost predicate ListsOnly(found: seq<Market>, polls: seq<PollId>)
  {
    DistinctMarkets(found) && forall i :: 0 <= i < |found| ==> found[i].required > 0 && found[i].poll in polls
  }

  lemma ListGrows(found: seq<Market>, polls: seq<PollId>, market: Market)
    requires market.poll !in polls && ListsOnly(found, polls)
    ensures ListsOnly(found, polls + [market.poll])
    ensures market.required > 0 ==> ListsOnly(found + [market], polls + [market.poll])
  {
  }

  /** One turn of the loop: the market joins the report, or it requires nothing. */
  lemma ReportGrows(found: seq<Market>, total: int, polls: seq<PollId>, trades: seq<Trade>, market: Market)
    requires Reports(found, total, polls, trades)
    requires market == MarketOf(trades, market.poll) && market.poll !in polls
    ensures market.required <= 0 ==> Reports(found, total, polls + [market.poll], trades)
    ensures market.required > 0 ==> Reports(found + [market], total + market.required, polls + [market.poll], trades)
  {
    TotalGrows(polls, market.poll, trades);
    ListGrows(found, polls, market);
    FiguresGrow(found, polls, trades, market.poll);
  }

  lemma NotBefore<T(!new)>(xs: seq<T>, k: nat)
    requires Distinct(xs) && k < |xs|
    ensures xs[k] !in xs[..k]
  {
  }

  method FindRequirement(polls: seq<PollId>, trades: seq<Trade>) returns (found: seq<Market>, total: int)
    requires Distinct(polls)
    ensures Reports(found, total, polls, trades)
  {
    found, total := [], 0;
    for k := 0 to |polls|
      invariant Reports(found, total, polls[..k], trades)
    {
      var market := MarketOf(trades, polls[k]);
      NotBefore(polls, k);
      assert polls[..k + 1] == polls[..k] + [polls[k]];
      ReportGrows(found, total, polls[..k], trades, market);
      if market.required <= 0 {
        continue;
      }
      found := found + [market];
      total := total + market.required;
    }
    assert polls[..|polls|] == polls;
  }

  /** Recomputes the report from the stored trades, market by market. */
  method ComputeRequirement(polls: seq<PollId>, trades: seq<Trade>) returns (markets: array<Market>, total: int)
    requires Distinct(polls)
    ensures fresh(markets)
    ensures Agrees(Requirement(markets[..], total), polls, trades)
    ensures forall i :: 0 <= i < markets.Length ==> markets[i].required > 0
  {
    var found;
    found, total := FindRequirement(polls, trades);
    markets := new Market[|found|](i requires 0 <= i < |found| => found[i]);
    assert markets[..] == found;
  }

  // ----- Incremental updates of a report -----

  function AddToMarket(m: Market, quote: TradeQuote): Market
  {
    NewMarket(
      m.poll,
      if quote.side.Yes? then m.yes + quote.potentialPayout else m.yes,
      if quote.side.Yes? then m.no else m.no + quote.potentialPayout,
      m.refund + quote.amount,
      m.fixed)
  }

  /** The report once the quoted trade is added to it. */
  function WithTrade(r: Requirement, quote: TradeQuote): Requirement
  {
    var i := IndexOf(r.markets, quote.poll);
    var markets := if i < |r.markets| then r.markets else r.markets + [NewMarket(quote.poll, 0, 0, 0, 0)];
    var market := AddToMarket(markets[i], quote);
    Requirement(markets[i := market], r.total - markets[i].required + market.required)
  }

  function TakeFromMarket(m: Market, quote: CashoutQuote): Market
  {
    NewMarket(
      m.poll,
      if quote.side.Yes? then Max(0, m.yes - quote.shares) else m.yes,
      if quote.side.Yes? then m.no else Max(0, m.no - quote.shares),
      Max(0, m.refund - quote.amount),
      m.fixed)
  }

  /** The report once the quoted position is taken out of it. */
  function WithoutPosition(r: Requirement, quote: CashoutQuote): Requirement
  {
    var i := IndexOf(r.markets, quote.poll);
    if i == |r.markets| then r else
    var market := TakeFromMarket(r.markets[i], quote);
    Requirement(r.markets[i := market], r.total - r.markets[i].required + market.required)
  }

  /** Works on a copy, so the caller's report survives. */
  method ProjectRequirement(markets: array<Market>, total: int, quote: TradeQuote)
    returns (projected: array<Market>, newTotal: int)
    ensures fresh(projected)
    ensures Requirement(projected[..], newTotal) == WithTrade(Requirement(old(markets[..]), total), quote)
  {
    var index := 0;
    while index < markets.Length && markets[index].poll != quote.poll
      invariant 0 <= index <= markets.Length
      invariant forall j :: 0 <= j < index ==> markets[j].poll != quote.poll
    {
      index := index + 1;
    }
    assert index == IndexOf(markets[..], quote.poll);
    var size := if index < markets.Length then markets.Length else markets.Length + 1;
    projected := new Market[size](i reads markets requires 0 <= i < size =>
      if i < markets.Length then markets[i] else NewMarket(quote.poll, 0, 0, 0, 0));
    ghost var copy := projected[..];
    assert copy == if index < markets.Length then markets[..] else markets[..] + [NewMarket(quote.poll, 0, 0, 0, 0)];
    var market := AddToMarket(projected[index], quote);
    newTotal := total - projected[index].required + market.required;
    projected[index] := market;
    assert projected[..] == copy[index := market];
  }

  /** Works on a copy, so the caller's report survives. */
  method ProjectAfterCashout(markets: array<Market>, total: int, quote: CashoutQuote)
    returns (projected: array<Market>, newTotal: int)
    ensures fresh(projected)
    ensures Requirement(projected[..], newTotal) == WithoutPosition(Requirement(old(markets[..]), total), quote)
  {
    projected := new Market[markets.Length](i reads markets requires 0 <= i < markets.Length => markets[i]);
    assert projected[..] == markets[..];
    newTotal := total;
    for index := 0 to markets.Length
      invariant projected[..] == old(markets[..])
      invariant forall j :: 0 <= j < index ==> markets[j].poll != quote.poll
    {
      if projected[index].poll == quote.poll {
        assert index == IndexOf(markets[..], quote.poll);
        ghost var copy := projected[..];
        var market := TakeFromMarket(projected[index], quote);
        newTotal := total - projected[index].required + market.required;
        projected[index] := market;
        assert projected[..] == copy[index := market];
        return;
      }
    }
    assert IndexOf(markets[..], quote.poll) == markets.Length;
  }

  function Release(before: int, after: int): int
  {
    Max(0, before - after)
  }

  // ----- The incremental figures are the recomputed ones -----

  /** When two lists of trades differ only on poll `p`, so do the markets and the totals. */
  lemma OnlyOnePollChanges(polls: seq<PollId>, trades: seq<Trade>, changed: seq<Trade>, p: PollId)
    requires Distinct(polls) && p in polls
    requires forall q :: q in polls && q != p ==> MarketOf(changed, q) == MarketOf(trades, q)
    ensures TotalRequired(polls, changed)
         == TotalRequired(polls, trades) - MarketOf(trades, p).required + MarketOf(changed, p).required
  {
    forall q | q in polls && q != p ensures RequiredOn(changed)(q) == RequiredOn(trades)(q) {
      assert MarketOf(changed, q) == MarketOf(trades, q);
    }
    SumOneKey(polls, p, RequiredOn(trades), RequiredOn(changed));
  }

  ghost predicate SameElsewhere(trades: seq<Trade>, changed: seq<Trade>, p: PollId)
  {
    && |trades| == |changed|
    && forall i :: 0 <= i < |trades| ==> trades[i] == changed[i] || (trades[i].poll == p && changed[i].poll == p)
  }

  lemma OtherMarketsKeep(trades: seq<Trade>, changed: seq<Trade>, p: PollId, q: PollId)
    requires SameElsewhere(trades, changed, p) && q != p
    ensures MarketOf(changed, q) == MarketOf(trades, q)
  {
    SumSame(trades, YesOn(q), changed, YesOn(q));
    SumSame(trades, NoOn(q), changed, NoOn(q));
    SumSame(trades, RefundOn(q), changed, RefundOn(q));
    SumSame(trades, FixedOn(q), changed, FixedOn(q));
  }

  predicate FreshTrade(t: Trade)
  {
    t.status.Open? && t.payoutStatus.Blank? && t.settlementPayout == 0 && t.paidOut == 0
  }

  function QuoteFor(t: Trade): TradeQuote
  {
    TradeQuote(t.poll, t.side, t.amount, t.potentialPayout)
  }

  lemma MarketAfterTrade(trades: seq<Trade>, t: Trade, q: PollId)
    requires FreshTrade(t)
    ensures MarketOf(trades + [t], q)
         == if q == t.poll then AddToMarket(MarketOf(trades, q), QuoteFor(t)) else MarketOf(trades, q)
  {
  }

  /** The market of a new trade takes its place in the report, listed there before or not. */
  lemma FiguresAfterTrade(r: Requirement, quote: TradeQuote, q: PollId)
    requires DistinctMarkets(r.markets)
    ensures var after := WithTrade(r, quote);
            var market := AddToMarket(Figures(r.markets, quote.poll), quote);
            && DistinctMarkets(after.markets)
            && Figures(after.markets, q) == (if q == quote.poll then market else Figures(r.markets, q))
            && after.total == r.total - Figures(r.markets, quote.poll).required + market.required
  {
    var p := quote.poll;
    var i := IndexOf(r.markets, p);
    var blank := NewMarket(p, 0, 0, 0, 0);
    var markets := if i < |r.markets| then r.markets else r.markets + [blank];
    var market := AddToMarket(markets[i], quote);
    if i == |r.markets| {
      FiguresAfterAppend(r.markets, blank, q);
    }
    FiguresAfterUpdate(markets, i, market, q);
  }

  lemma ProjectedFigures(r: Requirement, polls: seq<PollId>, trades: seq<Trade>, t: Trade, q: PollId)
    requires FreshTrade(t) && DistinctMarkets(r.markets) && FiguresAre(r.markets, polls, trades)
    requires q in polls && t.poll in polls
    ensures Figures(WithTrade(r, QuoteFor(t)).markets, q) == MarketOf(trades + [t], q)
  {
    MarketAfterTrade(trades, t, q);
    FiguresAfterTrade(r, QuoteFor(t), q);
  }

  lemma ProjectedTotal(r: Requirement, polls: seq<PollId>, trades: seq<Trade>, t: Trade)
    requires Distinct(polls) && t.poll in polls && FreshTrade(t)
    requires DistinctMarkets(r.markets) && FiguresAre(r.markets, polls, trades)
    ensures WithTrade(r, QuoteFor(t)).total - r.total
        == TotalRequired(polls, trades + [t]) - TotalRequired(polls, trades)
  {
    forall q | q in polls && q != t.poll ensures MarketOf(trades + [t], q) == MarketOf(trades, q) {
      MarketAfterTrade(trades, t, q);
    }
    MarketAfterTrade(trades, t, t.poll);
    FiguresAfterTrade(r, QuoteFor(t), t.poll);
    OnlyOnePollChanges(polls, trades, trades + [t], t.poll);
  }

  /** Adding a trade to a truthful report gives a truthful report of the ledger with that trade, also
      when the market was left out because it required nothing. */
  lemma ProjectionIsRecompute(r: Requirement, polls: seq<PollId>, trades: seq<Trade>, t: Trade)
    requires Distinct(polls) && t.poll in polls && FreshTrade(t)
    requires Agrees(r, polls, trades)
    ensures Agrees(WithTrade(r, QuoteFor(t)), polls, trades + [t])
  {
    forall q | q in polls ensures Figures(WithTrade(r, QuoteFor(t)).markets, q) == MarketOf(trades + [t], q) {
      ProjectedFigures(r, polls, trades, t, q);
    }
    FiguresAfterTrade(r, QuoteFor(t), t.poll);
    ProjectedTotal(r, polls, trades, t);
  }

  predicate InPosition(t: Trade, user: UserId, poll: PollId, side: Side)
  {
    t.status.Open? && t.user == user && t.poll == poll && t.side == side
  }

  function PositionShares(user: UserId, poll: PollId, side: Side): Trade -> int
  {
    (t: Trade) => if InPosition(t, user, poll, side) then t.shares else 0
  }

  function PositionAmount(user: UserId, poll: PollId, side: Side): Trade -> int
  {
    (t: Trade) => if InPosition(t, user, poll, side) then t.amount else 0
  }

  /** The quote of a full cash-out: everything the user holds on this side. */
  function FullCashout(trades: seq<Trade>, user: UserId, poll: PollId, side: Side): CashoutQuote
  {
    CashoutQuote(poll, side, Sum(trades, PositionAmount(user, poll, side)),
                 Sum(trades, PositionShares(user, poll, side)))
  }

  function CashOutTrade(t: Trade, user: UserId, poll: PollId, side: Side, part: nat, payoutStatus: PayoutStatus,
                        paidOut: nat): Trade
  {
    if InPosition(t, user, poll, side)
    then t.(status := CashedOut, settlementPayout := part, payoutStatus := payoutStatus, paidOut := paidOut)
    else t
  }

  /** The trades after a full cash-out; `parts[i]` is the share of the proceeds recorded on trade `i`. */
  function CashOutTrades(trades: seq<Trade>, user: UserId, poll: PollId, side: Side, parts: seq<nat>,
                         payoutStatus: PayoutStatus, paidOut: nat): (changed: seq<Trade>)
    requires |parts| == |trades|
    ensures |changed| == |trades|
  {
    seq(|trades|, i requires 0 <= i < |trades| =>
        CashOutTrade(trades[i], user, poll, side, parts[i], payoutStatus, paidOut))
  }

  /** Every open trade pays one cent per hundredth of a share. */
  ghost predicate SharesArePayouts(trades: seq<Trade>)
  {
    forall i :: 0 <= i < |trades| && trades[i].status.Open? ==> trades[i].shares == trades[i].potentialPayout
  }

  function SideOn(side: Side, p: PollId): Trade -> int
  {
    if side.Yes? then YesOn(p) else NoOn(p)
  }

  function OtherSide(side: Side): Side
  {
    if side.Yes? then No else Yes
  }

  lemma SideAfterCashout(trades: seq<Trade>, user: UserId, poll: PollId, side: Side, parts: seq<nat>,
                         payoutStatus: PayoutStatus, paidOut: nat)
    requires SharesArePayouts(trades) && |parts| == |trades|
    ensures var changed := CashOutTrades(trades, user, poll, side, parts, payoutStatus, paidOut);
            var shares := Sum(trades, PositionShares(user, poll, side));
            && Sum(changed, SideOn(side, poll)) == Sum(trades, SideOn(side, poll)) - shares
            && Sum(changed, SideOn(OtherSide(side), poll)) == Sum(trades, SideOn(OtherSide(side), poll))
  {
    var changed := CashOutTrades(trades, user, poll, side, parts, payoutStatus, paidOut);
    if side.Yes? {
      SumSplit(trades, YesOn(poll), changed, YesOn(poll), PositionShares(user, poll, side));
      SumSame(trades, NoOn(poll), changed, NoOn(poll));
    } else {
      SumSplit(trades, NoOn(poll), changed, NoOn(poll), PositionShares(user, poll, side));
      SumSame(trades, YesOn(poll), changed, YesOn(poll));
    }
  }

  lemma RefundAfterCashout(trades: seq<Trade>, user: UserId, poll: PollId, side: Side, parts: seq<nat>,
                           payoutStatus: PayoutStatus, paidOut: nat)
    requires |parts| == |trades|
    ensures Sum(CashOutTrades(trades, user, poll, side, parts, payoutStatus, paidOut), RefundOn(poll))
         == Sum(trades, RefundOn(poll)) - Sum(trades, PositionAmount(user, poll, side))
  {
    var changed := CashOutTrades(trades, user, poll, side, parts, payoutStatus, paidOut);
    SumSplit(trades, RefundOn(poll), changed, RefundOn(poll), PositionAmount(user, poll, side));
  }

  lemma MarketAfterSentCashout(trades: seq<Trade>, user: UserId, poll: PollId, side: Side, parts: seq<nat>,
                               paidOut: nat)
    requires SharesArePayouts(trades) && |parts| == |trades|
    ensures MarketOf(CashOutTrades(trades, user, poll, side, parts, Sent, paidOut), poll)
         == TakeFromMarket(MarketOf(trades, poll), FullCashout(trades, user, poll, side))
  {
    var changed := CashOutTrades(trades, user, poll, side, parts, Sent, paidOut);
    SideAfterCashout(trades, user, poll, side, parts, Sent, paidOut);
    RefundAfterCashout(trades, user, poll, side, parts, Sent, paidOut);
    LiabilitiesNonNegative(changed, poll);
    SumSame(trades, FixedOn(poll), changed, FixedOn(poll));
  }

  lemma FiguresAfterCashout(r: Requirement, quote: CashoutQuote, q: PollId)
    requires DistinctMarkets(r.markets)
    ensures var after := WithoutPosition(r, quote);
            var market := TakeFromMarket(Figures(r.markets, quote.poll), quote);
            && DistinctMarkets(after.markets)
            && (Lists(r.markets, quote.poll) ==>
                  && Figures(after.markets, q) == (if q == quote.poll then market else Figures(r.markets, q))
                  && after.total == r.total - Figures(r.markets, quote.poll).required + market.required)
            && (!Lists(r.markets, quote.poll) ==> after == r)
  {
    var i := IndexOf(r.markets, quote.poll);
    if i < |r.markets| {
      FiguresAfterUpdate(r.markets, i, TakeFromMarket(r.markets[i], quote), q);
    }
  }

  lemma MarketsAfterCashout(trades: seq<Trade>, user: UserId, poll: PollId, side: Side, parts: seq<nat>, paidOut: nat,
                            q: PollId)
    requires SharesArePayouts(trades) && |parts| == |trades|
    ensures var changed := CashOutTrades(trades, user, poll, side, parts, Sent, paidOut);
            MarketOf(changed, q)
              == if q == poll then TakeFromMarket(MarketOf(trades, q), FullCashout(trades, user, poll, side))
                 else MarketOf(trades, q)
  {
    if q == poll {
      MarketAfterSentCashout(trades, user, poll, side, parts, paidOut);
    } else {
      OtherMarketsKeep(trades, CashOutTrades(trades, user, poll, side, parts, Sent, paidOut), poll, q);
    }
  }

  /** Nothing is taken from a market that requires nothing. */
  lemma NothingToTake(trades: seq<Trade>, user: UserId, poll: PollId, side: Side)
    requires MarketOf(trades, poll) == NewMarket(poll, 0, 0, 0, 0)
    ensures TakeFromMarket(MarketOf(trades, poll), FullCashout(trades, user, poll, side)) == MarketOf(trades, poll)
  {
    PositionNonNegative(trades, user, poll, side);
  }

  lemma CashoutFigures(r: Requirement, polls: seq<PollId>, trades: seq<Trade>, user: UserId, poll: PollId, side: Side,
                       q: PollId)
    requires DistinctMarkets(r.markets) && FiguresAre(r.markets, polls, trades)
    requires poll in polls && q in polls
    ensures var quote := FullCashout(trades, user, poll, side);
            var after := WithoutPosition(r, quote);
            var market := TakeFromMarket(MarketOf(trades, poll), quote);
            && DistinctMarkets(after.markets)
            && Figures(after.markets, q) == (if q == poll then market else MarketOf(trades, q))
            && after.total == r.total - MarketOf(trades, poll).required + market.required
  {
    FiguresAfterCashout(r, FullCashout(trades, user, poll, side), q);
    if !Lists(r.markets, poll) {
      NothingToTake(trades, user, poll, side);
    }
  }

  /** Taking a full position out of a truthful report gives a truthful report of the ledger in which the
      position is cashed out and its payout is sent; what is released is exactly the drop. */
  lemma CashoutProjectionIsRecompute(r: Requirement, polls: seq<PollId>, trades: seq<Trade>,
                                     user: UserId, poll: PollId, side: Side, parts: seq<nat>, paidOut: nat)
    requires Distinct(polls) && poll in polls && SharesArePayouts(trades) && |parts| == |trades|
    requires Agrees(r, polls, trades)
    ensures var changed := CashOutTrades(trades, user, poll, side, parts, Sent, paidOut);
            var after := WithoutPosition(r, FullCashout(trades, user, poll, side));
            && Agrees(after, polls, changed)
            && TotalRequired(polls, trades) - Release(r.total, after.total) == TotalRequired(polls, changed)
  {
    var changed := CashOutTrades(trades, user, poll, side, parts, Sent, paidOut);
    var after := WithoutPosition(r, FullCashout(trades, user, poll, side));
    forall q | q in polls
      ensures q != poll ==> MarketOf(changed, q) == MarketOf(trades, q)
      ensures Figures(after.markets, q) == MarketOf(changed, q)
    {
      MarketsAfterCashout(trades, user, poll, side, parts, paidOut, q);
      CashoutFigures(r, polls, trades, user, poll, side, q);
    }
    CashoutFigures(r, polls, trades, user, poll, side, poll);
    MarketsAfterCashout(trades, user, poll, side, parts, paidOut, poll);
    OnlyOnePollChanges(polls, trades, changed, poll);
    TakingReleases(trades, user, poll, side);
  }

  lemma TakingReleases(trades: seq<Trade>, user: UserId, poll: PollId, side: Side)
    ensures TakeFromMarket(MarketOf(trades, poll), FullCashout(trades, user, poll, side)).required
         <= MarketOf(trades, poll).required
  {
    PositionNonNegative(trades, user, poll, side);
    LiabilitiesNonNegative(trades, poll);
  }

  lemma PositionNonNegative(trades: seq<Trade>, user: UserId, poll: PollId, side: Side)
    ensures Sum(trades, PositionShares(user, poll, side)) >= 0
    ensures Sum(trades, PositionAmount(user, poll, side)) >= 0
  {
  }
}
