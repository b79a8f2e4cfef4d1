/** The handlers and store methods themselves: they read and update the stored rows in place, compute the
    guards from reports and projections, and are proved to take exactly the steps of the ledger. */
module LedgerStore {
  import opened Money
  import opened Sums
  import opened Collateral
  import opened Ledger
  import opened Wrappers
  import opened LedgerSafety
  import opened LedgerSolvency
  import opened Settlement

  /** Releasing what paying a position frees leaves the reserve of a recomputation to be held. */
  lemma ReserveOfTheRest(cfg: Config, wallet: int, proceeds: nat, polls: seq<PollId>, trades: seq<Trade>,
                         after: seq<Trade>, release: int)
    requires release >= 0 && TotalRequired(polls, trades) - release == TotalRequired(polls, after)
    ensures cfg.guarantee ==>
      (OutflowCovered(wallet, proceeds, TotalRequired(polls, trades), release, cfg.bufferBps) <==>
       Reserved(cfg, wallet - proceeds, polls, after))
  {
    SumNonNegative(polls, RequiredOn(after));
    ReserveForTheRest(wallet, proceeds, TotalRequired(polls, trades), release, TotalRequired(polls, after),
                      cfg.bufferBps);
  }

  lemma {:induction false} ProportionalParts(trades: seq<Trade>, user: UserId, poll: PollId, side: Side,
                                             parts: seq<int>, shares: int, proceeds: int)
    requires |parts| == |trades|
    requires forall i :: 0 <= i < |trades| ==>
               parts[i] * shares == PositionShares(user, poll, side)(trades[i]) * proceeds
    ensures Total(parts) * shares == Sum(trades, PositionShares(user, poll, side)) * proceeds
  {
    if trades != [] {
      var n := |trades| - 1;
      ProportionalParts(trades[..n], user, poll, side, parts[..n], shares, proceeds);
      var rest, held := Total(parts[..n]), Sum(trades[..n], PositionShares(user, poll, side));
      var last := PositionShares(user, poll, side)(trades[n]);
      assert Total(parts) == rest + parts[n];
      assert (rest + parts[n]) * shares == rest * shares + parts[n] * shares;
      assert (held + last) * proceeds == held * proceeds + last * proceeds;
    }
  }

  /** Parts in proportion to the shares of the position, as the store writes them, add up to the proceeds. */
  lemma ProRataPartsAreAccepted(trades: seq<Trade>, user: UserId, poll: PollId, side: Side, parts: seq<nat>,
                                proceeds: nat)
    requires |parts| == |trades|
    requires var shares := Sum(trades, PositionShares(user, poll, side));
             && shares > 0
             && forall i :: 0 <= i < |trades| && InPosition(trades[i], user, poll, side) ==>
                  parts[i] * shares == trades[i].shares * proceeds
    ensures Total(PartsOf(trades, parts, user, poll, side)) == proceeds
  {
    var shares := Sum(trades, PositionShares(user, poll, side));
    var taken := PartsOf(trades, parts, user, poll, side);
    ProportionalParts(trades, user, poll, side, taken, shares, proceeds);
    SameFactor(Total(taken), proceeds, shares);
  }

  lemma SameFactor(a: int, b: int, c: int)
    requires c > 0 && a * c == b * c
    ensures a == b
  {
    assert (a - b) * c == 0;
  }

  /** What the methods rely on. */
  ghost predicate IsUsable(s: State)
  {
    Distinct(s.polls) && (forall p :: p in s.info <==> p in s.polls) && SharesArePayouts(s.trades)
  }

  /** Every state that a run of steps reaches is one that the methods accept. */
  lemma EveryRunIsUsable(cfg: Config, wallet: nat, steps: seq<Step>)
    ensures IsUsable(Run(cfg, Initial(wallet), steps))
  {
    InitialIsSafe(wallet);
    RunKeepsInvariant(cfg, Initial(wallet), steps);
    TrackedOpenIsBlank(Run(cfg, Initial(wallet), steps));
  }

  class Store {
    const cfg: Config
    var wallet: int
    var polls: seq<PollId>
    var info: map<PollId, PollInfo>
    var trades: seq<Trade>
    var deposits: seq<nat>
    var claims: seq<PrivateClaim>
    var flights: seq<Flight>
    ghost var received: int
    ghost var spent: int

    ghost function View(): State
      reads this
    {
      State(wallet, polls, info, trades, deposits, claims, flights, received, spent)
    }

    ghost predicate Valid()
      reads this
    {
      IsUsable(View())
    }

    constructor (cfg: Config, wallet: nat)
      ensures Valid() && View() == Initial(wallet) && this.cfg == cfg
    {
      this.cfg := cfg;
      this.wallet := wallet;
      polls, info, trades, deposits, claims, flights := [], map[], [], [], [], [];
      received, spent := wallet, 0;
    }

    /** Recomputes the report the guards are checked against. */
    method CollateralReport() returns (markets: array<Market>, total: int)
      requires Valid()
      ensures fresh(markets)
      ensures Agrees(Requirement(markets[..], total), polls, trades)
      ensures SentWasPaid(trades) ==> total >= TotalOwed(polls, trades)
    {
      markets, total := ComputeRequirement(polls, trades);
      if SentWasPaid(trades) {
        OwedIsRequired(polls, trades);
      }
    }

    method EnsureOutflow(outgoing: int, release: int) returns (ok: bool)
      requires Valid()
      ensures ok <==>
                || !cfg.guarantee
                || (outgoing > 0
                    && OutflowCovered(wallet, outgoing, TotalRequired(polls, trades), release, cfg.bufferBps))
    {
      if !cfg.guarantee {
        return true;
      }
      if outgoing <= 0 {
        return false;
      }
      var markets, total := CollateralReport();
      SumNonNegative(polls, RequiredOn(trades));
      var required := Max(0, total - Max(0, release));
      ok := OutflowCovered(wallet, outgoing, required, 0, cfg.bufferBps);
    }

    method ReceiveDeposit(amount: nat)
      requires Valid()
      modifies this
      ensures Valid() && View() == Next(cfg, old(View()), Deposit(amount))
    {
      wallet := wallet + amount;
      deposits := deposits + [amount];
      received := received + amount;
    }

    /** The incremental projection decides exactly what a recomputation with the trade in it would. */
    method CollateralizeQuote(t: Trade) returns (collateralized: bool)
      requires Valid() && t.poll in polls && FreshTrade(t)
      ensures collateralized == Reserved(cfg, wallet, polls, trades + [t])
    {
      var markets, total := CollateralReport();
      var projected, newTotal := ProjectRequirement(markets, total, QuoteFor(t));
      ProjectionIsRecompute(Requirement(markets[..], total), polls, trades, t);
      collateralized := !cfg.guarantee || wallet >= WithBuffer(newTotal, cfg.bufferBps);
    }

    /** The released collateral decides exactly what a recomputation with the position paid would. */
    method CashoutCovered(user: UserId, poll: PollId, side: Side, proceeds: nat, ghost parts: seq<nat>)
      returns (covered: bool)
      requires Valid() && poll in polls && proceeds > 0 && |parts| == |trades|
      ensures covered == Reserved(cfg, wallet - proceeds, polls,
                                  CashOutTrades(trades, user, poll, side, parts, Sent, 1))
    {
      var quote := FullCashout(trades, user, poll, side);
      var markets, total := CollateralReport();
      var projected, newTotal := ProjectAfterCashout(markets, total, quote);
      ghost var after := CashOutTrades(trades, user, poll, side, parts, Sent, 1);
      CashoutProjectionIsRecompute(Requirement(markets[..], total), polls, trades, user, poll, side, parts, 1);
      assert Requirement(projected[..], newTotal) == WithoutPosition(Requirement(markets[..], total), quote);
      ReserveOfTheRest(cfg, wallet, proceeds, polls, trades, after, Release(total, newTotal));
      covered := EnsureOutflow(proceeds, Release(total, newTotal));
    }

    /** Quote, check the projected reserve, and store the trade. */
    method CreateTrade(user: UserId, poll: PollId, side: Side, amount: nat, shares: nat, escrow: nat, feeBps: nat,
                       leaf: LeafId)
      returns (ok: bool)
      requires Valid()
      modifies this
      ensures var step := PlaceTrade(user, poll, side, amount, shares, escrow, feeBps, leaf);
              && Valid()
              && ok == Allowed(cfg, old(View()), step)
              && View() == Next(cfg, old(View()), step)
    {
      var t := NewTrade(user, poll, side, amount, shares, escrow, leaf);
      if amount !in ALLOWED_AMOUNTS || shares == 0 {
        return false;
      }
      if escrow >= |deposits| || deposits[escrow] != EscrowTotal(amount, feeBps) {
        return false;
      }
      if poll !in info || !info[poll].status.Published? || info[poll].frozen {
        return false;
      }
      var collateralized := CollateralizeQuote(t);
      if !collateralized {
        return false;
      }
      for i := 0 to |trades|
        invariant forall j :: 0 <= j < i ==> trades[j].escrow != escrow
        invariant View() == old(View())
      {
        if trades[i].escrow == escrow {
          return false;
        }
      }
      trades := trades + [t];
      return true;
    }

    /** Quote the whole position, check what paying it would leave, send, and record every trade of it. */
    method CashOutPosition(user: UserId, poll: PollId, side: Side, proceeds: nat, parts: seq<nat>, outcome: Outcome)
      returns (ok: bool)
      requires Valid()
      requires |parts| == |trades| && Total(PartsOf(trades, parts, user, poll, side)) == proceeds
      modifies this
      ensures var step := CashOut(user, poll, side, proceeds, parts, outcome);
              && Valid()
              && ok == Allowed(cfg, old(View()), step)
              && View() == Next(cfg, old(View()), step)
    {
      if poll !in info || !info[poll].status.Published? || info[poll].frozen {
        return false;
      }
      var quote := FullCashout(trades, user, poll, side);
      if quote.shares <= 0 || quote.amount <= 0 || proceeds == 0 {
        return false;
      }
      var covered := CashoutCovered(user, poll, side, proceeds, parts);
      if !covered {
        return false;
      }
      var status := StatusOf(outcome);
      var moved := if outcome.Reverted? then 0 else 1;
      RecordCashOut(user, poll, side, parts, status, moved);
      if !outcome.Reverted? {
        wallet := wallet - proceeds;
      }
      return true;
    }

    /** Writes the cash-out on every trade of the position, one row after the other. */
    method RecordCashOut(user: UserId, poll: PollId, side: Side, parts: seq<nat>, status: PayoutStatus, moved: nat)
      requires |parts| == |trades|
      modifies this`trades
      ensures trades == CashOutTrades(old(trades), user, poll, side, parts, status, moved)
    {
      for i := 0 to |trades|
        invariant |trades| == |old(trades)|
        invariant forall j :: 0 <= j < i ==>
            trades[j] == CashOutTrade(old(trades)[j], user, poll, side, parts[j], status, moved)
        invariant forall j :: i <= j < |trades| ==> trades[j] == old(trades)[j]
      {
        if InPosition(trades[i], user, poll, side) {
          trades := trades[i := trades[i].(status := CashedOut, settlementPayout := parts[i], payoutStatus := status,
                                           paidOut := moved)];
        }
      }
    }

    /** Preview, decide how payouts are marked, and write every open trade of the market. */
    method SettlePoll(wallets: map<UserId, WalletId>, poll: PollId, verdict: Verdict)
      returns (ok: bool, preview: Result<Preview, string>)
      requires Valid()
      modifies this
      ensures Valid()
      ensures ok == Allowed(cfg, old(View()), Settle(poll, verdict))
      ensures View() == Next(cfg, old(View()), Settle(poll, verdict))
      ensures ok ==> preview.Ok?
      ensures ok && OpenHasNoPayout(old(trades)) ==>
                Sum(trades, PayoutColumn) == Sum(old(trades), PayoutColumn) + preview.value.payoutRequired
    {
      preview := PreviewPoll(wallets, poll, verdict);
      if preview.Err? || info[poll].settled {
        return false, preview;
      }
      WrittenPayouts(trades, poll, verdict);
      WriteSettlement(poll, verdict, preview.value.payoutRequired);
      info := info[poll := info[poll].(status := if verdict.Cancel? then Voided else Resolved, settled := true)];
      return true, preview;
    }

    method PreviewPoll(wallets: map<UserId, WalletId>, poll: PollId, verdict: Verdict)
      returns (preview: Result<Preview, string>)
      ensures preview.Ok? <==> poll in info
      ensures preview.Ok? ==> preview.value.payoutRequired == Sum(trades, PayoutOn(poll, verdict))
    {
      var recipients; ghost var keys;
      preview, recipients, keys := PreviewSettlement(info, trades, wallets, poll, verdict);
    }

    method WriteSettlement(poll: PollId, verdict: Verdict, payoutRequired: int)
      requires payoutRequired == Sum(trades, PayoutOn(poll, verdict))
      modifies this`trades
      ensures trades == SettleTrades(old(trades), poll, verdict)
    {
      var payoutStatus := if payoutRequired > 0 then Claimable else NoPayout;
      for i := 0 to |trades|
        invariant |trades| == |old(trades)|
        invariant forall j :: 0 <= j < i ==> trades[j] == SettleTrade(old(trades)[j], poll, verdict)
        invariant forall j :: i <= j < |trades| ==> trades[j] == old(trades)[j]
      {
        var t := trades[i];
        if t.poll == poll && t.status.Open? {
          var shouldPay := verdict.Cancel? || WinnerPays(t, verdict);
          var payout := if verdict.Cancel? then t.amount else if shouldPay then t.potentialPayout else 0;
          SumCovers(old(trades), i, i, PayoutOn(poll, verdict));
          trades := trades[i := t.(
            status := if verdict.Cancel? then Cancelled else if shouldPay then Won else Lost,
            settlementPayout := payout,
            payoutStatus := if payout > 0 then payoutStatus else NoPayout)];
        }
      }
    }

    method ReserveDirectPayout(user: UserId, i: nat) returns (ok: bool)
      requires Valid()
      modifies this
      ensures Valid()
      ensures ok == Allowed(cfg, old(View()), ReservePublic(user, i))
      ensures View() == Next(cfg, old(View()), ReservePublic(user, i))
    {
      if i >= |trades| || trades[i].user != user || trades[i].payoutStatus !in {Claimable, ClaimFailed, PayoutFailed}
         || trades[i].settlementPayout == 0 {
        return false;
      }
      trades := trades[i := trades[i].(payoutStatus := ClaimPending)];
      flights := flights + [Flight(i, None, Waiting)];
      return true;
    }

    /** First the retry of a rejected claim with this nullifier, then a new claim for an unused one. */
    method ReserveClaim(user: UserId, i: nat, leaf: LeafId, nullifier: nat) returns (ok: bool)
      requires Valid()
      modifies this
      ensures Valid()
      ensures ok == Allowed(cfg, old(View()), ReservePrivate(user, i, leaf, nullifier))
      ensures View() == Next(cfg, old(View()), ReservePrivate(user, i, leaf, nullifier))
    {
      var k := 0;
      while k < |claims| && claims[k].nullifier != nullifier
        invariant 0 <= k <= |claims|
        invariant forall j :: 0 <= j < k ==> claims[j].nullifier != nullifier
      {
        k := k + 1;
      }
      assert k == FindClaim(claims, nullifier);
      if i >= |trades| || trades[i].user != user {
        return false;
      }
      if k < |claims| {
        if !(claims[k].trade == i && claims[k].user == user && claims[k].leaf == leaf && claims[k].status.ClaimRejected?
             && !claims[k].hasTransactions && trades[i].payoutStatus in {ClaimFailed, PayoutFailed}) {
          return false;
        }
        claims := claims[k := claims[k].(status := ClaimReserved)];
      } else {
        if !(trades[i].leaf == leaf && trades[i].status in {Won, Cancelled} && trades[i].settlementPayout > 0
             && trades[i].payoutStatus in {Blank, NoPayout, Claimable, ClaimFailed, PayoutFailed}) {
          return false;
        }
        claims := claims + [PrivateClaim(i, user, leaf, nullifier, ClaimReserved, false)];
      }
      trades := trades[i := trades[i].(payoutStatus := ClaimPending)];
      flights := flights + [Flight(i, Some(k), Waiting)];
      return true;
    }

    /** Sends the payout of one reservation if the reserve allows it. */
    method SendClaimPayout(k: nat) returns (ok: bool)
      requires Valid() && k < |flights| && flights[k].phase.Waiting? && flights[k].trade < |trades|
      modifies this
      ensures Valid()
      ensures ok == Allowed(cfg, old(View()), SendClaim(k))
      ensures View() == Next(cfg, old(View()), SendClaim(k))
    {
      var i := flights[k].trade;
      var payout := trades[i].settlementPayout;
      if payout == 0 {
        return false;
      }
      var covered := EnsureOutflow(payout, payout);
      if !covered {
        return false;
      }
      wallet := wallet - payout;
      trades := trades[i := trades[i].(paidOut := trades[i].paidOut + 1)];
      flights := flights[k := flights[k].(phase := Moved)];
      return true;
    }

    /** Records how a reservation ended, on the trade and on its private claim. */
    method CompletePayout(k: nat, outcome: Outcome)
      requires Valid() && CanFinish(View(), k)
      modifies this
      ensures Valid() && View() == Next(cfg, old(View()), FinishClaim(k, outcome))
    {
      var flight := flights[k];
      var i, t := flight.trade, trades[flight.trade];
      var failed := flight.phase.Waiting? || outcome.Reverted?;
      if flight.phase.Moved? && outcome.Reverted? {
        wallet := wallet + t.settlementPayout;
        if t.paidOut > 0 {
          t := t.(paidOut := t.paidOut - 1);
        }
      }
      if flight.claim.Some? {
        var c := flight.claim.value;
        var status := if failed then ClaimRejected else ClaimPaid;
        claims := claims[c := claims[c].(status := status, hasTransactions := flight.phase.Moved?)];
        t := t.(payoutStatus := if failed then ClaimFailed else StatusOf(outcome));
      } else if t.payoutStatus in {ClaimPending, PayoutFailed, ClaimFailed} {
        t := t.(payoutStatus := if failed then PayoutFailed else StatusOf(outcome));
      }
      trades := trades[i := t];
      flights := flights[k := flight.(phase := Done)];
    }

    /** A treasury transfer or a welcome grant: nothing reserved is released by it. */
    method SpendTreasury(amount: nat) returns (ok: bool)
      requires Valid()
      modifies this
      ensures Valid()
      ensures ok == Allowed(cfg, old(View()), Spend(amount))
      ensures View() == Next(cfg, old(View()), Spend(amount))
    {
      if amount == 0 {
        return false;
      }
      ok := EnsureOutflow(amount, 0);
      if ok {
        wallet := wallet - amount;
        spent := spent + amount;
      }
    }
  }

  lemma WrittenPayouts(trades: seq<Trade>, poll: PollId, verdict: Verdict)
    ensures OpenHasNoPayout(trades) ==>
              Sum(SettleTrades(trades, poll, verdict), PayoutColumn)
              == Sum(trades, PayoutColumn) + Sum(trades, PayoutOn(poll, verdict))
    ensures SharesArePayouts(trades) ==> SharesArePayouts(SettleTrades(trades, poll, verdict))
  {
    if OpenHasNoPayout(trades) {
      WrittenPayoutsSumToPreview(trades, poll, verdict);
    }
  }
}
