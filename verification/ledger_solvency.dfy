/** With the guarantee switched on, the project wallet covers what is owed after every step of every run. */
module LedgerSolvency {
  import opened Money
  import opened Sums
  import opened Collateral
  import opened Ledger
  import opened Wrappers
  import opened LedgerSafety

  lemma TrackedSentWasPaid(s: State)
    requires Tracked(s)
    ensures SentWasPaid(s.trades)
  {
  }

  lemma PlaceIsSolvent(cfg: Config, s: State, t: Trade, feeBps: nat)
    requires cfg.guarantee && Invariant(s) && CanPlace(cfg, s, t, feeBps) && FreshTrade(t)
    ensures s.wallet >= TotalOwed(s.polls, s.trades + [t])
  {
    TrackedSentWasPaid(s);
    ReservedCovers(cfg, s.wallet, s.polls, s.trades + [t]);
  }

  // ----- Cash-outs -----

  /** Two forms of a trade that count the same for what is owed. */
  predicate OwesTheSame(a: Trade, b: Trade)
  {
    && a.poll == b.poll && a.status == b.status && a.side == b.side
    && a.amount == b.amount && a.potentialPayout == b.potentialPayout && Unpaid(a) == Unpaid(b)
  }

  lemma SameTradesOweTheSame(xs: seq<Trade>, ys: seq<Trade>, p: PollId)
    requires |xs| == |ys| && forall i :: 0 <= i < |xs| ==> OwesTheSame(xs[i], ys[i])
    ensures OwedMarket(xs, p) == OwedMarket(ys, p)
  {
    SumSame(xs, YesOn(p), ys, YesOn(p));
    SumSame(xs, NoOn(p), ys, NoOn(p));
    SumSame(xs, RefundOn(p), ys, RefundOn(p));
    SumSame(xs, UnpaidOn(p), ys, UnpaidOn(p));
  }

  /** What is owed does not depend on how a paid position is reported. */
  lemma PaidPositionsOweTheSame(polls: seq<PollId>, trades: seq<Trade>, user: UserId, poll: PollId, side: Side,
                                parts: seq<nat>, status: PayoutStatus)
    requires |parts| == |trades|
    ensures TotalOwed(polls, CashOutTrades(trades, user, poll, side, parts, status, 1))
         == TotalOwed(polls, CashOutTrades(trades, user, poll, side, parts, Sent, 1))
  {
    var a := CashOutTrades(trades, user, poll, side, parts, status, 1);
    var b := CashOutTrades(trades, user, poll, side, parts, Sent, 1);
    forall i | 0 <= i < |a| ensures OwesTheSame(a[i], b[i]) {
    }
    forall p ensures OwedOn(a)(p) == OwedOn(b)(p) {
      SameTradesOweTheSame(a, b, p);
    }
    SumSame(polls, OwedOn(b), polls, OwedOn(a));
  }

  lemma UnpaidAfterRevertedCashout(trades: seq<Trade>, user: UserId, poll: PollId, side: Side, parts: seq<nat>)
    requires |parts| == |trades|
    ensures Sum(CashOutTrades(trades, user, poll, side, parts, PayoutFailed, 0), UnpaidOn(poll))
         == Sum(CashOutTrades(trades, user, poll, side, parts, Sent, 1), UnpaidOn(poll))
            + Total(PartsOf(trades, parts, user, poll, side))
  {
    var paid := CashOutTrades(trades, user, poll, side, parts, Sent, 1);
    var unpaid := CashOutTrades(trades, user, poll, side, parts, PayoutFailed, 0);
    var shares := PartsOf(trades, parts, user, poll, side);
    SumDelta(paid, UnpaidOn(poll), unpaid, UnpaidOn(poll), shares);
    SumSame(shares, (d: int) => d, shares, (x: int) => x);
  }

  /** A reverted cash-out owes its proceeds, no more. */
  lemma RevertedCashoutOwes(polls: seq<PollId>, trades: seq<Trade>, user: UserId, poll: PollId, side: Side,
                            parts: seq<nat>)
    requires Distinct(polls) && poll in polls && |parts| == |trades|
    ensures TotalOwed(polls, CashOutTrades(trades, user, poll, side, parts, PayoutFailed, 0))
         == TotalOwed(polls, CashOutTrades(trades, user, poll, side, parts, Sent, 1))
            + Total(PartsOf(trades, parts, user, poll, side))
  {
    var paid := CashOutTrades(trades, user, poll, side, parts, Sent, 1);
    var unpaid := CashOutTrades(trades, user, poll, side, parts, PayoutFailed, 0);
    assert SameElsewhere(paid, unpaid, poll);
    forall q | q in polls && q != poll ensures OwedMarket(unpaid, q) == OwedMarket(paid, q) {
      OtherOwedKeeps(paid, unpaid, poll, q);
    }
    SumSame(paid, YesOn(poll), unpaid, YesOn(poll));
    SumSame(paid, NoOn(poll), unpaid, NoOn(poll));
    SumSame(paid, RefundOn(poll), unpaid, RefundOn(poll));
    UnpaidAfterRevertedCashout(trades, user, poll, side, parts);
    SumNonNegative(paid, UnpaidOn(poll));
    SumNonNegative(PartsOf(trades, parts, user, poll, side), (x: int) => x);
    OnlyOneOwedChanges(polls, paid, unpaid, poll);
  }

  lemma CashOutIsSolvent(cfg: Config, s: State, user: UserId, poll: PollId, side: Side, proceeds: nat,
                         parts: seq<nat>, outcome: Outcome)
    requires cfg.guarantee && Invariant(s) && CanCashOut(cfg, s, user, poll, side, proceeds, parts)
    ensures Solvent(AfterCashOut(s, user, poll, side, proceeds, parts, outcome))
  {
    var paid := CashOutTrades(s.trades, user, poll, side, parts, Sent, 1);
    TrackedSentWasPaid(s);
    assert SentWasPaid(paid);
    ReservedCovers(cfg, s.wallet - proceeds, s.polls, paid);
    PaidPositionsOweTheSame(s.polls, s.trades, user, poll, side, parts, StatusOf(outcome));
    RevertedCashoutOwes(s.polls, s.trades, user, poll, side, parts);
  }

  // ----- Settlements -----

  /** A verdict pays out exactly one of the three liabilities the requirement looks at. */
  lemma VerdictPaysOneLiability(trades: seq<Trade>, p: PollId, verdict: Verdict)
    ensures Sum(trades, PayoutOn(p, verdict))
         == match verdict
            case ResolveYes => Sum(trades, YesOn(p))
            case ResolveNo => Sum(trades, NoOn(p))
            case Cancel => Sum(trades, RefundOn(p))
  {
  }

  lemma NothingOpenAfterSettle(trades: seq<Trade>, p: PollId, verdict: Verdict)
    ensures var settled := SettleTrades(trades, p, verdict);
            Sum(settled, YesOn(p)) == Sum(settled, NoOn(p)) == Sum(settled, RefundOn(p)) == 0
  {
    var settled := SettleTrades(trades, p, verdict);
    ZeroSum(settled, YesOn(p));
    ZeroSum(settled, NoOn(p));
    ZeroSum(settled, RefundOn(p));
  }

  ghost predicate OpenIsBlank(trades: seq<Trade>)
  {
    forall i :: 0 <= i < |trades| && trades[i].status.Open? ==> trades[i].paidOut == 0
  }

  lemma MarketAfterSettle(trades: seq<Trade>, p: PollId, verdict: Verdict)
    requires OpenIsBlank(trades)
    ensures var settled := SettleTrades(trades, p, verdict);
            && SameElsewhere(trades, settled, p)
            && Sum(settled, FixedOn(p)) == Sum(trades, FixedOn(p)) + Sum(trades, PayoutOn(p, verdict))
            && Sum(settled, UnpaidOn(p)) == Sum(trades, UnpaidOn(p)) + Sum(trades, PayoutOn(p, verdict))
  {
    var settled := SettleTrades(trades, p, verdict);
    SumJoin(trades, FixedOn(p), PayoutOn(p, verdict), settled, FixedOn(p));
    SumJoin(trades, UnpaidOn(p), PayoutOn(p, verdict), settled, UnpaidOn(p));
  }

  /** Settling a market never raises what is owed, nor the collateral that is required. */
  lemma SettleNeverRaises(polls: seq<PollId>, trades: seq<Trade>, p: PollId, verdict: Verdict)
    requires Distinct(polls) && p in polls && OpenIsBlank(trades)
    ensures TotalOwed(polls, SettleTrades(trades, p, verdict)) <= TotalOwed(polls, trades)
    ensures TotalRequired(polls, SettleTrades(trades, p, verdict)) <= TotalRequired(polls, trades)
  {
    var settled := SettleTrades(trades, p, verdict);
    MarketAfterSettle(trades, p, verdict);
    NothingOpenAfterSettle(trades, p, verdict);
    VerdictPaysOneLiability(trades, p, verdict);
    LiabilitiesNonNegative(trades, p);
    SumNonNegative(trades, UnpaidOn(p));
    forall q | q in polls && q != p
      ensures OwedMarket(settled, q) == OwedMarket(trades, q)
      ensures MarketOf(settled, q) == MarketOf(trades, q)
    {
      OtherOwedKeeps(trades, settled, p, q);
      OtherMarketsKeep(trades, settled, p, q);
    }
    OnlyOneOwedChanges(polls, trades, settled, p);
    OnlyOnePollChanges(polls, trades, settled, p);
  }

  lemma TrackedOpenIsBlank(s: State)
    requires Tracked(s)
    ensures OpenIsBlank(s.trades) && SharesArePayouts(s.trades)
  {
  }

  // ----- Claims -----

  lemma ReserveIsSolvent(s: State, i: nat, claim: Option<nat>)
    requires Invariant(s) && Solvent(s) && i < |s.trades| && !s.trades[i].status.Open?
    ensures Solvent(MarkPending(s, i, claim))
  {
    OwedAfterOneTrade(s.polls, s.trades, i, s.trades[i].(payoutStatus := ClaimPending));
  }

  lemma SendIsSolvent(s: State, k: nat)
    requires Invariant(s) && Solvent(s) && k < |s.flights| && s.flights[k].phase.Waiting?
    ensures Solvent(AfterSend(s, k))
  {
    var i := s.flights[k].trade;
    FlightIsAlone(s, k);
    assert PayoutTracked(s.trades[i], InFlight(s, i), InFlightMoved(s, i));
    OwedAfterOneTrade(s.polls, s.trades, i, AfterSend(s, k).trades[i]);
  }

  lemma FinishIsSolvent(s: State, k: nat, outcome: Outcome)
    requires Invariant(s) && Solvent(s) && CanFinish(s, k)
    ensures Solvent(AfterFinish(s, k, outcome))
  {
    var i := s.flights[k].trade;
    FlightIsAlone(s, k);
    assert PayoutTracked(s.trades[i], InFlight(s, i), InFlightMoved(s, i));
    OwedAfterOneTrade(s.polls, s.trades, i, AfterFinish(s, k, outcome).trades[i]);
  }

  lemma LateRevertIsSolvent(s: State, i: nat)
    requires Invariant(s) && Solvent(s) && CanRevertLate(s, i)
    ensures Solvent(AfterLateRevert(s, i))
  {
    assert PayoutTracked(s.trades[i], InFlight(s, i), InFlightMoved(s, i));
    OwedAfterOneTrade(s.polls, s.trades, i, AfterLateRevert(s, i).trades[i]);
  }

  lemma SpendIsSolvent(cfg: Config, s: State, amount: nat)
    requires cfg.guarantee && Invariant(s) && CanSpend(cfg, s, amount)
    ensures s.wallet - amount >= TotalOwed(s.polls, s.trades)
  {
    TrackedSentWasPaid(s);
    OwedIsRequired(s.polls, s.trades);
    CoveredOutflow(cfg, s.wallet, amount, TotalRequired(s.polls, s.trades), 0);
  }

  lemma ClaimStepKeepsSolvent(cfg: Config, s: State, step: Step)
    requires Invariant(s) && Solvent(s) && Allowed(cfg, s, step)
    requires step.ReservePublic? || step.ReservePrivate? || step.SendClaim? || step.FinishClaim? || step.LateRevert?
    ensures Solvent(Next(cfg, s, step))
  {
    match step
    case ReservePublic(_, i) =>
      assert PayoutTracked(s.trades[i], InFlight(s, i), InFlightMoved(s, i));
      ReserveIsSolvent(s, i, None);
    case ReservePrivate(user, i, leaf, nullifier) =>
      CanBePending(s, user, i, leaf, nullifier);
      ReserveIsSolvent(s, i, Some(FindClaim(s.claims, nullifier)));
    case SendClaim(k) => SendIsSolvent(s, k);
    case FinishClaim(k, outcome) => FinishIsSolvent(s, k, outcome);
    case LateRevert(i) => LateRevertIsSolvent(s, i);
  }

  /** One step of a solvent ledger leaves it solvent. */
  lemma StepKeepsSolvent(cfg: Config, s: State, step: Step)
    requires cfg.guarantee && Invariant(s) && Solvent(s)
    ensures Solvent(Next(cfg, s, step))
  {
    if Allowed(cfg, s, step) {
      match step
      case AddPoll(p, _) => OwedWithNewPoll(s.polls, s.trades, p);
      case SetPollStatus(_, _, _) =>
      case Deposit(_) =>
      case PlaceTrade(user, poll, side, amount, shares, escrow, feeBps, leaf) =>
        PlaceIsSolvent(cfg, s, NewTrade(user, poll, side, amount, shares, escrow, leaf), feeBps);
      case CashOut(user, poll, side, proceeds, parts, outcome) =>
        CashOutIsSolvent(cfg, s, user, poll, side, proceeds, parts, outcome);
      case Settle(poll, verdict) =>
        TrackedOpenIsBlank(s);
        SettleNeverRaises(s.polls, s.trades, poll, verdict);
      case Spend(amount) => SpendIsSolvent(cfg, s, amount);
      case _ => ClaimStepKeepsSolvent(cfg, s, step);
    }
  }

  // ----- Whole runs -----

  lemma {:induction false} RunKeepsInvariant(cfg: Config, s: State, steps: seq<Step>)
    requires Invariant(s)
    ensures Invariant(Run(cfg, s, steps))
    decreases |steps|
  {
    if |steps| > 0 {
      StepKeepsInvariant(cfg, s, steps[0]);
      RunKeepsInvariant(cfg, Next(cfg, s, steps[0]), steps[1..]);
    }
  }

  lemma {:induction false} RunKeepsSolvent(cfg: Config, s: State, steps: seq<Step>)
    requires cfg.guarantee && Invariant(s) && Solvent(s)
    ensures Solvent(Run(cfg, s, steps))
    decreases |steps|
  {
    if |steps| > 0 {
      StepKeepsInvariant(cfg, s, steps[0]);
      StepKeepsSolvent(cfg, s, steps[0]);
      RunKeepsSolvent(cfg, Next(cfg, s, steps[0]), steps[1..]);
    }
  }

  lemma InitialIsSafe(wallet: nat)
    ensures Invariant(Initial(wallet)) && Solvent(Initial(wallet))
  {
  }

  /** Solvency of every run from an empty ledger: the wallet covers what is owed, the reported requirement
      is never below it, and no cent is lost between what came in, what was spent and what was paid. */
  lemma EveryRunIsSolvent(cfg: Config, wallet: nat, steps: seq<Step>)
    requires cfg.guarantee
    ensures var s := Run(cfg, Initial(wallet), steps);
            && s.wallet >= TotalOwed(s.polls, s.trades) >= 0
            && TotalOwed(s.polls, s.trades) <= TotalRequired(s.polls, s.trades)
            && s.wallet + s.spent + Sum(s.trades, PaidAmount) == s.received
  {
    var s := Run(cfg, Initial(wallet), steps);
    InitialIsSafe(wallet);
    RunKeepsInvariant(cfg, Initial(wallet), steps);
    RunKeepsSolvent(cfg, Initial(wallet), steps);
    TrackedSentWasPaid(s);
    OwedIsRequired(s.polls, s.trades);
    OwedNonNegative(s.polls, s.trades);
  }

  predicate PayoutRecorded(t: Trade)
  {
    t.payoutStatus in {Submitted, Sent}
  }

  /** At most one payout per trade over both claim paths, guarantee or not: at most one handler is at work
      on a trade, exactly while the trade is pending, and none once a payout is recorded; never more than
      one transfer is out; no two private claims share a nullifier. */
  lemma EveryRunPaysAtMostOnce(cfg: Config, wallet: nat, steps: seq<Step>, i: nat)
    requires i < |Run(cfg, Initial(wallet), steps).trades|
    ensures var s := Run(cfg, Initial(wallet), steps);
            && InFlight(s, i) + (if PayoutRecorded(s.trades[i]) then 1 else 0) <= 1
            && (InFlight(s, i) == 1 <==> s.trades[i].payoutStatus.ClaimPending?)
            && s.trades[i].paidOut <= 1
            && DistinctNullifiers(s)
  {
    var s := Run(cfg, Initial(wallet), steps);
    InitialIsSafe(wallet);
    RunKeepsInvariant(cfg, Initial(wallet), steps);
    assert PayoutTracked(s.trades[i], InFlight(s, i), InFlightMoved(s, i));
    MovedAreFlying(s.flights, i);
  }

  /** A recorded payout stays recorded as it is, and a trade that is no longer open keeps its status and its payout. */
  predicate StaysClosed(t: Trade, after: Trade)
  {
    && (PayoutRecorded(t) ==> after.payoutStatus == t.payoutStatus)
    && (!t.status.Open? ==> after.status == t.status && after.settlementPayout == t.settlementPayout)
  }

  lemma FinishKeepsClosedTrades(s: State, k: nat, outcome: Outcome, i: nat)
    requires Invariant(s) && i < |s.trades| && CanFinish(s, k)
    ensures StaysClosed(s.trades[i], AfterFinish(s, k, outcome).trades[i])
  {
    FlightIsAlone(s, k);
  }

  lemma ClaimStepKeepsClosedTrades(cfg: Config, s: State, step: Step, i: nat)
    requires Invariant(s) && i < |s.trades| && Allowed(cfg, s, step)
    requires step.ReservePublic? || step.ReservePrivate? || step.SendClaim? || step.FinishClaim? || step.LateRevert?
    ensures i < |Next(cfg, s, step).trades| && StaysClosed(s.trades[i], Next(cfg, s, step).trades[i])
  {
    match step
    case ReservePrivate(user, j, leaf, nullifier) => CanBePending(s, user, j, leaf, nullifier);
    case FinishClaim(k, outcome) => FinishKeepsClosedTrades(s, k, outcome, i);
    case _ =>
  }

  /** What one step can do to a stored trade. */
  lemma StepKeepsClosedTrades(cfg: Config, s: State, step: Step, i: nat)
    requires Invariant(s) && i < |s.trades|
    ensures i < |Next(cfg, s, step).trades| && StaysClosed(s.trades[i], Next(cfg, s, step).trades[i])
  {
    if Allowed(cfg, s, step) {
      match step
      case CashOut(_, _, _, _, _, _) =>
        assert PayoutTracked(s.trades[i], InFlight(s, i), InFlightMoved(s, i));
      case Settle(_, _) =>
        assert PayoutTracked(s.trades[i], InFlight(s, i), InFlightMoved(s, i));
      case AddPoll(_, _) =>
      case SetPollStatus(_, _, _) =>
      case Deposit(_) =>
      case PlaceTrade(_, _, _, _, _, _, _, _) =>
      case Spend(_) =>
      case _ => ClaimStepKeepsClosedTrades(cfg, s, step, i);
    }
  }

  /** Submitted and sent payouts are never reserved again, and settled or cashed-out trades never change
      status again, in any run. */
  lemma {:induction false} RunKeepsClosedTrades(cfg: Config, s: State, steps: seq<Step>, i: nat)
    requires Invariant(s) && i < |s.trades|
    ensures i < |Run(cfg, s, steps).trades| && StaysClosed(s.trades[i], Run(cfg, s, steps).trades[i])
    decreases |steps|
  {
    if |steps| > 0 {
      StepKeepsClosedTrades(cfg, s, steps[0], i);
      StepKeepsInvariant(cfg, s, steps[0]);
      RunKeepsClosedTrades(cfg, Next(cfg, s, steps[0]), steps[1..], i);
    }
  }

  /** A claim transfer that is sent and then reverts restores the wallet and what is owed, and leaves the
      trade ready for another claim. */
  lemma RevertedClaimRestoresBothSides(cfg: Config, s: State, k: nat)
    requires Invariant(s) && CanSend(cfg, s, k)
    ensures var after := Run(cfg, s, [SendClaim(k), FinishClaim(k, Reverted)]);
            var i := s.flights[k].trade;
            && i < |after.trades| == |s.trades|
            && after.wallet == s.wallet
            && TotalOwed(after.polls, after.trades) == TotalOwed(s.polls, s.trades)
            && after.trades[i].paidOut == 0
            && CanReservePublic(after, after.trades[i].user, i)
  {
    var steps := [SendClaim(k), FinishClaim(k, Reverted)];
    var i := s.flights[k].trade;
    var sent := AfterSend(s, k);
    var after := AfterFinish(sent, k, Reverted);
    SendKeeps(s, k);
    FlightIsAlone(s, k);
    FlightIsAlone(sent, k);
    assert PayoutTracked(s.trades[i], InFlight(s, i), InFlightMoved(s, i));
    assert steps[1..] == [steps[1]] && steps[1..][1..] == [];
    assert Run(cfg, s, steps) == Run(cfg, sent, steps[1..]) == Run(cfg, after, []) == after;
    OwedAfterOneTrade(s.polls, s.trades, i, after.trades[i]);
    assert after.trades == s.trades[i := after.trades[i]];
  }

  lemma WaitingPayoutIsFixed(s: State, k: nat)
    requires Invariant(s) && k < |s.flights| && s.flights[k].phase.Waiting?
    requires s.trades[s.flights[k].trade].settlementPayout > 0
    ensures var t := s.trades[s.flights[k].trade];
            HasFixedPayout(t) && !t.payoutStatus.Sent? && t.poll in s.polls
  {
    var i := s.flights[k].trade;
    FlightIsAlone(s, k);
    assert PayoutTracked(s.trades[i], InFlight(s, i), InFlightMoved(s, i));
  }

  /** The claim guard asks for the reserve of the ledger in which this payout is already marked as sent. */
  lemma SendGuardIsRecompute(cfg: Config, s: State, k: nat)
    requires Invariant(s) && k < |s.flights| && s.flights[k].phase.Waiting?
    requires s.trades[s.flights[k].trade].settlementPayout > 0
    ensures var i := s.flights[k].trade;
            CanSend(cfg, s, k) <==>
            Reserved(cfg, s.wallet - s.trades[i].settlementPayout, s.polls,
                     s.trades[i := s.trades[i].(payoutStatus := Sent)])
  {
    var i := s.flights[k].trade;
    WaitingPayoutIsFixed(s, k);
    SendingReleasesThePayout(s.polls, s.trades, i);
    SumNonNegative(s.polls, RequiredOn(s.trades[i := s.trades[i].(payoutStatus := Sent)]));
  }
}
