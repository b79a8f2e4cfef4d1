/** What every run of the ledger keeps: it stays solvent, no cent gets lost, and no payout leaves twice. */
module LedgerSafety {
  import opened Money
  import opened Sums
  import opened Collateral
  import opened Ledger
  import opened Wrappers

  // ----- Owed, required, and how they move -----

  ghost predicate SentWasPaid(trades: seq<Trade>)
  {
    forall i :: 0 <= i < |trades| && trades[i].payoutStatus.Sent? ==> trades[i].paidOut > 0
  }

  /** The reported requirement is never below what is owed. */
  lemma OwedIsRequired(polls: seq<PollId>, trades: seq<Trade>)
    requires SentWasPaid(trades)
    ensures TotalOwed(polls, trades) <= TotalRequired(polls, trades)
  {
    forall p ensures OwedOn(trades)(p) <= RequiredOn(trades)(p) {
      SumMonotone(trades, UnpaidOn(p), trades, FixedOn(p));
      assert OwedMarket(trades, p) <= MarketOf(trades, p).required;
    }
    SumMonotone(polls, OwedOn(trades), polls, RequiredOn(trades));
  }

  lemma OnlyOneOwedChanges(polls: seq<PollId>, trades: seq<Trade>, changed: seq<Trade>, p: PollId)
    requires Distinct(polls) && p in polls
    requires forall q :: q in polls && q != p ==> OwedMarket(changed, q) == OwedMarket(trades, q)
    ensures TotalOwed(polls, changed) == TotalOwed(polls, trades) - OwedMarket(trades, p) + OwedMarket(changed, p)
  {
    forall q | q in polls && q != p ensures OwedOn(changed)(q) == OwedOn(trades)(q) {
      assert OwedMarket(changed, q) == OwedMarket(trades, q);
    }
    SumOneKey(polls, p, OwedOn(trades), OwedOn(changed));
  }

  lemma OtherOwedKeeps(trades: seq<Trade>, changed: seq<Trade>, p: PollId, q: PollId)
    requires SameElsewhere(trades, changed, p) && q != p
    ensures OwedMarket(changed, q) == OwedMarket(trades, q)
  {
    OtherMarketsKeep(trades, changed, p, q);
    SumSame(trades, UnpaidOn(q), changed, UnpaidOn(q));
  }

  /** Changing one trade that is not open moves what is owed by exactly what that trade is owed. */
  lemma OwedAfterOneTrade(polls: seq<PollId>, trades: seq<Trade>, i: nat, t: Trade)
    requires Distinct(polls) && i < |trades| && trades[i].poll in polls
    requires t.poll == trades[i].poll && !t.status.Open? && !trades[i].status.Open?
    ensures TotalOwed(polls, trades[i := t]) == TotalOwed(polls, trades) - Unpaid(trades[i]) + Unpaid(t)
  {
    var p := t.poll;
    var changed := trades[i := t];
    forall q | q in polls && q != p ensures OwedMarket(changed, q) == OwedMarket(trades, q) {
      OtherOwedKeeps(trades, changed, p, q);
    }
    SumUpdate(trades, i, t, YesOn(p));
    SumUpdate(trades, i, t, NoOn(p));
    SumUpdate(trades, i, t, RefundOn(p));
    SumUpdate(trades, i, t, UnpaidOn(p));
    SumNonNegative(trades, UnpaidOn(p));
    SumNonNegative(changed, UnpaidOn(p));
    OnlyOneOwedChanges(polls, trades, changed, p);
  }

  /** Marking one fixed payout as sent releases exactly that payout from the requirement. */
  lemma SendingReleasesThePayout(polls: seq<PollId>, trades: seq<Trade>, i: nat)
    requires Distinct(polls) && i < |trades| && trades[i].poll in polls
    requires HasFixedPayout(trades[i]) && !trades[i].payoutStatus.Sent?
    ensures TotalRequired(polls, trades[i := trades[i].(payoutStatus := Sent)])
         == TotalRequired(polls, trades) - trades[i].settlementPayout
  {
    var t := trades[i].(payoutStatus := Sent);
    var p := t.poll;
    var changed := trades[i := t];
    forall q | q in polls && q != p ensures MarketOf(changed, q) == MarketOf(trades, q) {
      OtherMarketsKeep(trades, changed, p, q);
    }
    SumUpdate(trades, i, t, YesOn(p));
    SumUpdate(trades, i, t, NoOn(p));
    SumUpdate(trades, i, t, RefundOn(p));
    SumUpdate(trades, i, t, FixedOn(p));
    LiabilitiesNonNegative(trades, p);
    LiabilitiesNonNegative(changed, p);
    OnlyOnePollChanges(polls, trades, changed, p);
  }

  lemma OwedNonNegative(polls: seq<PollId>, trades: seq<Trade>)
    ensures TotalOwed(polls, trades) >= 0
  {
    SumNonNegative(polls, OwedOn(trades));
  }

  lemma OwedWithNewPoll(polls: seq<PollId>, trades: seq<Trade>, p: PollId)
    requires forall i :: 0 <= i < |trades| ==> trades[i].poll != p
    ensures TotalOwed(polls + [p], trades) == TotalOwed(polls, trades)
  {
    SumAppend(polls, p, OwedOn(trades));
    ZeroSum(trades, YesOn(p));
    ZeroSum(trades, NoOn(p));
    ZeroSum(trades, RefundOn(p));
    ZeroSum(trades, UnpaidOn(p));
  }

  lemma {:induction false} ZeroSum<T>(xs: seq<T>, weight: T -> int)
    requires forall i :: 0 <= i < |xs| ==> weight(xs[i]) == 0
    ensures Sum(xs, weight) == 0
  {
    if |xs| > 0 {
      ZeroSum(xs[..|xs| - 1], weight);
    }
  }

  /** An accepted reserve covers what is owed. */
  lemma ReservedCovers(cfg: Config, wallet: int, polls: seq<PollId>, trades: seq<Trade>)
    requires cfg.guarantee && Reserved(cfg, wallet, polls, trades) && SentWasPaid(trades)
    ensures wallet >= TotalOwed(polls, trades)
  {
    OwedIsRequired(polls, trades);
    BufferCovers(TotalRequired(polls, trades), TotalRequired(polls, trades), cfg.bufferBps);
  }

  lemma CoveredOutflow(cfg: Config, wallet: int, outgoing: int, required: int, release: int)
    requires OutflowCovered(wallet, outgoing, required, release, cfg.bufferBps) && release >= 0
    ensures wallet - outgoing >= required - release
  {
  }

  // ----- Tracking of payouts -----

  lemma FlightCounts(flights: seq<Flight>, k: nat, f: Flight, i: nat)
    requires k < |flights|
    ensures Sum(flights[k := f], FlyingFor(i))
        == Sum(flights, FlyingFor(i)) - FlyingFor(i)(flights[k]) + FlyingFor(i)(f)
    ensures Sum(flights[k := f], MovedFor(i)) == Sum(flights, MovedFor(i)) - MovedFor(i)(flights[k]) + MovedFor(i)(f)
  {
    SumUpdate(flights, k, f, FlyingFor(i));
    SumUpdate(flights, k, f, MovedFor(i));
  }

  lemma NewFlightCounts(flights: seq<Flight>, f: Flight, i: nat)
    ensures Sum(flights + [f], FlyingFor(i)) == Sum(flights, FlyingFor(i)) + FlyingFor(i)(f)
    ensures Sum(flights + [f], MovedFor(i)) == Sum(flights, MovedFor(i)) + MovedFor(i)(f)
  {
  }

  lemma MovedAreFlying(flights: seq<Flight>, i: nat)
    ensures 0 <= Sum(flights, MovedFor(i)) <= Sum(flights, FlyingFor(i))
  {
  }

  /** A handler that has not finished is the only one of its trade, and the trade is pending. */
  lemma FlightIsAlone(s: State, k: nat)
    requires WellFormed(s) && Tracked(s) && k < |s.flights| && !s.flights[k].phase.Done?
    ensures s.trades[s.flights[k].trade].payoutStatus.ClaimPending?
    ensures InFlight(s, s.flights[k].trade) == 1
    ensures InFlightMoved(s, s.flights[k].trade) == (if s.flights[k].phase.Moved? then 1 else 0)
    ensures forall j :: 0 <= j < |s.flights| && j != k && s.flights[j].trade == s.flights[k].trade ==>
        s.flights[j].phase.Done?
  {
    var i := s.flights[k].trade;
    assert PayoutTracked(s.trades[i], InFlight(s, i), InFlightMoved(s, i));
    SumCovers(s.flights, k, k, FlyingFor(i));
    SumCovers(s.flights, k, k, MovedFor(i));
    MovedAreFlying(s.flights, i);
    forall j | 0 <= j < |s.flights| && j != k && s.flights[j].trade == i ensures s.flights[j].phase.Done? {
      SumCovers(s.flights, k, j, FlyingFor(i));
    }
    if s.flights[k].phase.Waiting? {
      OnlyWaiting(s.flights, k, i);
    }
  }

  lemma {:induction false} OnlyWaiting(flights: seq<Flight>, k: nat, i: nat)
    requires k < |flights| && flights[k].trade == i && flights[k].phase.Waiting?
    requires forall j :: 0 <= j < |flights| && j != k && flights[j].trade == i ==> flights[j].phase.Done?
    ensures Sum(flights, MovedFor(i)) == 0
  {
    ZeroSum(flights, MovedFor(i));
  }

  lemma SameFlightsTracked(s: State, after: State)
    requires Tracked(s) && after.trades == s.trades && after.flights == s.flights
    ensures Tracked(after)
  {
    forall j | 0 <= j < |after.trades|
      ensures PayoutTracked(after.trades[j], InFlight(after, j), InFlightMoved(after, j))
    {
      assert PayoutTracked(s.trades[j], InFlight(s, j), InFlightMoved(s, j));
    }
  }

  ghost predicate Invariant(s: State)
  {
    WellFormed(s) && Tracked(s) && DistinctNullifiers(s) && SettledIsClosed(s) && Conserved(s)
  }

  // ----- Every step keeps the invariant -----

  lemma SettleTracked(s: State, poll: PollId, verdict: Verdict)
    requires Tracked(s) && CanSettle(s, poll)
    ensures Tracked(AfterSettle(s, poll, verdict))
  {
  }

  lemma SettleConserves(s: State, poll: PollId, verdict: Verdict)
    requires Tracked(s) && CanSettle(s, poll) && Conserved(s)
    ensures Conserved(AfterSettle(s, poll, verdict))
  {
    var settled := SettleTrades(s.trades, poll, verdict);
    forall i | 0 <= i < |settled| ensures PaidAmount(settled[i]) == PaidAmount(s.trades[i]) {
      assert PayoutTracked(s.trades[i], InFlight(s, i), InFlightMoved(s, i));
    }
    SumSame(s.trades, PaidAmount, settled, PaidAmount);
  }

  lemma SettleWellFormed(s: State, poll: PollId, verdict: Verdict)
    requires WellFormed(s) && CanSettle(s, poll)
    ensures WellFormed(AfterSettle(s, poll, verdict))
  {
  }

  lemma SettleCloses(s: State, poll: PollId, verdict: Verdict)
    requires SettledIsClosed(s) && CanSettle(s, poll)
    ensures SettledIsClosed(AfterSettle(s, poll, verdict))
  {
  }

  lemma SettleKeeps(s: State, poll: PollId, verdict: Verdict)
    requires Invariant(s) && CanSettle(s, poll)
    ensures Invariant(AfterSettle(s, poll, verdict))
  {
    SettleTracked(s, poll, verdict);
    SettleConserves(s, poll, verdict);
    SettleWellFormed(s, poll, verdict);
    SettleCloses(s, poll, verdict);
  }

  lemma CashOutTracked(s: State, user: UserId, poll: PollId, side: Side, proceeds: nat, parts: seq<nat>,
                       outcome: Outcome)
    requires Tracked(s) && |parts| == |s.trades|
    ensures Tracked(AfterCashOut(s, user, poll, side, proceeds, parts, outcome))
  {
  }

  lemma CashOutConserves(s: State, user: UserId, poll: PollId, side: Side, proceeds: nat, parts: seq<nat>,
                         outcome: Outcome)
    requires Tracked(s) && Conserved(s) && |parts| == |s.trades|
    requires Total(PartsOf(s.trades, parts, user, poll, side)) == proceeds
    ensures Conserved(AfterCashOut(s, user, poll, side, proceeds, parts, outcome))
  {
    var after := AfterCashOut(s, user, poll, side, proceeds, parts, outcome);
    var shares := PartsOf(s.trades, parts, user, poll, side);
    forall i | 0 <= i < |after.trades|
      ensures PaidAmount(after.trades[i]) == PaidAmount(s.trades[i]) + (if outcome.Reverted? then 0 else shares[i])
    {
      assert PayoutTracked(s.trades[i], InFlight(s, i), InFlightMoved(s, i));
    }
    if outcome.Reverted? {
      SumSame(s.trades, PaidAmount, after.trades, PaidAmount);
    } else {
      SumDelta(s.trades, PaidAmount, after.trades, PaidAmount, shares);
      SumSame(shares, (d: int) => d, shares, (x: int) => x);
    }
  }

  lemma CashOutWellFormed(s: State, user: UserId, poll: PollId, side: Side, proceeds: nat, parts: seq<nat>,
                          outcome: Outcome)
    requires WellFormed(s) && |parts| == |s.trades|
    ensures WellFormed(AfterCashOut(s, user, poll, side, proceeds, parts, outcome))
  {
  }

  lemma CashOutCloses(s: State, user: UserId, poll: PollId, side: Side, proceeds: nat, parts: seq<nat>,
                      outcome: Outcome)
    requires SettledIsClosed(s) && |parts| == |s.trades|
    ensures SettledIsClosed(AfterCashOut(s, user, poll, side, proceeds, parts, outcome))
  {
  }

  lemma CashOutKeeps(s: State, user: UserId, poll: PollId, side: Side, proceeds: nat, parts: seq<nat>, outcome: Outcome)
    requires Invariant(s) && |parts| == |s.trades|
    requires Total(PartsOf(s.trades, parts, user, poll, side)) == proceeds
    ensures Invariant(AfterCashOut(s, user, poll, side, proceeds, parts, outcome))
  {
    CashOutTracked(s, user, poll, side, proceeds, parts, outcome);
    CashOutConserves(s, user, poll, side, proceeds, parts, outcome);
    CashOutWellFormed(s, user, poll, side, proceeds, parts, outcome);
    CashOutCloses(s, user, poll, side, proceeds, parts, outcome);
  }

  lemma PlaceTracked(s: State, t: Trade)
    requires WellFormed(s) && Tracked(s) && FreshTrade(t) && t.shares == t.potentialPayout
    ensures Tracked(s.(trades := s.trades + [t]))
  {
    var after := s.(trades := s.trades + [t]);
    forall i | 0 <= i < |after.trades|
      ensures PayoutTracked(after.trades[i], InFlight(after, i), InFlightMoved(after, i))
    {
      if i < |s.trades| {
        assert PayoutTracked(s.trades[i], InFlight(s, i), InFlightMoved(s, i));
      } else {
        ZeroSum(s.flights, FlyingFor(i));
        ZeroSum(s.flights, MovedFor(i));
      }
    }
  }

  lemma PlaceWellFormed(cfg: Config, s: State, t: Trade, feeBps: nat)
    requires WellFormed(s) && CanPlace(cfg, s, t, feeBps)
    ensures WellFormed(s.(trades := s.trades + [t]))
  {
  }

  lemma PlaceKeeps(cfg: Config, s: State, t: Trade, feeBps: nat)
    requires Invariant(s) && CanPlace(cfg, s, t, feeBps) && FreshTrade(t) && t.shares == t.potentialPayout
    ensures Invariant(s.(trades := s.trades + [t]))
  {
    PlaceTracked(s, t);
    PlaceWellFormed(cfg, s, t, feeBps);
    SumAppend(s.trades, t, PaidAmount);
  }

  lemma MarkPendingTracked(s: State, i: nat, claim: Option<nat>)
    requires Invariant(s) && i < |s.trades|
    requires s.trades[i].payoutStatus !in {ClaimPending, Sent, Submitted} && !s.trades[i].status.Open?
    ensures var after := MarkPending(s, i, claim);
            Tracked(after) && SettledIsClosed(after) && Conserved(after)
  {
    var after := MarkPending(s, i, claim);
    forall j | 0 <= j < |after.trades|
      ensures PayoutTracked(after.trades[j], InFlight(after, j), InFlightMoved(after, j))
    {
      assert PayoutTracked(s.trades[j], InFlight(s, j), InFlightMoved(s, j));
      NewFlightCounts(s.flights, Flight(i, claim, Waiting), j);
      MovedAreFlying(s.flights, j);
    }
    SumUpdate(s.trades, i, after.trades[i], PaidAmount);
  }

  lemma ReservePublicKeeps(s: State, user: UserId, i: nat)
    requires Invariant(s) && CanReservePublic(s, user, i)
    ensures Invariant(MarkPending(s, i, None))
  {
    assert PayoutTracked(s.trades[i], InFlight(s, i), InFlightMoved(s, i));
    MarkPendingTracked(s, i, None);
  }

  /** A claim that is reserved is the one with its nullifier, and belongs to the trade. */
  lemma ReservePrivateWellFormed(s: State, user: UserId, i: nat, leaf: LeafId, nullifier: nat)
    requires WellFormed(s) && DistinctNullifiers(s) && CanReservePrivate(s, user, i, leaf, nullifier)
    ensures WellFormed(AfterReservePrivate(s, user, i, leaf, nullifier))
    ensures DistinctNullifiers(AfterReservePrivate(s, user, i, leaf, nullifier))
  {
  }

  lemma CanBePending(s: State, user: UserId, i: nat, leaf: LeafId, nullifier: nat)
    requires Tracked(s) && CanReservePrivate(s, user, i, leaf, nullifier)
    ensures s.trades[i].payoutStatus !in {ClaimPending, Sent, Submitted} && !s.trades[i].status.Open?
  {
    assert PayoutTracked(s.trades[i], InFlight(s, i), InFlightMoved(s, i));
  }

  lemma ReservePrivateKeeps(s: State, user: UserId, i: nat, leaf: LeafId, nullifier: nat)
    requires Invariant(s) && CanReservePrivate(s, user, i, leaf, nullifier)
    ensures Invariant(AfterReservePrivate(s, user, i, leaf, nullifier))
  {
    var pending := MarkPending(s, i, Some(FindClaim(s.claims, nullifier)));
    CanBePending(s, user, i, leaf, nullifier);
    MarkPendingTracked(s, i, Some(FindClaim(s.claims, nullifier)));
    SameFlightsTracked(pending, AfterReservePrivate(s, user, i, leaf, nullifier));
    ReservePrivateWellFormed(s, user, i, leaf, nullifier);
  }

  lemma SendTracked(s: State, k: nat)
    requires Invariant(s) && k < |s.flights| && s.flights[k].phase.Waiting?
    ensures Tracked(AfterSend(s, k))
  {
    var after := AfterSend(s, k);
    FlightIsAlone(s, k);
    forall j | 0 <= j < |after.trades|
      ensures PayoutTracked(after.trades[j], InFlight(after, j), InFlightMoved(after, j))
    {
      assert PayoutTracked(s.trades[j], InFlight(s, j), InFlightMoved(s, j));
      FlightCounts(s.flights, k, after.flights[k], j);
    }
  }

  lemma SendConserved(s: State, k: nat)
    requires WellFormed(s) && Conserved(s) && k < |s.flights|
    ensures Conserved(AfterSend(s, k))
  {
    SumUpdate(s.trades, s.flights[k].trade, AfterSend(s, k).trades[s.flights[k].trade], PaidAmount);
  }

  lemma SendKeeps(s: State, k: nat)
    requires Invariant(s) && k < |s.flights| && s.flights[k].phase.Waiting?
    ensures Invariant(AfterSend(s, k))
  {
    SendTracked(s, k);
    SendConserved(s, k);
  }

  lemma FinishTracked(s: State, k: nat, outcome: Outcome)
    requires Invariant(s) && CanFinish(s, k)
    ensures Tracked(AfterFinish(s, k, outcome))
  {
    var after := AfterFinish(s, k, outcome);
    FlightIsAlone(s, k);
    forall j | 0 <= j < |after.trades|
      ensures PayoutTracked(after.trades[j], InFlight(after, j), InFlightMoved(after, j))
    {
      assert PayoutTracked(s.trades[j], InFlight(s, j), InFlightMoved(s, j));
      FlightCounts(s.flights, k, after.flights[k], j);
    }
  }

  lemma FinishConserved(s: State, k: nat, outcome: Outcome)
    requires Invariant(s) && CanFinish(s, k)
    ensures Conserved(AfterFinish(s, k, outcome))
  {
    var i := s.flights[k].trade;
    FlightIsAlone(s, k);
    assert PayoutTracked(s.trades[i], InFlight(s, i), InFlightMoved(s, i));
    SumUpdate(s.trades, i, AfterFinish(s, k, outcome).trades[i], PaidAmount);
  }

  lemma FinishKeeps(s: State, k: nat, outcome: Outcome)
    requires Invariant(s) && CanFinish(s, k)
    ensures Invariant(AfterFinish(s, k, outcome))
  {
    FinishTracked(s, k, outcome);
    FinishConserved(s, k, outcome);
  }

  lemma LateRevertTracked(s: State, i: nat)
    requires Tracked(s) && CanRevertLate(s, i)
    ensures Tracked(AfterLateRevert(s, i))
  {
    var after := AfterLateRevert(s, i);
    forall j | 0 <= j < |after.trades|
      ensures PayoutTracked(after.trades[j], InFlight(after, j), InFlightMoved(after, j))
    {
      assert PayoutTracked(s.trades[j], InFlight(s, j), InFlightMoved(s, j));
    }
  }

  lemma LateRevertConserved(s: State, i: nat)
    requires Conserved(s) && CanRevertLate(s, i)
    ensures Conserved(AfterLateRevert(s, i))
  {
    SumUpdate(s.trades, i, AfterLateRevert(s, i).trades[i], PaidAmount);
  }

  lemma LateRevertKeeps(s: State, i: nat)
    requires Invariant(s) && CanRevertLate(s, i)
    ensures Invariant(AfterLateRevert(s, i))
  {
    LateRevertTracked(s, i);
    LateRevertConserved(s, i);
  }

  lemma BookkeepingWellFormed(cfg: Config, s: State, step: Step)
    requires WellFormed(s) && Allowed(cfg, s, step)
    requires step.AddPoll? || step.SetPollStatus? || step.Deposit? || step.Spend?
    ensures WellFormed(Next(cfg, s, step))
  {
  }

  lemma BookkeepingCloses(cfg: Config, s: State, step: Step)
    requires WellFormed(s) && SettledIsClosed(s) && Allowed(cfg, s, step)
    requires step.AddPoll? || step.SetPollStatus? || step.Deposit? || step.Spend?
    ensures SettledIsClosed(Next(cfg, s, step))
  {
  }

  lemma BookkeepingKeeps(cfg: Config, s: State, step: Step)
    requires Invariant(s) && Allowed(cfg, s, step)
    requires step.AddPoll? || step.SetPollStatus? || step.Deposit? || step.Spend?
    ensures Invariant(Next(cfg, s, step))
  {
    SameFlightsTracked(s, Next(cfg, s, step));
    BookkeepingWellFormed(cfg, s, step);
    BookkeepingCloses(cfg, s, step);
  }

  /** No step breaks the invariant, whether or not the guarantee is switched on. */
  lemma StepKeepsInvariant(cfg: Config, s: State, step: Step)
    requires Invariant(s)
    ensures Invariant(Next(cfg, s, step))
  {
    if Allowed(cfg, s, step) {
      match step
      case PlaceTrade(user, poll, side, amount, shares, escrow, feeBps, leaf) =>
        PlaceKeeps(cfg, s, NewTrade(user, poll, side, amount, shares, escrow, leaf), feeBps);
      case CashOut(user, poll, side, proceeds, parts, outcome) =>
        CashOutKeeps(s, user, poll, side, proceeds, parts, outcome);
      case Settle(poll, verdict) => SettleKeeps(s, poll, verdict);
      case ReservePublic(user, i) => ReservePublicKeeps(s, user, i);
      case ReservePrivate(user, i, leaf, nullifier) => ReservePrivateKeeps(s, user, i, leaf, nullifier);
      case SendClaim(k) => SendKeeps(s, k);
      case FinishClaim(k, outcome) => FinishKeeps(s, k, outcome);
      case LateRevert(i) => LateRevertKeeps(s, i);
      case _ => BookkeepingKeeps(cfg, s, step);
    }
  }
}
