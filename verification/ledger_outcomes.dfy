/** What the steps of the ledger achieve: how a payout that ended is recorded and counted, what a settlement opens to
    claims and to whom, and when a market trades. */
module LedgerOutcomes {
  import opened Collateral
  import opened Ledger
  import opened LedgerSafety
  import opened LedgerSolvency
  import opened Money
  import opened Sums
  import opened Wrappers

  // ----- Changing one fixed payout -----

  /** What one trade that is not open adds to its market's requirement. */
  function Fixed(t: Trade): int
  {
    if HasFixedPayout(t) && !t.payoutStatus.Sent? then t.settlementPayout else 0
  }

  /** Changing one trade that is not open moves the requirement by exactly what that trade requires. */
  lemma RequiredAfterOneTrade(polls: seq<PollId>, trades: seq<Trade>, i: nat, t: Trade)
    requires Distinct(polls) && i < |trades| && trades[i].poll in polls
    requires t.poll == trades[i].poll && !t.status.Open? && !trades[i].status.Open?
    ensures TotalRequired(polls, trades[i := t]) == TotalRequired(polls, trades) - Fixed(trades[i]) + Fixed(t)
  {
    var p := t.poll;
    var changed := trades[i := t];
    forall q | q in polls && q != p ensures MarketOf(changed, q) == MarketOf(trades, q) {
      OtherMarketsKeep(trades, changed, p, q);
    }
    SumUpdate(trades, i, t, YesOn(p));
    SumUpdate(trades, i, t, NoOn(p));
    SumUpdate(trades, i, t, RefundOn(p));
    SumUpdate(trades, i, t, FixedOn(p));
    LiabilitiesNonNegative(trades, p);
    LiabilitiesNonNegative(changed, p);
    OnlyOnePollChanges(polls, trades, changed, p);
  }

  // ----- How a claim ends -----

  /** The ledger once the payout of a waiting claim has been sent and its transfer has ended. */
  function SentAndEnded(cfg: Config, s: State, k: nat, outcome: Outcome): State
  {
    Next(cfg, Next(cfg, s, SendClaim(k)), FinishClaim(k, outcome))
  }

  lemma EndedTrade(cfg: Config, s: State, k: nat, outcome: Outcome)
    requires Invariant(s) && CanSend(cfg, s, k)
    ensures var after := SentAndEnded(cfg, s, k, outcome);
            var i, t := s.flights[k].trade, s.trades[s.flights[k].trade];
            && after == AfterFinish(AfterSend(s, k), k, outcome)
            && |after.trades| == |s.trades| && after.trades == s.trades[i := after.trades[i]]
            && after.trades[i] == t.(payoutStatus := after.trades[i].payoutStatus, paidOut := after.trades[i].paidOut)
            && after.trades[i].paidOut == if outcome.Reverted? then 0 else 1
  {
    var i := s.flights[k].trade;
    SendKeeps(s, k);
    FlightIsAlone(s, k);
    assert PayoutTracked(s.trades[i], InFlight(s, i), InFlightMoved(s, i));
    assert CanFinish(AfterSend(s, k), k);
  }

  /** What a claim that was sent is recorded as: sent when it was confirmed, submitted while its end is not known, and
      failed, by the path it came on, when it was reverted. */
  lemma EndedClaimIsRecorded(cfg: Config, s: State, k: nat, outcome: Outcome)
    requires Invariant(s) && CanSend(cfg, s, k)
    ensures var after, i := SentAndEnded(cfg, s, k, outcome), s.flights[k].trade;
            && |after.trades| == |s.trades|
            && (outcome.Confirmed? ==> after.trades[i].payoutStatus == Sent)
            && (outcome.Pending? ==> after.trades[i].payoutStatus == Submitted)
            && (outcome.Reverted? ==>
                  after.trades[i].payoutStatus == if s.flights[k].claim.Some? then ClaimFailed else PayoutFailed)
            && after.wallet == s.wallet - (if outcome.Reverted? then 0 else s.trades[i].settlementPayout)
            && forall j :: 0 <= j < |s.trades| && j != i ==> after.trades[j] == s.trades[j]
  {
    var i := s.flights[k].trade;
    EndedTrade(cfg, s, k, outcome);
    FlightIsAlone(s, k);
  }

  /** A confirmed payout is released from the requirement, one that is not known to have arrived is not; either way it
      is no longer owed. A reverted one is required and owed as before. */
  lemma OnlyConfirmedPayoutsAreReleased(cfg: Config, s: State, k: nat, outcome: Outcome)
    requires Invariant(s) && CanSend(cfg, s, k)
    ensures var after, payout := SentAndEnded(cfg, s, k, outcome), s.trades[s.flights[k].trade].settlementPayout;
            && TotalRequired(after.polls, after.trades)
               == TotalRequired(s.polls, s.trades) - (if outcome.Confirmed? then payout else 0)
            && TotalOwed(after.polls, after.trades)
               == TotalOwed(s.polls, s.trades) - (if outcome.Reverted? then 0 else payout)
  {
    var i := s.flights[k].trade;
    EndedTrade(cfg, s, k, outcome);
    EndedClaimIsRecorded(cfg, s, k, outcome);
    WaitingPayoutIsFixed(s, k);
    FlightIsAlone(s, k);
    assert PayoutTracked(s.trades[i], InFlight(s, i), InFlightMoved(s, i));
    var t := SentAndEnded(cfg, s, k, outcome).trades[i];
    RequiredAfterOneTrade(s.polls, s.trades, i, t);
    OwedAfterOneTrade(s.polls, s.trades, i, t);
  }

  /** A payout that was recorded as submitted can still come back: the wallet then holds it again, and what is owed is
      what it was before the payout was sent. The requirement has counted it all along. */
  lemma PendingPayoutCanComeBack(cfg: Config, s: State, k: nat)
    requires Invariant(s) && CanSend(cfg, s, k)
    ensures var pending, i := SentAndEnded(cfg, s, k, Pending), s.flights[k].trade;
            var back := Next(cfg, pending, LateRevert(i));
            && Allowed(cfg, pending, LateRevert(i))
            && back.wallet == s.wallet && back.polls == s.polls
            && TotalRequired(back.polls, back.trades) == TotalRequired(s.polls, s.trades)
            && TotalOwed(back.polls, back.trades) == TotalOwed(s.polls, s.trades)
  {
    var pending, i := SentAndEnded(cfg, s, k, Pending), s.flights[k].trade;
    EndedTrade(cfg, s, k, Pending);
    EndedClaimIsRecorded(cfg, s, k, Pending);
    assert CanRevertLate(pending, i);
    BackAgain(s, k, pending.trades[i].(paidOut := 0));
    assert AfterLateRevert(pending, i).trades == s.trades[i := pending.trades[i].(paidOut := 0)];
  }

  lemma BackAgain(s: State, k: nat, t: Trade)
    requires Invariant(s) && k < |s.flights| && s.flights[k].phase.Waiting? && s.flights[k].trade < |s.trades|
    requires s.trades[s.flights[k].trade].settlementPayout > 0
    requires t == s.trades[s.flights[k].trade].(payoutStatus := Submitted, paidOut := 0)
    ensures TotalRequired(s.polls, s.trades[s.flights[k].trade := t]) == TotalRequired(s.polls, s.trades)
    ensures TotalOwed(s.polls, s.trades[s.flights[k].trade := t]) == TotalOwed(s.polls, s.trades)
  {
    var i := s.flights[k].trade;
    WaitingPayoutIsFixed(s, k);
    FlightIsAlone(s, k);
    assert PayoutTracked(s.trades[i], InFlight(s, i), InFlightMoved(s, i));
    RequiredAfterOneTrade(s.polls, s.trades, i, t);
    OwedAfterOneTrade(s.polls, s.trades, i, t);
  }

  // ----- How a cash-out ends -----

  /** A cash-out closes the open trades of this user on this side of this market, each with its part of the proceeds,
      and touches no other trade. */
  lemma CashoutClosesThePosition(cfg: Config, s: State, user: UserId, poll: PollId, side: Side, proceeds: nat,
                                 parts: seq<nat>, outcome: Outcome, i: nat)
    requires Allowed(cfg, s, CashOut(user, poll, side, proceeds, parts, outcome)) && i < |s.trades|
    ensures var after := Next(cfg, s, CashOut(user, poll, side, proceeds, parts, outcome));
            var t := s.trades[i];
            && |after.trades| == |s.trades|
            && if t.status == Open && t.user == user && t.poll == poll && t.side == side then
                 && after.trades[i].status == CashedOut && after.trades[i].settlementPayout == parts[i]
                 && (outcome.Confirmed? ==> after.trades[i].payoutStatus == Sent)
                 && (outcome.Pending? ==> after.trades[i].payoutStatus == Submitted)
                 && (outcome.Reverted? ==> after.trades[i].payoutStatus == PayoutFailed)
               else after.trades[i] == t
  {
  }

  /** So the position is gone, and cannot be cashed out again. */
  lemma CashedOutOnce(cfg: Config, s: State, user: UserId, poll: PollId, side: Side, proceeds: nat, parts: seq<nat>,
                      outcome: Outcome)
    requires Allowed(cfg, s, CashOut(user, poll, side, proceeds, parts, outcome))
    ensures var after := Next(cfg, s, CashOut(user, poll, side, proceeds, parts, outcome));
            && FullCashout(after.trades, user, poll, side).shares == 0
            && forall more, others, end :: !Allowed(cfg, after, CashOut(user, poll, side, more, others, end))
  {
    var after := Next(cfg, s, CashOut(user, poll, side, proceeds, parts, outcome));
    forall i | 0 <= i < |after.trades| ensures PositionShares(user, poll, side)(after.trades[i]) == 0 {
      CashoutClosesThePosition(cfg, s, user, poll, side, proceeds, parts, outcome, i);
    }
    ZeroSum(after.trades, PositionShares(user, poll, side));
  }

  /** The proceeds of a cash-out stay required unless it was confirmed. */
  lemma FixedAfterCashout(trades: seq<Trade>, user: UserId, poll: PollId, side: Side, parts: seq<nat>,
                          payoutStatus: PayoutStatus, paidOut: nat)
    requires |parts| == |trades| && !payoutStatus.Sent?
    ensures Sum(CashOutTrades(trades, user, poll, side, parts, payoutStatus, paidOut), FixedOn(poll))
         == Sum(CashOutTrades(trades, user, poll, side, parts, Sent, 1), FixedOn(poll))
            + Total(PartsOf(trades, parts, user, poll, side))
  {
    var sent := CashOutTrades(trades, user, poll, side, parts, Sent, 1);
    var kept := CashOutTrades(trades, user, poll, side, parts, payoutStatus, paidOut);
    var shares := PartsOf(trades, parts, user, poll, side);
    SumDelta(sent, FixedOn(poll), kept, FixedOn(poll), shares);
    SumSame(shares, (d: int) => d, shares, (x: int) => x);
  }

  /** Two lists of trades that differ in payouts only. */
  ghost predicate SameDeals(xs: seq<Trade>, ys: seq<Trade>)
  {
    && |xs| == |ys|
    && forall i :: 0 <= i < |xs| ==>
         && xs[i].poll == ys[i].poll && xs[i].status == ys[i].status && xs[i].side == ys[i].side
         && xs[i].amount == ys[i].amount && xs[i].potentialPayout == ys[i].potentialPayout
  }

  lemma SameDealsRequire(xs: seq<Trade>, ys: seq<Trade>, p: PollId)
    requires SameDeals(xs, ys)
    ensures Sum(xs, FixedOn(p)) >= 0 && Sum(ys, FixedOn(p)) >= 0
    ensures MarketOf(ys, p).required - MarketOf(xs, p).required == Sum(ys, FixedOn(p)) - Sum(xs, FixedOn(p))
  {
    SumSame(xs, YesOn(p), ys, YesOn(p));
    SumSame(xs, NoOn(p), ys, NoOn(p));
    SumSame(xs, RefundOn(p), ys, RefundOn(p));
    LiabilitiesNonNegative(xs, p);
    LiabilitiesNonNegative(ys, p);
  }

  lemma RequiredAfterCashout(polls: seq<PollId>, trades: seq<Trade>, user: UserId, poll: PollId, side: Side,
                             parts: seq<nat>, payoutStatus: PayoutStatus, paidOut: nat)
    requires Distinct(polls) && poll in polls && |parts| == |trades| && !payoutStatus.Sent?
    ensures TotalRequired(polls, CashOutTrades(trades, user, poll, side, parts, payoutStatus, paidOut))
         == TotalRequired(polls, CashOutTrades(trades, user, poll, side, parts, Sent, 1))
            + Total(PartsOf(trades, parts, user, poll, side))
  {
    var sent := CashOutTrades(trades, user, poll, side, parts, Sent, 1);
    var kept := CashOutTrades(trades, user, poll, side, parts, payoutStatus, paidOut);
    assert SameElsewhere(sent, kept, poll);
    forall q | q in polls && q != poll ensures MarketOf(kept, q) == MarketOf(sent, q) {
      OtherMarketsKeep(sent, kept, poll, q);
    }
    assert SameDeals(sent, kept);
    SameDealsRequire(sent, kept, poll);
    FixedAfterCashout(trades, user, poll, side, parts, payoutStatus, paidOut);
    OnlyOnePollChanges(polls, sent, kept, poll);
  }

  /** A confirmed cash-out lowers the requirement to that without the position, for every truthful report; one that is
      not known to have arrived, or was reverted, leaves its proceeds on top of that. */
  lemma OnlyConfirmedCashoutsAreReleased(cfg: Config, s: State, r: Requirement, user: UserId, poll: PollId,
                                         side: Side, proceeds: nat, parts: seq<nat>, outcome: Outcome)
    requires Invariant(s) && Allowed(cfg, s, CashOut(user, poll, side, proceeds, parts, outcome))
    requires Agrees(r, s.polls, s.trades)
    ensures var after := Next(cfg, s, CashOut(user, poll, side, proceeds, parts, outcome));
            var without := WithoutPosition(r, FullCashout(s.trades, user, poll, side));
            && TotalRequired(after.polls, after.trades) == without.total + (if outcome.Confirmed? then 0 else proceeds)
            && without.total <= r.total
            && after.wallet == s.wallet - (if outcome.Reverted? then 0 else proceeds)
  {
    TrackedOpenIsBlank(s);
    CashoutProjectionIsRecompute(r, s.polls, s.trades, user, poll, side, parts, 1);
    TakingNeverRaises(r, s, user, poll, side);
    if !outcome.Confirmed? {
      RequiredAfterCashout(s.polls, s.trades, user, poll, side, parts, StatusOf(outcome),
                           if outcome.Reverted? then 0 else 1);
    }
  }

  lemma TakingNeverRaises(r: Requirement, s: State, user: UserId, poll: PollId, side: Side)
    requires Agrees(r, s.polls, s.trades) && poll in s.polls
    ensures WithoutPosition(r, FullCashout(s.trades, user, poll, side)).total <= r.total
  {
    CashoutFigures(r, s.polls, s.trades, user, poll, side, poll);
    TakingReleases(s.trades, user, poll, side);
  }

  // ----- Settlement -----

  /** A settled trade says what the verdict made of it: refunded, won for its shares, or lost for nothing. It is
      claimable exactly when it is paid. */
  lemma SettledTradeSaysTheVerdict(cfg: Config, s: State, poll: PollId, verdict: Verdict, i: nat)
    requires Allowed(cfg, s, Settle(poll, verdict)) && i < |s.trades|
    ensures var after, t := Next(cfg, s, Settle(poll, verdict)), s.trades[i];
            && |after.trades| == |s.trades|
            && if t.poll != poll || t.status != Open then after.trades[i] == t
               else
                 var won := (verdict == ResolveYes && t.side == Yes) || (verdict == ResolveNo && t.side == No);
                 && (verdict == Cancel ==>
                       after.trades[i].status == Cancelled && after.trades[i].settlementPayout == t.amount)
                 && (verdict != Cancel && won ==>
                       after.trades[i].status == Won && after.trades[i].settlementPayout == t.potentialPayout)
                 && (verdict != Cancel && !won ==>
                       after.trades[i].status == Lost && after.trades[i].settlementPayout == 0)
                 && after.trades[i].payoutStatus
                    == if after.trades[i].settlementPayout > 0 then Claimable else NoPayout
  {
  }

  /** A known market can be settled once, whatever its status: it is settled exactly when it was before or this step
      settles it, and a verdict decides its status for good. */
  lemma SettledExactlyOnce(cfg: Config, s: State, step: Step, p: PollId)
    requires Invariant(s) && p in s.info
    ensures var after := Next(cfg, s, step);
            && p in after.info
            && (after.info[p].settled <==> s.info[p].settled || (step.Settle? && step.poll == p))
            && (s.info[p].settled ==> after.info[p].status == s.info[p].status)
            && (step.Settle? && step.poll == p && !s.info[p].settled ==>
                  after.info[p].status == if step.verdict == Cancel then Voided else Resolved)
  {
  }

  /** A trade of the market that the verdict pays, with the owner and the leaf to claim it with. */
  predicate IsPaidBy(s: State, poll: PollId, verdict: Verdict, user: UserId, leaf: LeafId, i: nat)
  {
    && i < |s.trades| && s.trades[i].poll == poll && s.trades[i].status == Open
    && s.trades[i].user == user && s.trades[i].leaf == leaf && PayoutFor(s.trades[i], verdict) > 0
  }

  /** After a settlement every trade that is paid can be claimed by its owner, in public, and in private with a
      nullifier that was not used. */
  lemma SettlementOpensTheClaims(cfg: Config, s: State, poll: PollId, verdict: Verdict, user: UserId, leaf: LeafId,
                                 i: nat, nullifier: nat)
    requires Invariant(s) && CanSettle(s, poll) && IsPaidBy(s, poll, verdict, user, leaf, i)
    requires forall c :: 0 <= c < |s.claims| ==> s.claims[c].nullifier != nullifier
    ensures var after := Next(cfg, s, Settle(poll, verdict));
            && Allowed(cfg, after, ReservePublic(user, i))
            && Allowed(cfg, after, ReservePrivate(user, i, leaf, nullifier))
  {
    SettledTradeSaysTheVerdict(cfg, s, poll, verdict, i);
  }

  /** A trade that the verdict does not pay cannot be claimed by anybody. */
  lemma LosersCannotClaim(cfg: Config, s: State, poll: PollId, verdict: Verdict, user: UserId, leaf: LeafId, i: nat,
                          nullifier: nat)
    requires Invariant(s) && CanSettle(s, poll) && i < |s.trades|
    requires s.trades[i].poll == poll && s.trades[i].status == Open && PayoutFor(s.trades[i], verdict) == 0
    ensures var after := Next(cfg, s, Settle(poll, verdict));
            && !Allowed(cfg, after, ReservePublic(user, i))
            && !Allowed(cfg, after, ReservePrivate(user, i, leaf, nullifier))
  {
    SettledTradeSaysTheVerdict(cfg, s, poll, verdict, i);
  }

  // ----- Who may claim, and how often -----

  /** The claim is its trade's owner's, with the leaf of the trade, which was settled with a payout. */
  predicate Fits(claim: PrivateClaim, trades: seq<Trade>)
  {
    && claim.trade < |trades|
    && claim.user == trades[claim.trade].user && claim.leaf == trades[claim.trade].leaf
    && (trades[claim.trade].status == Won || trades[claim.trade].status == Cancelled)
    && trades[claim.trade].settlementPayout > 0
  }

  ghost predicate ClaimsFit(s: State)
  {
    forall c :: 0 <= c < |s.claims| ==> Fits(s.claims[c], s.trades)
  }

  /** A trade keeps its owner, its market, its side, its stake and its leaf. */
  lemma StepKeepsTheDeal(cfg: Config, s: State, step: Step, i: nat)
    requires i < |s.trades|
    ensures var t, after := s.trades[i], Next(cfg, s, step).trades;
            && i < |after|
            && after[i].user == t.user && after[i].poll == t.poll && after[i].side == t.side
            && after[i].amount == t.amount && after[i].shares == t.shares
            && after[i].potentialPayout == t.potentialPayout && after[i].leaf == t.leaf
  {
  }

  /** A claim keeps its trade, its user, its leaf and its nullifier. */
  lemma StepKeepsClaims(cfg: Config, s: State, step: Step, c: nat)
    requires c < |s.claims|
    ensures var claim, after := s.claims[c], Next(cfg, s, step).claims;
            && c < |after| <= |s.claims| + 1
            && after[c] == claim.(status := after[c].status, hasTransactions := after[c].hasTransactions)
  {
  }

  lemma NewClaimFits(cfg: Config, s: State, step: Step)
    requires Invariant(s) && |Next(cfg, s, step).claims| > |s.claims|
    ensures Fits(Next(cfg, s, step).claims[|s.claims|], Next(cfg, s, step).trades)
  {
  }

  lemma OldClaimFits(cfg: Config, s: State, step: Step, c: nat)
    requires Invariant(s) && c < |s.claims| && Fits(s.claims[c], s.trades)
    ensures c < |Next(cfg, s, step).claims| && Fits(Next(cfg, s, step).claims[c], Next(cfg, s, step).trades)
  {
    StepKeepsClaims(cfg, s, step, c);
    StepKeepsTheDeal(cfg, s, step, s.claims[c].trade);
    StepKeepsClosedTrades(cfg, s, step, s.claims[c].trade);
  }

  lemma StepKeepsClaimsFit(cfg: Config, s: State, step: Step)
    requires Invariant(s) && ClaimsFit(s)
    ensures ClaimsFit(Next(cfg, s, step))
  {
    var after := Next(cfg, s, step);
    forall c | 0 <= c < |after.claims| ensures Fits(after.claims[c], after.trades) {
      if c < |s.claims| {
        OldClaimFits(cfg, s, step, c);
      } else {
        ClaimsGrowByOne(cfg, s, step);
        NewClaimFits(cfg, s, step);
      }
    }
  }

  lemma ClaimsGrowByOne(cfg: Config, s: State, step: Step)
    ensures |s.claims| <= |Next(cfg, s, step).claims| <= |s.claims| + 1
  {
  }

  lemma {:induction false} RunKeepsClaimsFit(cfg: Config, s: State, steps: seq<Step>)
    requires Invariant(s) && ClaimsFit(s)
    ensures ClaimsFit(Run(cfg, s, steps))
    decreases |steps|
  {
    if |steps| > 0 {
      StepKeepsInvariant(cfg, s, steps[0]);
      StepKeepsClaimsFit(cfg, s, steps[0]);
      RunKeepsClaimsFit(cfg, Next(cfg, s, steps[0]), steps[1..]);
    }
  }

  /** Only a reservation makes a payout pending. */
  lemma PendingIsReserved(cfg: Config, s: State, step: Step, i: nat)
    requires i < |s.trades| && s.trades[i].payoutStatus != ClaimPending
    requires i < |Next(cfg, s, step).trades| && Next(cfg, s, step).trades[i].payoutStatus == ClaimPending
    ensures Allowed(cfg, s, step) && (step.ReservePublic? || step.ReservePrivate?) && step.trade == i
  {
  }

  lemma ReservedByTheOwner(s: State, user: UserId, i: nat, leaf: LeafId, nullifier: nat)
    requires Invariant(s) && ClaimsFit(s)
    requires CanReservePublic(s, user, i) || CanReservePrivate(s, user, i, leaf, nullifier)
    ensures i < |s.trades| && user == s.trades[i].user
    ensures CanReservePrivate(s, user, i, leaf, nullifier) ==> leaf == s.trades[i].leaf
    ensures s.trades[i].status != Open && s.trades[i].settlementPayout > 0
  {
    assert PayoutTracked(s.trades[i], InFlight(s, i), InFlightMoved(s, i));
    var k := FindClaim(s.claims, nullifier);
    assert k < |s.claims| ==> Fits(s.claims[k], s.trades);
  }

  /** In every run only the owner of a trade reserves its payout, in private only with the leaf of the trade, and only
      for a trade that is closed with a payout. */
  lemma OnlyTheOwnerClaims(cfg: Config, wallet: nat, steps: seq<Step>, s: State, step: Step, i: nat)
    requires s == Run(cfg, Initial(wallet), steps) && i < |s.trades|
    requires s.trades[i].payoutStatus != ClaimPending
    requires i < |Next(cfg, s, step).trades| && Next(cfg, s, step).trades[i].payoutStatus == ClaimPending
    ensures step.ReservePublic? || step.ReservePrivate?
    ensures step.trade == i && step.user == s.trades[i].user
    ensures step.ReservePrivate? ==> step.leaf == s.trades[i].leaf
    ensures s.trades[i].status != Open && s.trades[i].settlementPayout > 0
  {
    InitialIsSafe(wallet);
    RunKeepsInvariant(cfg, Initial(wallet), steps);
    RunKeepsClaimsFit(cfg, Initial(wallet), steps);
    PendingIsReserved(cfg, s, step, i);
    match step
    case ReservePublic(user, _) => ReservedByTheOwner(s, user, i, 0, 0);
    case ReservePrivate(user, _, leaf, nullifier) => ReservedByTheOwner(s, user, i, leaf, nullifier);
  }

  /** A trade that was cashed out is never claimed in private, in any run. */
  lemma CashedOutIsNeverPrivate(cfg: Config, wallet: nat, steps: seq<Step>, s: State, i: nat, user: UserId,
                                leaf: LeafId, nullifier: nat)
    requires s == Run(cfg, Initial(wallet), steps) && i < |s.trades| && s.trades[i].status == CashedOut
    ensures !Allowed(cfg, s, ReservePrivate(user, i, leaf, nullifier))
  {
    InitialIsSafe(wallet);
    RunKeepsClaimsFit(cfg, Initial(wallet), steps);
    var k := FindClaim(s.claims, nullifier);
    assert k < |s.claims| ==> Fits(s.claims[k], s.trades);
  }

  /** A reservation starts one handler for the trade, which has sent nothing yet; in private it works for the claim with
      the nullifier. */
  lemma ReservationIsWaiting(cfg: Config, s: State, step: Step)
    requires Allowed(cfg, s, step) && (step.ReservePublic? || step.ReservePrivate?)
    ensures var after, k := Next(cfg, s, step), |s.flights|;
            && |after.flights| == k + 1 && after.flights[..k] == s.flights
            && after.flights[k].trade == step.trade && after.flights[k].phase == Waiting
            && (step.ReservePublic? ==> after.flights[k].claim == None)
            && (step.ReservePrivate? ==>
                  && after.flights[k].claim.Some? && after.flights[k].claim.value < |after.claims|
                  && after.claims[after.flights[k].claim.value].nullifier == step.nullifier)
            && after.wallet == s.wallet
  {
  }

  /** A reservation in private spends its nullifier: it is stored with the claim, and no further reservation is made
      with it while the claim is reserved, or once it is paid. */
  lemma NullifierIsSpent(cfg: Config, s: State, user: UserId, i: nat, leaf: LeafId, nullifier: nat,
                         other: UserId, j: nat, otherLeaf: LeafId)
    requires Allowed(cfg, s, ReservePrivate(user, i, leaf, nullifier))
    ensures var after := Next(cfg, s, ReservePrivate(user, i, leaf, nullifier));
            && (exists c :: 0 <= c < |after.claims| && after.claims[c].nullifier == nullifier
                            && after.claims[c].trade == i && after.claims[c].user == user
                            && after.claims[c].leaf == leaf && after.claims[c].status == ClaimReserved)
            && !Allowed(cfg, after, ReservePrivate(other, j, otherLeaf, nullifier))
  {
    var after := Next(cfg, s, ReservePrivate(user, i, leaf, nullifier));
    var c := FindClaim(s.claims, nullifier);
    assert after.claims[c].nullifier == nullifier;
    assert FindClaim(after.claims, nullifier) == c;
  }

  lemma NullifierFindsItsClaim(s: State, c: nat)
    requires DistinctNullifiers(s) && c < |s.claims|
    ensures FindClaim(s.claims, s.claims[c].nullifier) == c
  {
    var k := FindClaim(s.claims, s.claims[c].nullifier);
    assert k <= c;
  }

  /** A claim that failed without a transaction can be made again by its owner with the same nullifier, as long as no
      payout of the trade is on its way or recorded. */
  lemma RejectedClaimIsRetried(s: State, c: nat)
    requires DistinctNullifiers(s) && ClaimsFit(s) && c < |s.claims|
    requires s.claims[c].status == ClaimRejected && !s.claims[c].hasTransactions
    requires var payout := s.trades[s.claims[c].trade].payoutStatus; payout == ClaimFailed || payout == PayoutFailed
    ensures var claim := s.claims[c];
            CanReservePrivate(s, claim.user, claim.trade, claim.leaf, claim.nullifier)
  {
    NullifierFindsItsClaim(s, c);
  }

  lemma UnsentClaim(s: State, k: nat, c: nat, outcome: Outcome, after: State)
    requires Invariant(s) && ClaimsFit(s) && CanFinish(s, k) && after == AfterFinish(s, k, outcome)
    requires s.flights[k].phase == Waiting && s.flights[k].claim == Some(c)
    ensures DistinctNullifiers(after) && after.wallet == s.wallet
    ensures c < |after.claims| && after.claims[c] == s.claims[c].(status := ClaimRejected, hasTransactions := false)
    ensures var i := s.claims[c].trade;
            && i < |after.trades| && after.trades[i] == s.trades[i].(payoutStatus := ClaimFailed)
            && s.trades[i].user == s.claims[c].user && s.trades[i].settlementPayout > 0
  {
    assert Fits(s.claims[c], s.trades);
    FinishKeeps(s, k, outcome);
  }

  /** A private claim whose transfer was never sent, refused by the guard for instance, can be made again by its owner
      with the same nullifier, and in public; nothing else has changed. */
  lemma UnsentClaimIsOpenAgain(cfg: Config, s: State, k: nat, c: nat, outcome: Outcome)
    requires Invariant(s) && ClaimsFit(s) && CanFinish(s, k)
    requires s.flights[k].phase == Waiting && s.flights[k].claim == Some(c)
    ensures var after, claim := Next(cfg, s, FinishClaim(k, outcome)), s.claims[c];
            && after.wallet == s.wallet
            && Allowed(cfg, after, ReservePrivate(claim.user, claim.trade, claim.leaf, claim.nullifier))
            && Allowed(cfg, after, ReservePublic(claim.user, claim.trade))
  {
    var after := AfterFinish(s, k, outcome);
    UnsentClaim(s, k, c, outcome, after);
    NullifierFindsItsClaim(after, c);
  }

  lemma EndedClaim(cfg: Config, s: State, k: nat, c: nat, outcome: Outcome)
    requires Invariant(s) && CanSend(cfg, s, k) && s.flights[k].claim == Some(c)
    ensures var after := SentAndEnded(cfg, s, k, outcome);
            && c < |after.claims| == |s.claims|
            && after.claims[c].hasTransactions && after.claims[c].nullifier == s.claims[c].nullifier
            && after.claims[c].status == (if outcome.Reverted? then ClaimRejected else ClaimPaid)
            && DistinctNullifiers(after)
  {
    EndedTrade(cfg, s, k, outcome);
    SendKeeps(s, k);
    FinishKeeps(AfterSend(s, k), k, outcome);
  }

  lemma TransactionsSpendTheNullifier(s: State, c: nat, user: UserId, j: nat, leaf: LeafId)
    requires DistinctNullifiers(s) && c < |s.claims| && s.claims[c].hasTransactions
    ensures !CanReservePrivate(s, user, j, leaf, s.claims[c].nullifier)
  {
    NullifierFindsItsClaim(s, c);
  }

  /** Once a transfer of a private claim was sent its nullifier is lost, also when the transfer was reverted: only a
      claim without transactions is retried. */
  lemma SentClaimSpendsItsNullifier(cfg: Config, s: State, k: nat, c: nat, outcome: Outcome,
                                    user: UserId, j: nat, leaf: LeafId)
    requires Invariant(s) && CanSend(cfg, s, k) && s.flights[k].claim == Some(c) && c < |s.claims|
    ensures !Allowed(cfg, SentAndEnded(cfg, s, k, outcome), ReservePrivate(user, j, leaf, s.claims[c].nullifier))
  {
    EndedClaim(cfg, s, k, c, outcome);
    TransactionsSpendTheNullifier(SentAndEnded(cfg, s, k, outcome), c, user, j, leaf);
  }

  /** A payout whose transfer was reverted, on either path, is open to the owner of the trade: in public, and if the
      trade was settled in private too, with a nullifier that was not used. */
  lemma RevertedClaimIsOpenAgain(cfg: Config, s: State, k: nat, nullifier: nat)
    requires Invariant(s) && CanSend(cfg, s, k)
    requires forall c :: 0 <= c < |s.claims| ==> s.claims[c].nullifier != nullifier
    ensures var after, i, t := SentAndEnded(cfg, s, k, Reverted), s.flights[k].trade, s.trades[s.flights[k].trade];
            && Allowed(cfg, after, ReservePublic(t.user, i))
            && (t.status == Won || t.status == Cancelled ==>
                  Allowed(cfg, after, ReservePrivate(t.user, i, t.leaf, nullifier)))
  {
    EndedTrade(cfg, s, k, Reverted);
    EndedClaimIsRecorded(cfg, s, k, Reverted);
    NoNewNullifiers(cfg, s, k, nullifier);
  }

  lemma NoNewNullifiers(cfg: Config, s: State, k: nat, nullifier: nat)
    requires Invariant(s) && CanSend(cfg, s, k)
    requires forall c :: 0 <= c < |s.claims| ==> s.claims[c].nullifier != nullifier
    ensures FindClaim(SentAndEnded(cfg, s, k, Reverted).claims, nullifier)
         == |SentAndEnded(cfg, s, k, Reverted).claims|
  {
    var sent := Next(cfg, s, SendClaim(k));
    var after := Next(cfg, sent, FinishClaim(k, Reverted));
    forall c | 0 <= c < |after.claims| ensures after.claims[c].nullifier != nullifier {
      StepKeepsClaims(cfg, s, SendClaim(k), c);
      StepKeepsClaims(cfg, sent, FinishClaim(k, Reverted), c);
    }
  }

  /** So is every part of a cash-out that was reverted. */
  lemma RevertedCashoutIsPublic(cfg: Config, s: State, user: UserId, poll: PollId, side: Side, proceeds: nat,
                                parts: seq<nat>, i: nat)
    requires Allowed(cfg, s, CashOut(user, poll, side, proceeds, parts, Reverted))
    requires i < |s.trades| && InPosition(s.trades[i], user, poll, side) && parts[i] > 0
    ensures Allowed(cfg, Next(cfg, s, CashOut(user, poll, side, proceeds, parts, Reverted)), ReservePublic(user, i))
  {
    CashoutClosesThePosition(cfg, s, user, poll, side, proceeds, parts, Reverted, i);
  }

  // ----- When a market trades -----

  /** A new market has no trades, is neither frozen nor settled, and trades exactly if it is published. */
  lemma NewMarketIsBlank(cfg: Config, s: State, p: PollId, status: PollStatus)
    requires Invariant(s) && p !in s.info
    ensures var after := Next(cfg, s, AddPoll(p, status));
            && p in after.polls && p in after.info && after.trades == s.trades
            && after.info[p] == PollInfo(status, false, false)
            && (forall i :: 0 <= i < |after.trades| ==> after.trades[i].poll != p)
            && forall q :: q in s.info ==> q in after.info && after.info[q] == s.info[q]
  {
  }

  /** A market takes the status and the freeze that it is given, except that a settled one keeps its status, which is
      that of its verdict. */
  lemma MarketIsSwitched(cfg: Config, s: State, p: PollId, status: PollStatus, frozen: bool)
    requires p in s.info
    ensures var settled := s.info[p].settled;
            Next(cfg, s, SetPollStatus(p, status, frozen))
            == if settled && status != s.info[p].status then s
               else s.(info := s.info[p := PollInfo(status, frozen, settled)])
  {
  }

  /** On a market that is not published, or is frozen, nothing is bought and nothing is cashed out. */
  lemma ClosedMarketsDoNotTrade(cfg: Config, s: State, p: PollId, step: Step)
    requires p !in s.info || s.info[p].status != Published || s.info[p].frozen
    requires (step.PlaceTrade? || step.CashOut?) && step.poll == p
    ensures Next(cfg, s, step) == s
  {
  }

  /** An accepted stake is one of the six, was paid in full with its fee into an escrow that no other trade used and
      none will use, and its shares and its amount are added to what its market owes. */
  lemma PlacedStakeIsBacked(cfg: Config, s: State, user: UserId, poll: PollId, side: Side, amount: nat, shares: nat,
                            escrow: nat, feeBps: nat, leaf: LeafId)
    requires Allowed(cfg, s, PlaceTrade(user, poll, side, amount, shares, escrow, feeBps, leaf))
    ensures amount in {1000, 2500, 5000, 10000, 25000, 50000} && shares > 0
    ensures escrow < |s.deposits|
    ensures amount * feeBps - 5000 < 10000 * (s.deposits[escrow] - amount) <= amount * feeBps + 5000
    ensures forall i :: 0 <= i < |s.trades| ==> s.trades[i].escrow != escrow
    ensures var after := Next(cfg, s, PlaceTrade(user, poll, side, amount, shares, escrow, feeBps, leaf));
            && |after.trades| == |s.trades| + 1 && after.trades[..|s.trades|] == s.trades
            && after.trades[|s.trades|].user == user && after.trades[|s.trades|].leaf == leaf
            && after.trades[|s.trades|].escrow == escrow
            && Sum(after.trades, YesOn(poll)) == Sum(s.trades, YesOn(poll)) + (if side == Yes then shares else 0)
            && Sum(after.trades, NoOn(poll)) == Sum(s.trades, NoOn(poll)) + (if side == No then shares else 0)
            && Sum(after.trades, RefundOn(poll)) == Sum(s.trades, RefundOn(poll)) + amount
            && Sum(after.trades, PositionShares(user, poll, side))
               == Sum(s.trades, PositionShares(user, poll, side)) + shares
  {
    var t := NewTrade(user, poll, side, amount, shares, escrow, leaf);
    FeeIsTheShare(amount, feeBps);
    SumAppend(s.trades, t, YesOn(poll));
    SumAppend(s.trades, t, NoOn(poll));
    SumAppend(s.trades, t, RefundOn(poll));
    SumAppend(s.trades, t, PositionShares(user, poll, side));
  }

  /** Conversely such a stake is accepted on a market that trades, while the reserve of the ledger with it is held. */
  lemma StakeIsAccepted(cfg: Config, s: State, user: UserId, poll: PollId, side: Side, amount: nat, shares: nat,
                        escrow: nat, feeBps: nat, leaf: LeafId)
    requires poll in s.info && s.info[poll].status == Published && !s.info[poll].frozen
    requires amount in {1000, 2500, 5000, 10000, 25000, 50000} && shares > 0
    requires escrow < |s.deposits| && s.deposits[escrow] == amount + TradeFee(amount, feeBps)
    requires forall i :: 0 <= i < |s.trades| ==> s.trades[i].escrow != escrow
    requires Reserved(cfg, s.wallet, s.polls, s.trades + [NewTrade(user, poll, side, amount, shares, escrow, leaf)])
    ensures Allowed(cfg, s, PlaceTrade(user, poll, side, amount, shares, escrow, feeBps, leaf))
  {
  }

  /** Who holds a position on a market that trades can cash it out, while the reserve of the ledger without it is held.
      */
  lemma PositionCanBeCashedOut(cfg: Config, s: State, user: UserId, poll: PollId, side: Side, proceeds: nat,
                               parts: seq<nat>, outcome: Outcome)
    requires poll in s.info && s.info[poll].status == Published && !s.info[poll].frozen
    requires Sum(s.trades, PositionShares(user, poll, side)) > 0 && Sum(s.trades, PositionAmount(user, poll, side)) > 0
    requires |parts| == |s.trades| && proceeds > 0 && Total(PartsOf(s.trades, parts, user, poll, side)) == proceeds
    requires Reserved(cfg, s.wallet - proceeds, s.polls, CashOutTrades(s.trades, user, poll, side, parts, Sent, 1))
    ensures Allowed(cfg, s, CashOut(user, poll, side, proceeds, parts, outcome))
  {
  }

  /** The treasury spends exactly what leaves the reserve in the wallet. */
  lemma SpendGuardIsReserve(cfg: Config, s: State, amount: nat)
    ensures Allowed(cfg, s, Spend(amount)) <==> amount > 0 && Reserved(cfg, s.wallet - amount, s.polls, s.trades)
    ensures Allowed(cfg, s, Spend(amount)) ==> Next(cfg, s, Spend(amount)).wallet == s.wallet - amount
  {
  }
}
