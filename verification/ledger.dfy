/** The money side of the backend as a state machine: one project wallet, the stored trades, the private
    claims, and the claim handlers that are between their reservation and their completion. */
module Ledger {
  import opened Money
  import opened Sums
  import opened Collateral
  import opened Wrappers

  datatype Config = Config(guarantee: bool, bufferBps: nat)

  datatype PollStatus = Draft | Published | Paused | Resolved | Voided

  datatype PollInfo = PollInfo(status: PollStatus, frozen: bool, settled: bool)

  datatype ClaimStatus = ClaimReserved | ClaimRejected | ClaimPaid

  datatype PrivateClaim = PrivateClaim(trade: nat, user: UserId, leaf: LeafId, nullifier: nat, status: ClaimStatus,
                                       hasTransactions: bool)

  datatype Phase = Waiting | Moved | Done

  /** One claim handler: the trade it reserved, its private claim if it came that way, and how far it got. */
  datatype Flight = Flight(trade: nat, claim: Option<nat>, phase: Phase)

  /** `received` and `spent` only observe what entered the wallet and what the treasury took out. */
  datatype State = State(
    wallet: int,
    polls: seq<PollId>,
    info: map<PollId, PollInfo>,
    trades: seq<Trade>,
    deposits: seq<nat>,
    claims: seq<PrivateClaim>,
    flights: seq<Flight>,
    received: int,
    spent: int)

  datatype Verdict = ResolveYes | ResolveNo | Cancel

  /** What the chain says of a transfer that was sent: confirmed, not yet known, or reverted. */
  datatype Outcome = Confirmed | Pending | Reverted

  datatype Step =
    | AddPoll(poll: PollId, status: PollStatus)
    | SetPollStatus(poll: PollId, status: PollStatus, frozen: bool)
    | Deposit(amount: nat)
    | PlaceTrade(user: UserId, poll: PollId, side: Side, amount: nat, shares: nat, escrow: nat, feeBps: nat,
                 leaf: LeafId)
    | CashOut(user: UserId, poll: PollId, side: Side, proceeds: nat, parts: seq<nat>, outcome: Outcome)
    | Settle(poll: PollId, verdict: Verdict)
    | ReservePublic(user: UserId, trade: nat)
    | ReservePrivate(user: UserId, trade: nat, leaf: LeafId, nullifier: nat)
    | SendClaim(flight: nat)
    | FinishClaim(flight: nat, outcome: Outcome)
    | LateRevert(trade: nat)
    | Spend(amount: nat)

  // ----- Guards and effects -----

  /** The six fixed stakes, in cents. */
  const ALLOWED_AMOUNTS: set<nat> := {1000, 2500, 5000, 10000, 25000, 50000}

  function NewTrade(user: UserId, poll: PollId, side: Side, amount: nat, shares: nat, escrow: nat, leaf: LeafId): Trade
  {
    Trade(user, poll, side, amount, shares, shares, escrow, leaf, Open, 0, Blank, 0)
  }

  predicate Tradeable(s: State, poll: PollId)
  {
    poll in s.info && s.info[poll].status.Published? && !s.info[poll].frozen
  }

  /** The wallet holds the reserve for everything `trades` may still require. */
  predicate Reserved(cfg: Config, wallet: int, polls: seq<PollId>, trades: seq<Trade>)
  {
    cfg.guarantee ==> wallet >= WithBuffer(TotalRequired(polls, trades), cfg.bufferBps)
  }

  predicate CanPlace(cfg: Config, s: State, t: Trade, feeBps: nat)
  {
    && Tradeable(s, t.poll)
    && t.amount in ALLOWED_AMOUNTS && t.shares > 0
    && t.escrow < |s.deposits| && s.deposits[t.escrow] == EscrowTotal(t.amount, feeBps)
    && (forall i :: 0 <= i < |s.trades| ==> s.trades[i].escrow != t.escrow)
    && Reserved(cfg, s.wallet, s.polls, s.trades + [t])
  }

  /** The entries of `parts` that belong to a position. */
  function PartsOf(trades: seq<Trade>, parts: seq<nat>, user: UserId, poll: PollId, side: Side): (shares: seq<int>)
    requires |parts| == |trades|
    ensures |shares| == |trades|
  {
    seq(|trades|, i requires 0 <= i < |trades| => if InPosition(trades[i], user, poll, side) then parts[i] else 0)
  }

  function Total(xs: seq<int>): int
  {
    Sum(xs, (x: int) => x)
  }

  predicate CanCashOut(cfg: Config, s: State, user: UserId, poll: PollId, side: Side, proceeds: nat, parts: seq<nat>)
  {
    var quote := FullCashout(s.trades, user, poll, side);
    && Tradeable(s, poll)
    && quote.shares > 0 && quote.amount > 0 && proceeds > 0
    && |parts| == |s.trades|
    && Total(PartsOf(s.trades, parts, user, poll, side)) == proceeds
    && Reserved(cfg, s.wallet - proceeds, s.polls, CashOutTrades(s.trades, user, poll, side, parts, Sent, 1))
  }

  function StatusOf(outcome: Outcome): PayoutStatus
  {
    match outcome
    case Confirmed => Sent
    case Pending => Submitted
    case Reverted => PayoutFailed
  }

  function AfterCashOut(s: State, user: UserId, poll: PollId, side: Side, proceeds: nat, parts: seq<nat>,
                        outcome: Outcome): State
    requires |parts| == |s.trades|
  {
    var moved := if outcome.Reverted? then 0 else 1;
    s.(wallet := if outcome.Reverted? then s.wallet else s.wallet - proceeds,
       trades := CashOutTrades(s.trades, user, poll, side, parts, StatusOf(outcome), moved))
  }

  predicate CanSettle(s: State, poll: PollId)
  {
    poll in s.info && !s.info[poll].settled
  }

  function WinnerPays(t: Trade, verdict: Verdict): bool
  {
    verdict.Cancel? || (verdict.ResolveYes? && t.side.Yes?) || (verdict.ResolveNo? && t.side.No?)
  }

  function PayoutFor(t: Trade, verdict: Verdict): nat
  {
    if verdict.Cancel? then t.amount else if WinnerPays(t, verdict) then t.potentialPayout else 0
  }

  /** What a verdict pays on the open trades of market `p`. */
  function PayoutOn(p: PollId, verdict: Verdict): Trade -> int
  {
    (t: Trade) => if t.poll == p && t.status.Open? then PayoutFor(t, verdict) else 0
  }

  function SettleTrade(t: Trade, poll: PollId, verdict: Verdict): Trade
  {
    if t.poll != poll || !t.status.Open? then t else
    t.(status := if verdict.Cancel? then Cancelled else if WinnerPays(t, verdict) then Won else Lost,
       settlementPayout := PayoutFor(t, verdict),
       payoutStatus := if PayoutFor(t, verdict) > 0 then Claimable else NoPayout)
  }

  function SettleTrades(trades: seq<Trade>, poll: PollId, verdict: Verdict): (settled: seq<Trade>)
    ensures |settled| == |trades|
  {
    seq(|trades|, i requires 0 <= i < |trades| => SettleTrade(trades[i], poll, verdict))
  }

  function AfterSettle(s: State, poll: PollId, verdict: Verdict): State
    requires poll in s.info
  {
    s.(info := s.info[poll := s.info[poll].(status := if verdict.Cancel? then Voided else Resolved, settled := true)],
       trades := SettleTrades(s.trades, poll, verdict))
  }

  predicate CanReservePublic(s: State, user: UserId, i: nat)
  {
    && i < |s.trades| && s.trades[i].user == user
    && s.trades[i].payoutStatus in {Claimable, ClaimFailed, PayoutFailed}
    && s.trades[i].settlementPayout > 0
  }

  /** The first claim with this nullifier, or the number of claims when there is none. */
  function FindClaim(claims: seq<PrivateClaim>, nullifier: nat): (k: nat)
    ensures k <= |claims|
    ensures k < |claims| ==> claims[k].nullifier == nullifier
    ensures forall j :: 0 <= j < k ==> claims[j].nullifier != nullifier
  {
    if |claims| == 0 || claims[0].nullifier == nullifier then 0 else FindClaim(claims[1..], nullifier) + 1
  }

  /** A rejected claim that sent no transaction may be reserved again, with the same nullifier. */
  predicate CanRetryPrivate(s: State, user: UserId, i: nat, leaf: LeafId, nullifier: nat)
  {
    var k := FindClaim(s.claims, nullifier);
    && i < |s.trades| && s.trades[i].user == user
    && s.trades[i].payoutStatus in {ClaimFailed, PayoutFailed}
    && k < |s.claims| && s.claims[k].trade == i && s.claims[k].user == user && s.claims[k].leaf == leaf
    && s.claims[k].status.ClaimRejected? && !s.claims[k].hasTransactions
  }

  predicate CanOpenPrivate(s: State, user: UserId, i: nat, leaf: LeafId, nullifier: nat)
  {
    && i < |s.trades| && s.trades[i].user == user
    && FindClaim(s.claims, nullifier) == |s.claims|
    && s.trades[i].leaf == leaf
    && s.trades[i].status in {Won, Cancelled}
    && s.trades[i].settlementPayout > 0
    && s.trades[i].payoutStatus in {Blank, NoPayout, Claimable, ClaimFailed, PayoutFailed}
  }

  predicate CanReservePrivate(s: State, user: UserId, i: nat, leaf: LeafId, nullifier: nat)
  {
    CanRetryPrivate(s, user, i, leaf, nullifier) || CanOpenPrivate(s, user, i, leaf, nullifier)
  }

  function MarkPending(s: State, i: nat, claim: Option<nat>): State
    requires i < |s.trades|
  {
    s.(trades := s.trades[i := s.trades[i].(payoutStatus := ClaimPending)],
       flights := s.flights + [Flight(i, claim, Waiting)])
  }

  function AfterReservePrivate(s: State, user: UserId, i: nat, leaf: LeafId, nullifier: nat): State
    requires CanReservePrivate(s, user, i, leaf, nullifier)
  {
    var k := FindClaim(s.claims, nullifier);
    var pending := MarkPending(s, i, Some(k));
    if CanRetryPrivate(s, user, i, leaf, nullifier)
    then pending.(claims := s.claims[k := s.claims[k].(status := ClaimReserved)])
    else pending.(claims := s.claims + [PrivateClaim(i, user, leaf, nullifier, ClaimReserved, false)])
  }

  predicate CanSend(cfg: Config, s: State, k: nat)
  {
    && k < |s.flights| && s.flights[k].phase.Waiting? && s.flights[k].trade < |s.trades|
    && var payout := s.trades[s.flights[k].trade].settlementPayout;
       && payout > 0
       && (cfg.guarantee ==> OutflowCovered(s.wallet, payout, TotalRequired(s.polls, s.trades), payout, cfg.bufferBps))
  }

  function AfterSend(s: State, k: nat): State
    requires k < |s.flights| && s.flights[k].trade < |s.trades|
  {
    var i := s.flights[k].trade;
    s.(wallet := s.wallet - s.trades[i].settlementPayout,
       trades := s.trades[i := s.trades[i].(paidOut := s.trades[i].paidOut + 1)],
       flights := s.flights[k := s.flights[k].(phase := Moved)])
  }

  predicate CanFinish(s: State, k: nat)
  {
    && k < |s.flights| && !s.flights[k].phase.Done? && s.flights[k].trade < |s.trades|
    && (s.flights[k].claim.Some? ==> s.flights[k].claim.value < |s.claims|)
  }

  /** A handler that never sent anything, or whose transfer reverted, records a failure. */
  predicate Fails(flight: Flight, outcome: Outcome)
  {
    flight.phase.Waiting? || outcome.Reverted?
  }

  function RecordedStatus(flight: Flight, outcome: Outcome): PayoutStatus
  {
    if Fails(flight, outcome) then (if flight.claim.Some? then ClaimFailed else PayoutFailed) else StatusOf(outcome)
  }

  /** The public path only completes a trade that is still pending or failed; the private path always does. */
  predicate CompletionMatches(t: Trade, flight: Flight)
  {
    flight.claim.Some? || t.payoutStatus in {ClaimPending, PayoutFailed, ClaimFailed}
  }

  function FinishTrade(t: Trade, flight: Flight, outcome: Outcome): Trade
  {
    var back := flight.phase.Moved? && outcome.Reverted? && t.paidOut > 0;
    t.(payoutStatus := if CompletionMatches(t, flight) then RecordedStatus(flight, outcome) else t.payoutStatus,
       paidOut := if back then t.paidOut - 1 else t.paidOut)
  }

  function AfterFinish(s: State, k: nat, outcome: Outcome): State
    requires CanFinish(s, k)
  {
    var flight := s.flights[k];
    var i := flight.trade;
    var claims :=
      if flight.claim.None? then s.claims else
      var c := flight.claim.value;
      s.claims[c := s.claims[c].(status := if Fails(flight, outcome) then ClaimRejected else ClaimPaid,
                                 hasTransactions := flight.phase.Moved?)];
    s.(wallet := if flight.phase.Moved? && outcome.Reverted? then s.wallet + s.trades[i].settlementPayout else s.wallet,
       trades := s.trades[i := FinishTrade(s.trades[i], flight, outcome)],
       claims := claims,
       flights := s.flights[k := flight.(phase := Done)])
  }

  predicate CanRevertLate(s: State, i: nat)
  {
    i < |s.trades| && s.trades[i].payoutStatus.Submitted? && s.trades[i].paidOut > 0
  }

  function AfterLateRevert(s: State, i: nat): State
    requires CanRevertLate(s, i)
  {
    s.(wallet := s.wallet + s.trades[i].settlementPayout,
       trades := s.trades[i := s.trades[i].(paidOut := s.trades[i].paidOut - 1)])
  }

  predicate CanSpend(cfg: Config, s: State, amount: nat)
  {
    && amount > 0
    && (cfg.guarantee ==> OutflowCovered(s.wallet, amount, TotalRequired(s.polls, s.trades), 0, cfg.bufferBps))
  }

  predicate Allowed(cfg: Config, s: State, step: Step)
  {
    match step
    case AddPoll(p, _) => p !in s.info
    case SetPollStatus(p, status, _) => p in s.info && (s.info[p].settled ==> status == s.info[p].status)
    case Deposit(_) => true
    case PlaceTrade(user, poll, side, amount, shares, escrow, feeBps, leaf) =>
      CanPlace(cfg, s, NewTrade(user, poll, side, amount, shares, escrow, leaf), feeBps)
    case CashOut(user, poll, side, proceeds, parts, _) => CanCashOut(cfg, s, user, poll, side, proceeds, parts)
    case Settle(poll, _) => CanSettle(s, poll)
    case ReservePublic(user, i) => CanReservePublic(s, user, i)
    case ReservePrivate(user, i, leaf, nullifier) => CanReservePrivate(s, user, i, leaf, nullifier)
    case SendClaim(k) => CanSend(cfg, s, k)
    case FinishClaim(k, _) => CanFinish(s, k)
    case LateRevert(i) => CanRevertLate(s, i)
    case Spend(amount) => CanSpend(cfg, s, amount)
  }

  /** The effect of one step; a step whose guard fails changes nothing. */
  function Next(cfg: Config, s: State, step: Step): State
  {
    if !Allowed(cfg, s, step) then s else
    match step
    case AddPoll(p, status) => s.(polls := s.polls + [p], info := s.info[p := PollInfo(status, false, false)])
    case SetPollStatus(p, status, frozen) => s.(info := s.info[p := s.info[p].(status := status, frozen := frozen)])
    case Deposit(amount) =>
      s.(wallet := s.wallet + amount, deposits := s.deposits + [amount], received := s.received + amount)
    case PlaceTrade(user, poll, side, amount, shares, escrow, feeBps, leaf) =>
      s.(trades := s.trades + [NewTrade(user, poll, side, amount, shares, escrow, leaf)])
    case CashOut(user, poll, side, proceeds, parts, outcome) =>
      AfterCashOut(s, user, poll, side, proceeds, parts, outcome)
    case Settle(poll, verdict) => AfterSettle(s, poll, verdict)
    case ReservePublic(user, i) => MarkPending(s, i, None)
    case ReservePrivate(user, i, leaf, nullifier) => AfterReservePrivate(s, user, i, leaf, nullifier)
    case SendClaim(k) => AfterSend(s, k)
    case FinishClaim(k, outcome) => AfterFinish(s, k, outcome)
    case LateRevert(i) => AfterLateRevert(s, i)
    case Spend(amount) => s.(wallet := s.wallet - amount, spent := s.spent + amount)
  }

  function Run(cfg: Config, s: State, steps: seq<Step>): State
    decreases |steps|
  {
    if |steps| == 0 then s else Run(cfg, Next(cfg, s, steps[0]), steps[1..])
  }

  function Initial(wallet: nat): State
  {
    State(wallet, [], map[], [], [], [], [], wallet, 0)
  }

  // ----- What is owed -----

  /** Owed means fixed by a settlement or a cash-out, with no transfer of it out of the wallet. */
  function Unpaid(t: Trade): int
  {
    if HasFixedPayout(t) && t.paidOut == 0 then t.settlementPayout else 0
  }

  function UnpaidOn(p: PollId): Trade -> int
  {
    (t: Trade) => if t.poll == p then Unpaid(t) else 0
  }

  /** Fixed unpaid payouts plus the worst of yes, no and refund. */
  function OwedMarket(trades: seq<Trade>, p: PollId): int
  {
    CollateralRequired(Sum(trades, YesOn(p)), Sum(trades, NoOn(p)), Sum(trades, RefundOn(p)), Sum(trades, UnpaidOn(p)))
  }

  function OwedOn(trades: seq<Trade>): PollId -> int
  {
    (p: PollId) => OwedMarket(trades, p)
  }

  function TotalOwed(polls: seq<PollId>, trades: seq<Trade>): int
  {
    Sum(polls, OwedOn(trades))
  }

  // ----- Invariants -----

  function FlyingFor(i: nat): Flight -> int
  {
    (f: Flight) => if f.trade == i && !f.phase.Done? then 1 else 0
  }

  function MovedFor(i: nat): Flight -> int
  {
    (f: Flight) => if f.trade == i && f.phase.Moved? then 1 else 0
  }

  function InFlight(s: State, i: nat): int
  {
    Sum(s.flights, FlyingFor(i))
  }

  function InFlightMoved(s: State, i: nat): int
  {
    Sum(s.flights, MovedFor(i))
  }

  ghost predicate PayoutTracked(t: Trade, flying: int, moved: int)
  {
    && flying == (if t.payoutStatus.ClaimPending? then 1 else 0)
    && (t.payoutStatus.ClaimPending? ==> t.paidOut == moved <= 1)
    && (t.payoutStatus.Sent? ==> t.paidOut == 1)
    && (t.payoutStatus.Submitted? ==> t.paidOut <= 1)
    && (t.payoutStatus !in {ClaimPending, Sent, Submitted} ==> t.paidOut == 0)
    && (t.status.Open? ==> t.payoutStatus.Blank? && t.settlementPayout == 0 && t.shares == t.potentialPayout)
    && (t.status.Lost? ==> t.settlementPayout == 0)
  }

  /** Every payout is accounted for by at most one claim handler or one recorded transfer. */
  ghost predicate Tracked(s: State)
  {
    forall i :: 0 <= i < |s.trades| ==> PayoutTracked(s.trades[i], InFlight(s, i), InFlightMoved(s, i))
  }

  ghost predicate WellFormed(s: State)
  {
    && Distinct(s.polls)
    && (forall p :: p in s.polls <==> p in s.info)
    && (forall i :: 0 <= i < |s.trades| ==> s.trades[i].poll in s.info && s.trades[i].escrow < |s.deposits|)
    && (forall i, j :: 0 <= i < j < |s.trades| ==> s.trades[i].escrow != s.trades[j].escrow)
    && (forall k :: 0 <= k < |s.flights| ==> s.flights[k].trade < |s.trades|)
    && (forall k :: 0 <= k < |s.flights| && s.flights[k].claim.Some? ==>
          s.flights[k].claim.value < |s.claims| && s.claims[s.flights[k].claim.value].trade == s.flights[k].trade)
  }

  ghost predicate DistinctNullifiers(s: State)
  {
    forall i, j :: 0 <= i < j < |s.claims| ==> s.claims[i].nullifier != s.claims[j].nullifier
  }

  /** A settled market has no open trade left and takes no new ones. */
  ghost predicate SettledIsClosed(s: State)
  {
    && (forall p :: p in s.info && s.info[p].settled ==> s.info[p].status in {Resolved, Voided})
    && (forall i :: 0 <= i < |s.trades| && s.trades[i].poll in s.info && s.info[s.trades[i].poll].settled ==>
        !s.trades[i].status.Open?)
  }

  function PaidAmount(t: Trade): int
  {
    t.paidOut * t.settlementPayout
  }

  /** Every cent that came in is in the wallet, was spent by the treasury, or was paid out on a trade. */
  ghost predicate Conserved(s: State)
  {
    s.wallet + s.spent + Sum(s.trades, PaidAmount) == s.received
  }

  ghost predicate Solvent(s: State)
  {
    s.wallet >= TotalOwed(s.polls, s.trades)
  }
}
