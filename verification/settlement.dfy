/** The settlement of one market: the preview that sums the open trades, and the payouts that get written. */
module Settlement {
  import opened Sums
  import opened Collateral
  import opened Ledger
  import opened Wrappers

  // Wallet addresses are keys too; 0 stands for a user without one.
  type WalletId = nat

  const NO_WALLET: WalletId := 0

  function WalletOf(wallets: map<UserId, WalletId>, user: UserId): WalletId
  {
    if user in wallets then wallets[user] else NO_WALLET
  }

  datatype Recipient = Recipient(user: UserId, amount: int, shares: int, trades: nat)

  datatype Preview = Preview(
    openTrades: nat, winningTrades: nat, losingTrades: nat, winningShares: int, payoutRequired: int)

  function Pays(verdict: Verdict): Trade -> int
  {
    (t: Trade) => PayoutFor(t, verdict)
  }

  /** What the rows of one wallet are paid. */
  function PaysTo(verdict: Verdict, wallets: map<UserId, WalletId>, wallet: WalletId): Trade -> int
  {
    (t: Trade) => if WalletOf(wallets, t.user) == wallet then PayoutFor(t, verdict) else 0
  }

  /** The shares of the winning rows of one wallet. */
  function SharesTo(verdict: Verdict, wallets: map<UserId, WalletId>, wallet: WalletId): Trade -> int
  {
    (t: Trade) => if WalletOf(wallets, t.user) == wallet && WinnerPays(t, verdict) then t.shares else 0
  }

  /** How many winning rows one wallet has. */
  function TradesTo(verdict: Verdict, wallets: map<UserId, WalletId>, wallet: WalletId): Trade -> int
  {
    (t: Trade) => if WalletOf(wallets, t.user) == wallet && WinnerPays(t, verdict) then 1 else 0
  }

  function AmountOf(recipients: map<WalletId, Recipient>): WalletId -> int
  {
    (w: WalletId) => if w in recipients then recipients[w].amount else 0
  }

  function Winning(verdict: Verdict): Trade -> int
  {
    (t: Trade) => if WinnerPays(t, verdict) then 1 else 0
  }

  function WinningSharesOf(verdict: Verdict): Trade -> int
  {
    (t: Trade) => if WinnerPays(t, verdict) then t.shares else 0
  }

  ghost predicate AreKeys(keys: seq<WalletId>, recipients: map<WalletId, Recipient>)
  {
    Distinct(keys) && forall w :: w in keys <==> w in recipients
  }

  /** The table says of this wallet what its winning rows add up to, and lists it exactly when it has any. */
  ghost predicate IsListedRight(verdict: Verdict, wallets: map<UserId, WalletId>, recipients: map<WalletId, Recipient>,
                                rows: seq<Trade>, w: WalletId)
  {
    && AmountOf(recipients)(w) == Sum(rows, PaysTo(verdict, wallets, w))
    && (w in recipients <==> Sum(rows, TradesTo(verdict, wallets, w)) > 0)
    && (w in recipients ==>
          && recipients[w].trades == Sum(rows, TradesTo(verdict, wallets, w))
          && WalletOf(wallets, recipients[w].user) == w)
    && (if w in recipients then recipients[w].shares else 0) == Sum(rows, SharesTo(verdict, wallets, w))
  }

  ghost predicate AllListedRight(verdict: Verdict, wallets: map<UserId, WalletId>, recipients: map<WalletId, Recipient>,
                                 rows: seq<Trade>)
  {
    forall w :: w != NO_WALLET ==> IsListedRight(verdict, wallets, recipients, rows, w)
  }

  /** Each wallet is owed its own rows, and the wallets together with the users that have none make up the
      required payout. */
  ghost predicate Covers(verdict: Verdict, wallets: map<UserId, WalletId>, recipients: map<WalletId, Recipient>,
                         keys: seq<WalletId>, rows: seq<Trade>, required: int)
  {
    && NO_WALLET !in recipients
    && AreKeys(keys, recipients)
    && AllListedRight(verdict, wallets, recipients, rows)
    && Sum(keys, AmountOf(recipients)) + Sum(rows, PaysTo(verdict, wallets, NO_WALLET)) == required
  }

  lemma RowsAppend(verdict: Verdict, wallets: map<UserId, WalletId>, rows: seq<Trade>, t: Trade, w: WalletId)
    ensures Sum(rows + [t], PaysTo(verdict, wallets, w))
         == Sum(rows, PaysTo(verdict, wallets, w)) + PaysTo(verdict, wallets, w)(t)
    ensures Sum(rows + [t], SharesTo(verdict, wallets, w))
         == Sum(rows, SharesTo(verdict, wallets, w)) + SharesTo(verdict, wallets, w)(t)
    ensures Sum(rows + [t], TradesTo(verdict, wallets, w))
         == Sum(rows, TradesTo(verdict, wallets, w)) + TradesTo(verdict, wallets, w)(t)
    ensures Sum(rows, TradesTo(verdict, wallets, w)) >= 0
  {
    SumAppend(rows, t, PaysTo(verdict, wallets, w));
    SumAppend(rows, t, SharesTo(verdict, wallets, w));
    SumAppend(rows, t, TradesTo(verdict, wallets, w));
    SumNonNegative(rows, TradesTo(verdict, wallets, w));
  }

  /** A row that loses, or whose user has no wallet, changes no entry. */
  lemma CoversUnlisted(verdict: Verdict, wallets: map<UserId, WalletId>, recipients: map<WalletId, Recipient>,
                       keys: seq<WalletId>, rows: seq<Trade>, required: int, t: Trade)
    requires Covers(verdict, wallets, recipients, keys, rows, required)
    requires !WinnerPays(t, verdict) || WalletOf(wallets, t.user) == NO_WALLET
    ensures Covers(verdict, wallets, recipients, keys, rows + [t], required + PayoutFor(t, verdict))
  {
    RowsAppend(verdict, wallets, rows, t, NO_WALLET);
    forall w | w != NO_WALLET ensures IsListedRight(verdict, wallets, recipients, rows + [t], w) {
      assert IsListedRight(verdict, wallets, recipients, rows, w);
      RowsAppend(verdict, wallets, rows, t, w);
    }
  }

  /** The table once `t` is credited to its wallet, which may be new to it. */
  function Credit(recipients: map<WalletId, Recipient>, wallet: WalletId, t: Trade, amount: int)
    : map<WalletId, Recipient>
  {
    if wallet !in recipients then recipients[wallet := Recipient(t.user, amount, t.shares, 1)]
    else
      var r := recipients[wallet];
      recipients[wallet := Recipient(r.user, r.amount + amount, r.shares + t.shares, r.trades + 1)]
  }

  function KeysWith(keys: seq<WalletId>, recipients: map<WalletId, Recipient>, wallet: WalletId): seq<WalletId>
  {
    if wallet in recipients then keys else keys + [wallet]
  }

  lemma KeysCredited(recipients: map<WalletId, Recipient>, keys: seq<WalletId>, wallet: WalletId, t: Trade, amount: int)
    requires AreKeys(keys, recipients)
    ensures var longer, credited := KeysWith(keys, recipients, wallet), Credit(recipients, wallet, t, amount);
            AreKeys(longer, credited) && Sum(longer, AmountOf(credited)) == Sum(keys, AmountOf(recipients)) + amount
  {
    var longer := KeysWith(keys, recipients, wallet);
    if wallet !in recipients {
      SumAppend(keys, wallet, AmountOf(recipients));
      assert longer[|keys|] == wallet;
    }
    SumOneKey(longer, wallet, AmountOf(recipients), AmountOf(Credit(recipients, wallet, t, amount)));
  }

  lemma RowCredited(verdict: Verdict, wallets: map<UserId, WalletId>, recipients: map<WalletId, Recipient>,
                    rows: seq<Trade>, t: Trade, w: WalletId)
    requires IsListedRight(verdict, wallets, recipients, rows, w) && WinnerPays(t, verdict)
    ensures var credited := Credit(recipients, WalletOf(wallets, t.user), t, PayoutFor(t, verdict));
            IsListedRight(verdict, wallets, credited, rows + [t], w)
  {
    RowsAppend(verdict, wallets, rows, t, w);
  }

  lemma CoversCredited(verdict: Verdict, wallets: map<UserId, WalletId>, recipients: map<WalletId, Recipient>,
                       keys: seq<WalletId>, rows: seq<Trade>, required: int, t: Trade)
    requires Covers(verdict, wallets, recipients, keys, rows, required)
    requires WinnerPays(t, verdict) && WalletOf(wallets, t.user) != NO_WALLET
    ensures var wallet, amount := WalletOf(wallets, t.user), PayoutFor(t, verdict);
            Covers(verdict, wallets, Credit(recipients, wallet, t, amount), KeysWith(keys, recipients, wallet),
                   rows + [t], required + amount)
  {
    var wallet, amount := WalletOf(wallets, t.user), PayoutFor(t, verdict);
    KeysCredited(recipients, keys, wallet, t, amount);
    RowsAppend(verdict, wallets, rows, t, NO_WALLET);
    forall w | w != NO_WALLET
      ensures IsListedRight(verdict, wallets, Credit(recipients, wallet, t, amount), rows + [t], w)
    {
      RowCredited(verdict, wallets, recipients, rows, t, w);
    }
  }

  ghost predicate Counts(verdict: Verdict, rows: seq<Trade>, preview: Preview)
  {
    && preview.openTrades == |rows|
    && preview.winningTrades == Sum(rows, Winning(verdict))
    && preview.winningTrades + preview.losingTrades == preview.openTrades
    && preview.winningShares == Sum(rows, WinningSharesOf(verdict))
    && preview.payoutRequired == Sum(rows, Pays(verdict))
  }

  lemma CountsAdded(verdict: Verdict, rows: seq<Trade>, before: Preview, t: Trade, after: Preview)
    requires Counts(verdict, rows, before)
    requires after.openTrades == before.openTrades + 1
    requires if WinnerPays(t, verdict)
             then after.winningTrades == before.winningTrades + 1 && after.losingTrades == before.losingTrades
                  && after.winningShares == before.winningShares + t.shares
             else after.winningTrades == before.winningTrades && after.losingTrades == before.losingTrades + 1
                  && after.winningShares == before.winningShares
    requires after.payoutRequired == before.payoutRequired + PayoutFor(t, verdict)
    ensures Counts(verdict, rows + [t], after)
  {
    SumAppend(rows, t, Winning(verdict));
    SumAppend(rows, t, WinningSharesOf(verdict));
    SumAppend(rows, t, Pays(verdict));
  }

  lemma NothingToList(verdict: Verdict, wallets: map<UserId, WalletId>)
    ensures Covers(verdict, wallets, map[], [], [], 0)
  {
  }

  /** The preview and the recipient table a settlement builds row by row. */
  class PreviewBuilder {
    const verdict: Verdict
    const wallets: map<UserId, WalletId>
    var preview: Preview
    var recipients: map<WalletId, Recipient>
    ghost var rows: seq<Trade>
    ghost var keys: seq<WalletId>

    ghost predicate Valid()
      reads this
    {
      Counts(verdict, rows, preview) && Covers(verdict, wallets, recipients, keys, rows, preview.payoutRequired)
    }

    constructor (verdict: Verdict, wallets: map<UserId, WalletId>)
      ensures Valid() && rows == [] && this.verdict == verdict && this.wallets == wallets
    {
      this.verdict := verdict;
      this.wallets := wallets;
      preview := Preview(0, 0, 0, 0, 0);
      recipients := map[];
      rows := [];
      keys := [];
      new;
      NothingToList(verdict, wallets);
    }

    /** Credits a winning trade to the wallet of its user, if there is one. */
    method CreditRow(t: Trade, amount: int, ghost required: int)
      requires Covers(verdict, wallets, recipients, keys, rows, required)
      requires WinnerPays(t, verdict) && amount == PayoutFor(t, verdict)
      modifies `recipients, `keys
      ensures Covers(verdict, wallets, recipients, keys, rows + [t], required + amount)
    {
      var wallet := WalletOf(wallets, t.user);
      if wallet == NO_WALLET {
        CoversUnlisted(verdict, wallets, recipients, keys, rows, required, t);
        return;
      }
      CoversCredited(verdict, wallets, recipients, keys, rows, required, t);
      keys := KeysWith(keys, recipients, wallet);
      recipients := Credit(recipients, wallet, t, amount);
    }

    /** Adds one open trade of the market. */
    method AddRow(t: Trade)
      requires Valid()
      modifies this
      ensures Valid() && rows == old(rows) + [t]
    {
      ghost var before := preview;
      preview := preview.(openTrades := preview.openTrades + 1);
      if !WinnerPays(t, verdict) {
        CoversUnlisted(verdict, wallets, recipients, keys, rows, before.payoutRequired, t);
        preview := preview.(losingTrades := preview.losingTrades + 1);
      } else {
        var amount := if verdict.Cancel? then t.amount else t.potentialPayout;
        preview := preview.(
          winningTrades := preview.winningTrades + 1,
          winningShares := preview.winningShares + t.shares,
          payoutRequired := preview.payoutRequired + amount);
        CreditRow(t, amount, before.payoutRequired);
      }
      CountsAdded(verdict, rows, before, t, preview);
      rows := rows + [t];
    }
  }

  function OpenOn(trades: seq<Trade>, poll: PollId): seq<Trade>
  {
    if |trades| == 0 then [] else
    var before := OpenOn(trades[..|trades| - 1], poll);
    var t := trades[|trades| - 1];
    if t.poll == poll && t.status.Open? then before + [t] else before
  }

  lemma {:induction false} OpenRowsPay(trades: seq<Trade>, poll: PollId, verdict: Verdict)
    ensures Sum(OpenOn(trades, poll), Pays(verdict)) == Sum(trades, PayoutOn(poll, verdict))
  {
    if |trades| > 0 {
      var n := |trades| - 1;
      OpenRowsPay(trades[..n], poll, verdict);
      SumAppend(OpenOn(trades[..n], poll), trades[n], Pays(verdict));
    }
  }

  lemma {:induction false} OpenIsOnList(trades: seq<Trade>, poll: PollId, i: nat) returns (k: nat)
    requires i < |trades| && trades[i].poll == poll && trades[i].status == Open
    ensures k < |OpenOn(trades, poll)| && OpenOn(trades, poll)[k] == trades[i]
  {
    var n := |trades| - 1;
    if i == n {
      k := |OpenOn(trades[..n], poll)|;
    } else {
      k := OpenIsOnList(trades[..n], poll, i);
    }
  }

  /** Whoever holds a winning trade of the market and has a wallet is listed with it, for at least that trade's payout
      and shares. */
  lemma PaidUserIsListed(verdict: Verdict, wallets: map<UserId, WalletId>, recipients: map<WalletId, Recipient>,
                         keys: seq<WalletId>, trades: seq<Trade>, poll: PollId, required: int, i: nat)
    requires Covers(verdict, wallets, recipients, keys, OpenOn(trades, poll), required)
    requires i < |trades| && trades[i].poll == poll && trades[i].status == Open && WinnerPays(trades[i], verdict)
    requires trades[i].user in wallets && wallets[trades[i].user] != NO_WALLET
    ensures var w, t := wallets[trades[i].user], trades[i];
            w in recipients && recipients[w].amount >= PayoutFor(t, verdict) && recipients[w].shares >= t.shares
  {
    var rows, w := OpenOn(trades, poll), wallets[trades[i].user];
    var k := OpenIsOnList(trades, poll, i);
    assert IsListedRight(verdict, wallets, recipients, rows, w);
    SumCovers(rows, k, k, PaysTo(verdict, wallets, w));
    SumCovers(rows, k, k, SharesTo(verdict, wallets, w));
    SumCovers(rows, k, k, TradesTo(verdict, wallets, w));
  }

  /** The preview of an existing market covers every open trade: winners and losers are all of them, each wallet is
      listed with its own payouts, shares and trades, and the wallets together with the users that have none make
      up the required payout. */
  method PreviewSettlement(polls: map<PollId, PollInfo>, trades: seq<Trade>, wallets: map<UserId, WalletId>,
                           poll: PollId, verdict: Verdict)
    returns (result: Result<Preview, string>, recipients: map<WalletId, Recipient>, ghost keys: seq<WalletId>)
    ensures result.Ok? <==> poll in polls
    ensures result.Err? ==> result.error == "poll not found"
    ensures result.Ok? ==>
              && Counts(verdict, OpenOn(trades, poll), result.value)
              && Covers(verdict, wallets, recipients, keys, OpenOn(trades, poll), result.value.payoutRequired)
              && result.value.payoutRequired == Sum(trades, PayoutOn(poll, verdict))
  {
    var builder := new PreviewBuilder(verdict, wallets);
    recipients, keys := builder.recipients, builder.keys;
    if poll !in polls {
      return Err("poll not found"), recipients, keys;
    }
    for i := 0 to |trades|
      invariant builder.Valid() && fresh(builder)
      invariant builder.verdict == verdict && builder.wallets == wallets
      invariant builder.rows == OpenOn(trades[..i], poll)
    {
      assert trades[..i + 1][..i] == trades[..i];
      if trades[i].poll == poll && trades[i].status.Open? {
        builder.AddRow(trades[i]);
      }
    }
    assert trades[..|trades|] == trades;
    OpenRowsPay(trades, poll, verdict);
    return Ok(builder.preview), builder.recipients, builder.keys;
  }

  function PayoutColumn(t: Trade): int
  {
    t.settlementPayout
  }

  ghost predicate OpenHasNoPayout(trades: seq<Trade>)
  {
    forall i :: 0 <= i < |trades| && trades[i].status.Open? ==> trades[i].settlementPayout == 0
  }

  /** The payouts a settlement writes are, in total, the payout its preview requires. */
  lemma WrittenPayoutsSumToPreview(trades: seq<Trade>, poll: PollId, verdict: Verdict)
    requires OpenHasNoPayout(trades)
    ensures Sum(SettleTrades(trades, poll, verdict), PayoutColumn)
         == Sum(trades, PayoutColumn) + Sum(trades, PayoutOn(poll, verdict))
  {
    SumJoin(trades, PayoutColumn, PayoutOn(poll, verdict), SettleTrades(trades, poll, verdict), PayoutColumn);
  }
}
