/** Amounts of the platform token in whole cents, and the rounding the handlers apply to them. */
module Money {

  /** `numerator / denominator` rounded to the nearest whole number, halves upwards. */
  function RoundDiv(numerator: nat, denominator: nat): nat
    requires denominator > 0
  {
    (2 * numerator + denominator) / (2 * denominator)
  }

  const BPS_SCALE: nat := 10000

  function TradeFee(amount: nat, feeBps: nat): nat
  {
    RoundDiv(amount * feeBps, BPS_SCALE)
  }

  function EscrowTotal(amount: nat, feeBps: nat): nat
  {
    amount + TradeFee(amount, feeBps)
  }

  function Max(a: int, b: int): int
  {
    if a >= b then a else b
  }

  /** The reserve demanded for `required` cents of liabilities. */
  function WithBuffer(required: int, bufferBps: nat): nat
  {
    if required <= 0 then 0 else RoundDiv(required * (BPS_SCALE + bufferBps), BPS_SCALE)
  }

  /** Whether the wallet still holds the reserve once `outgoing` has left it. */
  predicate OutflowCovered(wallet: int, outgoing: int, required: int, release: int, bufferBps: nat)
  {
    wallet - outgoing >= WithBuffer(Max(0, required - Max(0, release)), bufferBps)
  }

  /** Releasing a part of the requirement leaves the reserve for the rest to be held. */
  lemma ReserveForTheRest(wallet: int, outgoing: int, required: int, release: int, rest: int, bufferBps: nat)
    requires required - release == rest >= 0 && release >= 0
    ensures OutflowCovered(wallet, outgoing, required, release, bufferBps) <==>
        wallet - outgoing >= WithBuffer(rest, bufferBps)
  {
  }

  /** The reserve is never below the liability, and grows with it. */
  lemma BufferCovers(required: int, more: int, bufferBps: nat)
    requires required <= more
    ensures required <= WithBuffer(required, bufferBps) <= WithBuffer(more, bufferBps)
  {
    if required > 0 {
      var scale := BPS_SCALE + bufferBps;
      assert required * BPS_SCALE <= required * scale by {
        assert required * scale == required * BPS_SCALE + required * bufferBps;
      }
      assert required * scale <= more * scale by {
        assert more * scale - required * scale == (more - required) * scale;
      }
      RoundDivMonotone(required * BPS_SCALE, required * scale);
      RoundDivMonotone(required * scale, more * scale);
      assert RoundDiv(required * BPS_SCALE, BPS_SCALE) == required;
    }
  }

  lemma RoundDivMonotone(a: nat, b: nat)
    requires a <= b
    ensures RoundDiv(a, BPS_SCALE) <= RoundDiv(b, BPS_SCALE)
  {
  }

  /** Rounding is off by at most half of what is rounded to, and a half is rounded upwards. */
  lemma RoundDivIsClose(numerator: nat, denominator: nat)
    requires denominator > 0
    ensures 2 * numerator - denominator < 2 * (denominator * RoundDiv(numerator, denominator))
         <= 2 * numerator + denominator
  {
    var n, d := 2 * numerator + denominator, 2 * denominator;
    var q, r := n / d, n % d;
    assert n == d * q + r;
    assert d * q == 2 * (denominator * q);
  }

  /** The fee is the amount's share in hundredths of a percent, to the nearest cent. */
  lemma FeeIsTheShare(amount: nat, feeBps: nat)
    ensures amount * feeBps - 5000 < 10000 * TradeFee(amount, feeBps) <= amount * feeBps + 5000
  {
    RoundDivIsClose(amount * feeBps, 10000);
  }

  /** The reserve is the liability and its share in hundredths of a percent, to the nearest cent. */
  lemma BufferIsTheShare(required: nat, bufferBps: nat)
    ensures required * (10000 + bufferBps) - 5000 < 10000 * WithBuffer(required, bufferBps)
         <= required * (10000 + bufferBps) + 5000
  {
    RoundDivIsClose(required * (10000 + bufferBps), 10000);
  }
}
