/** Amounts of a token as people write them, and as whole numbers of its smallest unit. */
module Units {
  import opened Arithmetic
  import opened Positional
  import opened Text
  import opened Wrappers

  datatype AmountError = MissingAmount | InvalidDecimals | InvalidAmount | TooManyDecimals | NotPositive

  /** The digits of an amount in smallest units: the point taken out, zeros added for the places not written. */
  function Shifted(whole: string, fraction: string, decimals: nat): string
    requires |fraction| <= decimals
  {
    (if whole == "" then "0" else whole) + fraction + Repeat('0', decimals - |fraction|)
  }

  function TenTo(n: nat): (base: nat)
    ensures base > 0
  {
    PowPositive(10, n);
    Pow(10, n)
  }

  /** The same for an amount taken apart at its points. */
  function QuantityOfParts(parts: seq<string>, decimals: nat): Result<string, AmountError>
    requires |parts| > 0
  {
    if |parts| > 2 then Err(InvalidAmount)
    else
      var fraction := if |parts| == 2 then parts[1] else "";
      if |fraction| > decimals then Err(TooManyDecimals)
      else
        match ParseInt(Shifted(parts[0], fraction, decimals), 10)
        case None => Err(InvalidAmount)
        case Some(value) => if value <= 0 then Err(NotPositive) else Ok(PrintInt(value))
  }

  /** The quantity of smallest units that a decimal amount stands for, as text. */
  function TokenQuantity(amount: string, decimals: int): Result<string, AmountError>
  {
    var text := TrimSpace(amount);
    if text == "" then Err(MissingAmount)
    else if decimals < 0 then Err(InvalidDecimals)
    else QuantityOfParts(Split(text, '.'), decimals)
  }

  // ----- What a decimal amount denotes -----

  /** The value of a run of digits with `places` further places behind it. */
  function Scaled(digits: string, places: nat): nat
  {
    Shift(Number(digits), 10, places)
  }

  /** `text` is an optional plus sign, digits, and perhaps a point followed by more digits. */
  predicate Spells(text: string, sign: string, whole: string, fraction: string, point: bool)
  {
    && (sign == "" || sign == "+") && IsDecimal(whole) && IsDecimal(fraction) && (point || fraction == "")
    && text == if point then sign + whole + "." + fraction else sign + whole
  }

  /** `text` stands for `value` units of ten to the power of minus `decimals`. */
  ghost predicate Denotes(text: string, decimals: nat, value: nat)
  {
    exists sign, whole, fraction, point ::
      && Spells(text, sign, whole, fraction, point) && |fraction| <= decimals
      && value == Scaled(whole + fraction, decimals - |fraction|)
  }

  lemma PaddedValue(digits: string, n: nat)
    ensures Number(digits + Repeat('0', n)) == Scaled(digits, n)
  {
    ReadConcat(digits, Repeat('0', n));
    ValueConcat(Read(digits), Read(Repeat('0', n)), 10);
    ZerosCountNothing(n);
  }

  lemma SplitSpelled(text: string, sign: string, whole: string, fraction: string, point: bool)
    requires Spells(text, sign, whole, fraction, point)
    ensures Split(text, '.') == if point then [sign + whole, fraction] else [sign + whole]
  {
    if point {
      SplitOnce(sign + whole, fraction, '.');
    } else {
      SplitWithout(sign + whole, '.');
    }
  }

  /** The digits of an amount, without its sign; a zero stands in for a whole part that was left out. */
  lemma ShiftedDigits(sign: string, whole: string, fraction: string, decimals: nat)
    requires (sign == "" || sign == "+") && IsDecimal(whole) && IsDecimal(fraction)
    requires |fraction| <= decimals
    ensures var text := Shifted(sign + whole, fraction, decimals);
      && text != "" && text[0] != '-' && IsDecimal(Unsigned(text))
      && Unsigned(text) == (if sign + whole == "" then "0" else "")
          + (whole + fraction + Repeat('0', decimals - |fraction|))
  {
  }

  lemma DigitsMean(front: string, digits: string, n: nat)
    requires front == "" || front == "0"
    ensures Number(front + (digits + Repeat('0', n))) == Scaled(digits, n)
  {
    PaddedValue(digits, n);
    if front == "" {
      assert front + (digits + Repeat('0', n)) == digits + Repeat('0', n);
    } else {
      assert front == Repeat('0', 1);
      ZerosInFront(1, digits + Repeat('0', n));
    }
  }

  lemma ShiftedMeans(sign: string, whole: string, fraction: string, decimals: nat)
    requires (sign == "" || sign == "+") && IsDecimal(whole) && IsDecimal(fraction)
    requires |fraction| <= decimals && whole + fraction != ""
    ensures ParseInt(Shifted(sign + whole, fraction, decimals), 10)
         == Some(Scaled(whole + fraction, decimals - |fraction|))
  {
    var text := Shifted(sign + whole, fraction, decimals);
    ShiftedDigits(sign, whole, fraction, decimals);
    ParseUnsigned(text);
    DigitsMean(if sign + whole == "" then "0" else "", whole + fraction, decimals - |fraction|);
  }

  lemma PartsMean(parts: seq<string>, sign: string, whole: string, fraction: string, decimals: nat)
    requires (sign == "" || sign == "+") && IsDecimal(whole) && IsDecimal(fraction)
    requires |fraction| <= decimals && whole + fraction != ""
    requires parts == [sign + whole, fraction] || (parts == [sign + whole] && fraction == "")
    ensures var value := Scaled(whole + fraction, decimals - |fraction|);
      QuantityOfParts(parts, decimals) == if value > 0 then Ok(PrintInt(value)) else Err(NotPositive)
  {
    ShiftedMeans(sign, whole, fraction, decimals);
  }

  lemma DenotedIsAccepted(amount: string, sign: string, whole: string, fraction: string, point: bool, decimals: nat)
    requires Spells(TrimSpace(amount), sign, whole, fraction, point) && |fraction| <= decimals
    requires whole + fraction != ""
    ensures var value := Scaled(whole + fraction, decimals - |fraction|);
      TokenQuantity(amount, decimals) == if value > 0 then Ok(PrintInt(value)) else Err(NotPositive)
  {
    SplitSpelled(TrimSpace(amount), sign, whole, fraction, point);
    PartsMean(Split(TrimSpace(amount), '.'), sign, whole, fraction, decimals);
    assert TrimSpace(amount) != "";
  }

  /** What a positive number was read from. */
  lemma PositiveWasDecimal(text: string, value: nat)
    requires value > 0 && ParseInt(text, 10) == Some(value as int)
    ensures text != "" && text[0] != '-' && IsDecimal(Unsigned(text)) && Number(Unsigned(text)) == value
  {
    DecimalReads(Unsigned(text));
  }

  /** Digits that follow an optional plus sign, taken apart where the point was. */
  lemma DecimalPieces(text: string, front: string, fraction: string, zeros: string)
    requires text != "" && text == (if front == "" then "0" else front) + fraction + zeros
    requires text[0] != '-' && IsDecimal(Unsigned(text))
    ensures front == (if front != "" && front[0] == '+' then "+" else "") + Unsigned(front)
    ensures IsDecimal(Unsigned(front)) && IsDecimal(fraction)
  {
    if front == "" {
      assert Unsigned(text) == ("0" + fraction) + zeros;
      DecimalConcat("0" + fraction, zeros);
      DecimalConcat("0", fraction);
    } else {
      assert text[0] == front[0];
      assert Unsigned(text) == (Unsigned(front) + fraction) + zeros;
      DecimalConcat(Unsigned(front) + fraction, zeros);
      DecimalConcat(Unsigned(front), fraction);
    }
  }

  lemma NoDigits(sign: string, decimals: nat)
    requires sign == "" || sign == "+"
    ensures ParseInt(Shifted(sign, "", decimals), 10) in {None, Some(0)}
  {
    var text := Shifted(sign, "", decimals);
    ShiftedDigits(sign, "", "", decimals);
    assert sign + "" == sign;
    if Unsigned(text) != "" {
      ParseUnsigned(text);
      DigitsMean(if sign == "" then "0" else "", "", decimals);
      ShiftIsProduct(0, 10, decimals);
      assert "" + "" == "";
    }
  }

  lemma SpelledBySplit(text: string, sign: string, whole: string, fraction: string)
    requires |Split(text, '.')| <= 2 && Split(text, '.')[0] == sign + whole
    requires fraction == if |Split(text, '.')| == 2 then Split(text, '.')[1] else ""
    requires (sign == "" || sign == "+") && IsDecimal(whole) && IsDecimal(fraction)
    ensures Spells(text, sign, whole, fraction, |Split(text, '.')| == 2)
  {
    var parts := Split(text, '.');
    SplitJoins(text, '.');
    if |parts| == 2 {
      assert parts[1..] == [fraction];
      assert text == parts[0] + ['.'] + fraction;
    }
  }

  lemma AcceptedWasRead(amount: string, decimals: nat, value: int)
    requires TokenQuantity(amount, decimals) == Ok(PrintInt(value))
    ensures var parts := Split(TrimSpace(amount), '.');
      var fraction := if |parts| == 2 then parts[1] else "";
      |parts| <= 2 && |fraction| <= decimals && ParseInt(Shifted(parts[0], fraction, decimals), 10) == Some(value)
  {
    var parts := Split(TrimSpace(amount), '.');
    var fraction := if |parts| == 2 then parts[1] else "";
    PrintsDiffer(ParseInt(Shifted(parts[0], fraction, decimals), 10).value, value);
  }

  lemma PrintsDiffer(v: int, w: int)
    requires PrintInt(v) == PrintInt(w)
    ensures v == w
  {
    ParsePrinted(v);
    ParsePrinted(w);
  }

  lemma PiecesDenote(text: string, sign: string, whole: string, fraction: string, point: bool, decimals: nat,
                     value: nat)
    requires Spells(text, sign, whole, fraction, point) && |fraction| <= decimals
    requires value > 0 && ParseInt(Shifted(sign + whole, fraction, decimals), 10) == Some(value as int)
    ensures Denotes(text, decimals, value)
  {
    if whole + fraction == "" {
      assert whole == "" && fraction == "" && sign + whole == sign;
      NoDigits(sign, decimals);
    } else {
      ShiftedMeans(sign, whole, fraction, decimals);
    }
  }

  lemma AcceptedIsDenoted(amount: string, decimals: nat, value: nat)
    requires value > 0 && TokenQuantity(amount, decimals) == Ok(PrintInt(value))
    ensures Denotes(TrimSpace(amount), decimals, value)
  {
    AcceptedWasRead(amount, decimals, value);
    var parts := Split(TrimSpace(amount), '.');
    var fraction := if |parts| == 2 then parts[1] else "";
    var shifted := Shifted(parts[0], fraction, decimals);
    PositiveWasDecimal(shifted, value);
    DecimalPieces(shifted, parts[0], fraction, Repeat('0', decimals - |fraction|));
    var sign, whole := if parts[0] != "" && parts[0][0] == '+' then "+" else "", Unsigned(parts[0]);
    SpelledBySplit(TrimSpace(amount), sign, whole, fraction);
    PiecesDenote(TrimSpace(amount), sign, whole, fraction, |parts| == 2, decimals, value);
  }

  /** An amount is accepted exactly when it is a decimal numeral of a positive value that the token's decimals can
      express, and the quantity returned is that value. */
  lemma AcceptedMeansDenoted(amount: string, decimals: nat, value: nat)
    requires value > 0
    ensures TokenQuantity(amount, decimals) == Ok(PrintInt(value)) <==> Denotes(TrimSpace(amount), decimals, value)
  {
    if Denotes(TrimSpace(amount), decimals, value) {
      var sign, whole, fraction, point :|
        && Spells(TrimSpace(amount), sign, whole, fraction, point) && |fraction| <= decimals
        && value == Scaled(whole + fraction, decimals - |fraction|);
      SomeDigits(whole + fraction, decimals - |fraction|);
      DenotedIsAccepted(amount, sign, whole, fraction, point, decimals);
    }
    if TokenQuantity(amount, decimals) == Ok(PrintInt(value)) {
      AcceptedIsDenoted(amount, decimals, value);
    }
  }

  /** A decimal numeral with more places than the token has is refused for them; with negative decimals any is. */
  lemma NumeralIsTooFine(amount: string, sign: string, whole: string, fraction: string, point: bool, decimals: int)
    requires Spells(TrimSpace(amount), sign, whole, fraction, point) && TrimSpace(amount) != ""
    requires decimals < |fraction|
    ensures TokenQuantity(amount, decimals) == Err(if decimals < 0 then InvalidDecimals else TooManyDecimals)
  {
    SplitSpelled(TrimSpace(amount), sign, whole, fraction, point);
  }

  lemma SomeDigits(digits: string, places: nat)
    requires Scaled(digits, places) > 0
    ensures digits != ""
  {
    ShiftIsProduct(0, 10, places);
  }

  // ----- Formatting -----

  function TrimZeros(s: string): (kept: string)
    ensures |kept| <= |s| && kept + Repeat('0', |s| - |kept|) == s
    ensures kept == "" || kept[|kept| - 1] != '0'
    ensures IsDecimal(s) ==> IsDecimal(kept)
  {
    TrimRight(s, Zeros)
  }

  function PadLeft(text: string, width: nat): (r: string)
    requires |text| <= width
    ensures |r| == width && Number(r) == Number(text)
    ensures IsDecimal(text) ==> IsDecimal(r)
  {
    DecimalConcat(Repeat('0', width - |text|), text);
    ZerosInFront(width - |text|, text);
    Repeat('0', width - |text|) + text
  }

  /** The digits after a point with `width` places: padded in front, without trailing zeros. */
  function Placed(text: string, width: nat): (fraction: string)
    requires |text| <= width
    ensures |fraction| <= width && (IsDecimal(text) ==> IsDecimal(fraction))
    ensures fraction == "" || fraction[|fraction| - 1] != '0'
    ensures Scaled(fraction, width - |fraction|) == Number(text)
  {
    var padded := PadLeft(text, width);
    PaddedValue(TrimZeros(padded), |padded| - |TrimZeros(padded)|);
    TrimZeros(padded)
  }

  /** The remainder in digits, which is nothing at all for a token without decimals. */
  function RestDigits(units: nat, decimals: nat): (text: string)
    requires units < TenTo(decimals)
    ensures |text| <= decimals && IsDecimal(text) && Number(text) == units
  {
    if decimals == 0 then ""
    else
      PrintFits(units, decimals);
      PrintNat(units)
  }

  function FractionText(units: nat, decimals: nat): (fraction: string)
    requires units < TenTo(decimals)
    ensures |fraction| <= decimals && IsDecimal(fraction)
    ensures fraction == "" || fraction[|fraction| - 1] != '0'
    ensures Scaled(fraction, decimals - |fraction|) == units
  {
    Placed(RestDigits(units, decimals), decimals)
  }

  lemma PrintFits(units: nat, decimals: nat)
    requires decimals > 0 && units < TenTo(decimals)
    ensures |PrintNat(units)| <= decimals
  {
    DigitsFit(units, 10, decimals);
  }

  function Pointed(whole: string, fraction: string): string
  {
    if fraction == "" then whole else whole + "." + fraction
  }

  /** A quantity of smallest units as a decimal amount. The quotient rounds down, so the remainder is never negative. */
  function FormatUnits(value: int, decimals: nat): string
  {
    if decimals == 0 then PrintInt(value)
    else
      var base := TenTo(decimals);
      Pointed(PrintInt(value / base), FractionText(value % base, decimals))
  }

  /** `text` is written without sign or superfluous zeros. */
  ghost predicate Canonical(text: string)
  {
    exists whole, fraction :: IsCanonical(text, whole, fraction)
  }

  predicate IsCanonical(text: string, whole: string, fraction: string)
  {
    && IsDecimal(whole) && IsDecimal(fraction)
    && whole != "" && (whole[0] == '0' ==> |whole| == 1)
    && (fraction == "" || fraction[|fraction| - 1] != '0')
    && text == Pointed(whole, fraction)
  }

  lemma ShiftedConcat(s: seq<nat>, t: seq<nat>, base: nat, places: nat)
    ensures Shift(Value(s + t, base), base, places)
         == Shift(Value(s, base), base, |t| + places) + Shift(Value(t, base), base, places)
  {
    var v, w := Value(s, base), Value(t, base);
    ValueConcat(s, t, base);
    ShiftSum(Shift(v, base, |t|), w, base, places);
    ShiftTwice(v, base, |t|, places);
  }

  lemma JoinedValue(whole: string, fraction: string, decimals: nat)
    requires |fraction| <= decimals
    ensures Scaled(whole + fraction, decimals - |fraction|)
        == Scaled(whole, decimals) + Scaled(fraction, decimals - |fraction|)
  {
    ReadConcat(whole, fraction);
    ShiftedConcat(Read(whole), Read(fraction), 10, decimals - |fraction|);
  }

  lemma QuotientAndRest(value: nat, base: nat, q: nat, r: nat)
    requires base > r && value == q * base + r
    ensures value / base == q && value % base == r
  {
    LastDigit(value / base, q, value % base, r, base);
  }

  /** The two parts of a formatted quantity. */
  lemma FormatParts(value: nat, decimals: nat, q: nat, units: nat)
    requires units < TenTo(decimals) && value == q * TenTo(decimals) + units
    ensures FormatUnits(value, decimals) == Pointed(PrintNat(q), FractionText(units, decimals))
  {
    QuotientAndRest(value, TenTo(decimals), q, units);
    if decimals == 0 {
      assert TenTo(decimals) == 1 && value == q;
    } else {
      assert PrintInt(q) == PrintNat(q);
    }
  }

  lemma PartsAreCanonical(q: nat, units: nat, decimals: nat)
    requires units < TenTo(decimals)
    ensures var whole, fraction := PrintNat(q), FractionText(units, decimals);
      IsCanonical(Pointed(whole, fraction), whole, fraction) && Number(whole) == q
  {
  }

  lemma JoinedMeans(whole: string, fraction: string, decimals: nat, q: nat, units: nat)
    requires |fraction| <= decimals && Number(whole) == q && Scaled(fraction, decimals - |fraction|) == units
    ensures Scaled(whole + fraction, decimals - |fraction|) == q * TenTo(decimals) + units
  {
    JoinedValue(whole, fraction, decimals);
    ShiftIsProduct(q, 10, decimals);
  }

  // ----- Round trips -----

  lemma CanonicalIsTrimmed(text: string, whole: string, fraction: string)
    requires IsCanonical(text, whole, fraction)
    ensures TrimSpace(text) == text
  {
  }

  lemma CanonicalIsSpelled(text: string, whole: string, fraction: string)
    requires IsCanonical(text, whole, fraction)
    ensures Spells(text, "", whole, fraction, fraction != "")
  {
  }

  /** A canonical text is read as the number it denotes. */
  lemma CanonicalIsRead(text: string, whole: string, fraction: string, decimals: nat)
    requires IsCanonical(text, whole, fraction)
    ensures TokenQuantity(text, decimals) ==
      if |fraction| > decimals then Err(TooManyDecimals)
      else
        var value := Scaled(whole + fraction, decimals - |fraction|);
        if value > 0 then Ok(PrintInt(value)) else Err(NotPositive)
  {
    CanonicalIsTrimmed(text, whole, fraction);
    CanonicalIsSpelled(text, whole, fraction);
    if |fraction| > decimals {
      SplitSpelled(text, "", whole, fraction, true);
    } else {
      DenotedIsAccepted(text, "", whole, fraction, fraction != "", decimals);
    }
  }

  /** A formatted quantity is a canonical text that denotes the quantity. */
  lemma FormattedIsCanonical(value: nat, decimals: nat) returns (whole: string, fraction: string)
    ensures IsCanonical(FormatUnits(value, decimals), whole, fraction) && |fraction| <= decimals
    ensures value == Scaled(whole + fraction, decimals - |fraction|)
  {
    var q, units := Divide(value, TenTo(decimals));
    whole, fraction := PrintNat(q), FractionText(units, decimals);
    FormatParts(value, decimals, q, units);
    PartsAreCanonical(q, units, decimals);
    JoinedMeans(whole, fraction, decimals, q, units);
  }

  /** Reading a formatted quantity gives the quantity back; only zero is refused. */
  lemma FormattedReadsBack(value: nat, decimals: nat)
    ensures TokenQuantity(FormatUnits(value, decimals), decimals)
         == if value > 0 then Ok(PrintInt(value)) else Err(NotPositive)
  {
    var whole, fraction := FormattedIsCanonical(value, decimals);
    CanonicalIsRead(FormatUnits(value, decimals), whole, fraction, decimals);
  }

  /** Different quantities never look the same. */
  lemma DistinctQuantitiesPrintDifferently(v: nat, w: nat, decimals: nat)
    requires FormatUnits(v, decimals) == FormatUnits(w, decimals)
    ensures v == w
  {
    FormattedReadsBack(v, decimals);
    FormattedReadsBack(w, decimals);
    if v > 0 && w > 0 {
      PrintsDiffer(v, w);
    }
  }

  lemma TrimPadded(fraction: string, n: nat)
    requires fraction == "" || fraction[|fraction| - 1] != '0'
    ensures TrimZeros(fraction + Repeat('0', n)) == fraction
  {
    var s := fraction + Repeat('0', n);
    assert fraction == "" || s[|fraction| - 1] != '0';
    assert forall i :: |fraction| <= i < |s| ==> s[i] == '0';
    assert Kept(s, |s|, Zeros) == |fraction|;
  }

  lemma SamePadded(digits: string, width: nat, fraction: string)
    requires IsDecimal(fraction) && IsDecimal(digits) && |digits| <= width && |fraction| <= width
    requires Scaled(fraction, width - |fraction|) == Number(digits)
    ensures PadLeft(digits, width) == fraction + Repeat('0', width - |fraction|)
  {
    PaddedValue(fraction, width - |fraction|);
    DecimalConcat(fraction, Repeat('0', width - |fraction|));
    SameDecimal(PadLeft(digits, width), fraction + Repeat('0', width - |fraction|));
  }

  lemma PlacedAgain(digits: string, width: nat, fraction: string)
    requires IsDecimal(fraction) && IsDecimal(digits) && |digits| <= width && |fraction| <= width
    requires fraction == "" || fraction[|fraction| - 1] != '0'
    requires Scaled(fraction, width - |fraction|) == Number(digits)
    ensures Placed(digits, width) == fraction
  {
    SamePadded(digits, width, fraction);
    TrimPadded(fraction, width - |fraction|);
  }

  /** The digits after the point that were written are the ones that are printed. */
  lemma FractionIsReprinted(fraction: string, decimals: nat, units: nat)
    requires |fraction| <= decimals && IsDecimal(fraction)
    requires fraction == "" || fraction[|fraction| - 1] != '0'
    requires units == Scaled(fraction, decimals - |fraction|) < TenTo(decimals)
    ensures FractionText(units, decimals) == fraction
  {
    PlacedAgain(RestDigits(units, decimals), decimals, fraction);
  }

  /** Fewer digits than places: what follows the point is less than one whole. */
  lemma FractionBelowOne(fraction: string, decimals: nat)
    requires |fraction| <= decimals && IsDecimal(fraction)
    ensures Scaled(fraction, decimals - |fraction|) < TenTo(decimals)
  {
    DecimalReads(fraction);
    ValueBound(Read(fraction), 10);
    PowSum(10, |fraction|, decimals - |fraction|);
    PowPositive(10, decimals - |fraction|);
    ShiftIsProduct(Number(fraction), 10, decimals - |fraction|);
    StrictProduct(Number(fraction), Pow(10, |fraction|), Pow(10, decimals - |fraction|));
  }

  lemma StrictProduct(a: nat, b: nat, c: nat)
    requires a < b && c > 0
    ensures a * c < b * c
  {
  }

  /** Canonical texts are exactly what formatting produces: each is printed again from the quantity it is read as. */
  lemma CanonicalIsReprinted(text: string, whole: string, fraction: string, decimals: nat, value: nat)
    requires IsCanonical(text, whole, fraction) && |fraction| <= decimals
    requires value == Scaled(whole + fraction, decimals - |fraction|)
    ensures FormatUnits(value, decimals) == text
  {
    var units := Scaled(fraction, decimals - |fraction|);
    JoinedValue(whole, fraction, decimals);
    FractionBelowOne(fraction, decimals);
    ShiftIsProduct(Number(whole), 10, decimals);
    PrintOfValue(whole);
    FractionIsReprinted(fraction, decimals, units);
    FormatParts(value, decimals, Number(whole), units);
  }

  /** Formatting what was parsed keeps the value and gives its one canonical text. */
  lemma ParsedIsReformatted(amount: string, decimals: nat, quantity: string) returns (value: nat)
    requires TokenQuantity(amount, decimals) == Ok(quantity)
    ensures value > 0 && quantity == PrintInt(value)
    ensures Canonical(FormatUnits(value, decimals))
    ensures TokenQuantity(FormatUnits(value, decimals), decimals) == Ok(quantity)
    ensures Canonical(TrimSpace(amount)) ==> FormatUnits(value, decimals) == TrimSpace(amount)
  {
    var parts := Split(TrimSpace(amount), '.');
    value := ParseInt(Shifted(parts[0], if |parts| == 2 then parts[1] else "", decimals), 10).value;
    var printedWhole, printedFraction := FormattedIsCanonical(value, decimals);
    FormattedReadsBack(value, decimals);
    if Canonical(TrimSpace(amount)) {
      var whole, fraction :| IsCanonical(TrimSpace(amount), whole, fraction);
      CanonicalIsRead(TrimSpace(amount), whole, fraction, decimals);
      CanonicalIsTrimmed(TrimSpace(amount), whole, fraction);
      assert TokenQuantity(TrimSpace(amount), decimals) == TokenQuantity(amount, decimals);
      PrintsDiffer(value, Scaled(whole + fraction, decimals - |fraction|));
      CanonicalIsReprinted(TrimSpace(amount), whole, fraction, decimals, value);
    }
  }
}
