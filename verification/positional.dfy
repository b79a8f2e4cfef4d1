/** Positional notation: sequences of digits, most significant first, and the numbers they stand for. */
module Positional {
  import opened Arithmetic

  predicate AreDigits(ds: seq<nat>, base: nat)
  {
    forall i :: 0 <= i < |ds| ==> ds[i] < base
  }

  function Value(ds: seq<nat>, base: nat): nat
  {
    if ds == [] then 0 else Value(ds[..|ds| - 1], base) * base + ds[|ds| - 1]
  }

  /** The shortest notation of a number; zero takes one digit. */
  function DigitsOf(n: nat, base: nat): (ds: seq<nat>)
    requires base >= 2
    ensures ds != [] && AreDigits(ds, base)
    ensures Value(ds, base) == n
    ensures ds[0] == 0 ==> ds == [0]
  {
    if n < base then [n]
    else
      Quotient(n, base);
      var front := DigitsOf(n / base, base);
      assert (front + [n % base])[..|front|] == front;
      front + [n % base]
  }

  lemma Quotient(n: nat, base: nat)
    requires base >= 2 && n >= base
    ensures 0 < n / base < n
    ensures n == (n / base) * base + n % base
  {
  }

  lemma {:induction false} ValueBound(ds: seq<nat>, base: nat)
    requires AreDigits(ds, base)
    ensures Value(ds, base) < Pow(base, |ds|)
  {
    if ds != [] {
      var front := ds[..|ds| - 1];
      ValueBound(front, base);
      OneMoreDigit(Value(front, base), Pow(base, |front|), ds[|ds| - 1], base);
    }
  }

  lemma OneMoreDigit(v: nat, p: nat, d: nat, base: nat)
    requires v < p && d < base
    ensures v * base + d < base * p
  {
    ProductOfNats(p - v - 1, base);
  }

  /** `v` with `n` further places behind it. */
  function Shift(v: nat, base: nat, n: nat): nat
  {
    if n == 0 then v else Shift(v, base, n - 1) * base
  }

  lemma {:induction false} ShiftIsProduct(v: nat, base: nat, n: nat)
    ensures Shift(v, base, n) == v * Pow(base, n)
  {
    if n > 0 {
      ShiftIsProduct(v, base, n - 1);
      Regroup(v, Pow(base, n - 1), base);
    }
  }

  lemma {:induction false} ShiftSum(v: nat, w: nat, base: nat, n: nat)
    ensures Shift(v + w, base, n) == Shift(v, base, n) + Shift(w, base, n)
  {
    if n > 0 {
      ShiftSum(v, w, base, n - 1);
    }
  }

  lemma {:induction false} ShiftTwice(v: nat, base: nat, m: nat, n: nat)
    ensures Shift(Shift(v, base, m), base, n) == Shift(v, base, m + n)
  {
    if n > 0 {
      ShiftTwice(v, base, m, n - 1);
    }
  }

  lemma {:induction false} ValueConcat(s: seq<nat>, t: seq<nat>, base: nat)
    ensures Value(s + t, base) == Shift(Value(s, base), base, |t|) + Value(t, base)
  {
    if t == [] {
      assert s + t == s;
    } else {
      ValueConcat(s, t[..|t| - 1], base);
      assert (s + t)[..|s + t| - 1] == s + t[..|t| - 1];
    }
  }

  lemma {:induction false} ValueOfZeros(ds: seq<nat>, base: nat)
    requires AreDigits(ds, 1)
    ensures Value(ds, base) == 0
  {
    if ds != [] {
      ValueOfZeros(ds[..|ds| - 1], base);
    }
  }

  lemma {:induction false} LeadingZeros(zeros: seq<nat>, t: seq<nat>, base: nat)
    requires AreDigits(zeros, 1)
    ensures Value(zeros + t, base) == Value(t, base)
  {
    if t == [] {
      assert zeros + t == zeros;
      ValueOfZeros(zeros, base);
    } else {
      LeadingZeros(zeros, t[..|t| - 1], base);
      assert (zeros + t)[..|zeros + t| - 1] == zeros + t[..|t| - 1];
    }
  }

  /** Notations of one length and one value are the same notation. */
  lemma {:induction false} SameLengthSameValue(s: seq<nat>, t: seq<nat>, base: nat)
    requires AreDigits(s, base) && AreDigits(t, base)
    requires |s| == |t| && Value(s, base) == Value(t, base)
    ensures s == t
  {
    if s != [] {
      var k := |s| - 1;
      LastDigit(Value(s[..k], base), Value(t[..k], base), s[k], t[k], base);
      SameLengthSameValue(s[..k], t[..k], base);
      assert s == s[..k] + [s[k]] && t == t[..k] + [t[k]];
    }
  }

  lemma LastDigit(p: nat, q: nat, c: nat, d: nat, base: nat)
    requires c < base && d < base && p * base + c == q * base + d
    ensures p == q && c == d
  {
    assert (p - q) * base == d - c;
    DigitGap(p - q, d - c, base);
  }

  lemma DigitGap(e: int, d: int, base: nat)
    requires e * base == d && 0 - base < d < base
    ensures e == 0
  {
  }

  /** A notation without superfluous zeros in front is the shortest one of its value. */
  lemma {:induction false} ShortestIsUnique(ds: seq<nat>, base: nat)
    requires base >= 2 && AreDigits(ds, base)
    requires ds != [] && (ds[0] == 0 ==> |ds| == 1)
    ensures DigitsOf(Value(ds, base), base) == ds
  {
    var k := |ds| - 1;
    assert ds == ds[..k] + [ds[k]];
    if k > 0 {
      ShortestIsUnique(ds[..k], base);
      AppendDigit(Value(ds[..k], base), ds[k], base);
    }
  }

  lemma AppendDigit(v: nat, d: nat, base: nat)
    requires base >= 2 && v > 0 && d < base
    ensures DigitsOf(v * base + d, base) == DigitsOf(v, base) + [d]
  {
    var n := v * base + d;
    ProductOfNats(v - 1, base);
    Quotient(n, base);
    LastDigit(v, n / base, d, n % base, base);
  }

  lemma QuotientBelow(q: nat, r: nat, base: nat, p: nat)
    requires q * base + r < base * p
    ensures q < p
  {
    if q >= p {
      ProductOfNats(q - p, base);
    }
  }

  /** A number below a power of the base needs no more digits than the exponent says. */
  lemma {:induction false} DigitsFit(n: nat, base: nat, length: nat)
    requires base >= 2 && length >= 1 && n < Pow(base, length)
    ensures |DigitsOf(n, base)| <= length
    decreases length
  {
    if n >= base {
      assert length > 1 by {
        assert Pow(base, 1) == base * Pow(base, 0) == base;
      }
      Quotient(n, base);
      QuotientBelow(n / base, n % base, base, Pow(base, length - 1));
      DigitsFit(n / base, base, length - 1);
    }
  }
}
