/** Trimming and splitting of text, and the numerals in which big integers are read and written. */
module Text {
  import opened Positional
  import opened Wrappers

  // ----- Trimming and splitting -----

  predicate IsSpace(c: char)
  {
    || '\t' <= c <= '\r' || c == ' ' || c == '\U{85}' || c == '\U{A0}' || c == '\U{1680}'
    || '\U{2000}' <= c <= '\U{200A}' || c == '\U{2028}' || c == '\U{2029}' || c == '\U{202F}'
    || c == '\U{205F}' || c == '\U{3000}'
  }

  /** The sets of characters that are cut from the ends of texts. */
  datatype Cut = Spaces | Zeros | Quotes
  {
    predicate Has(c: char)
    {
      match this
      case Spaces => IsSpace(c)
      case Zeros => c == '0'
      case Quotes => c == '"'
    }
  }

  function TrimLeft(s: string, cut: Cut): (r: string)
    ensures r == "" || !cut.Has(r[0])
  {
    if s != "" && cut.Has(s[0]) then TrimLeft(s[1..], cut) else s
  }

  /** The length of `s[..n]` once the cut characters at its end are gone. */
  function Kept(s: string, n: nat, cut: Cut): (k: nat)
    requires n <= |s|
    ensures k <= n && (k == 0 || !cut.Has(s[k - 1]))
    ensures forall i :: k <= i < n ==> cut.Has(s[i])
  {
    if n > 0 && cut.Has(s[n - 1]) then Kept(s, n - 1, cut) else n
  }

  function TrimRight(s: string, cut: Cut): string
  {
    s[..Kept(s, |s|, cut)]
  }

  function Trim(s: string, cut: Cut): (r: string)
    ensures r == "" || (!cut.Has(r[0]) && !cut.Has(r[|r| - 1]))
  {
    TrimRight(TrimLeft(s, cut), cut)
  }

  function TrimSpace(s: string): string
  {
    Trim(s, Spaces)
  }

  lemma TrimIsStable(s: string, cut: Cut)
    requires s == "" || (!cut.Has(s[0]) && !cut.Has(s[|s| - 1]))
    ensures Trim(s, cut) == s
  {
  }

  /** Trimming finds the text between any characters that are cut. */
  lemma {:induction false} TrimFindsTheText(before: string, text: string, after: string, cut: Cut)
    requires text != "" && !cut.Has(text[0]) && !cut.Has(text[|text| - 1])
    requires forall c :: c in before || c in after ==> cut.Has(c)
    ensures Trim(before + text + after, cut) == text
    decreases |before|
  {
    var s := before + text + after;
    if before == "" {
      assert s[0] == text[0];
      var k := Kept(s, |s|, cut);
      assert s[|text| - 1] == text[|text| - 1];
      forall i | |text| <= i < |s| ensures cut.Has(s[i]) {
        assert s[i] == after[i - |text|];
      }
      assert k == |text|;
    } else {
      assert cut.Has(before[0]);
      assert s[0] == before[0] && s[1..] == before[1..] + text + after;
      TrimFindsTheText(before[1..], text, after, cut);
    }
  }

  /** Blanks, tabs and line ends around graphic characters are cut. */
  lemma BlanksAreTrimmed(before: string, text: string, after: string)
    requires text != "" && '!' <= text[0] <= '~' && '!' <= text[|text| - 1] <= '~'
    requires forall c :: c in before || c in after ==> c == ' ' || c == '\t' || c == '\r' || c == '\n'
    ensures TrimSpace(before + text + after) == text
  {
    TrimFindsTheText(before, text, after, Spaces);
  }

  function Lower(c: char): char
  {
    if 'A' <= c <= 'Z' then (c as nat + 32) as char else c
  }

  function ToLower(s: string): (r: string)
    ensures |r| == |s|
  {
    if s == "" then "" else ToLower(s[..|s| - 1]) + [Lower(s[|s| - 1])]
  }

  lemma {:induction false} ToLowerAt(s: string)
    ensures forall i :: 0 <= i < |s| ==> ToLower(s)[i] == Lower(s[i])
  {
    if s != "" {
      ToLowerAt(s[..|s| - 1]);
    }
  }

  function Split(s: string, separator: char): (parts: seq<string>)
    ensures |parts| >= 1
  {
    if s == "" then [""]
    else
      var rest := Split(s[1..], separator);
      if s[0] == separator then [""] + rest else [[s[0]] + rest[0]] + rest[1..]
  }

  function Join(parts: seq<string>, separator: char): string
  {
    if |parts| == 0 then "" else if |parts| == 1 then parts[0] else parts[0] + [separator] + Join(parts[1..], separator)
  }

  /** Splitting loses nothing. */
  lemma {:induction false} SplitJoins(s: string, separator: char)
    ensures Join(Split(s, separator), separator) == s
  {
    if s != "" {
      SplitJoins(s[1..], separator);
      var rest := Split(s[1..], separator);
      var parts := Split(s, separator);
      if s[0] == separator {
        assert parts[1..] == rest;
      } else if |rest| > 1 {
        assert parts[1..] == rest[1..];
      }
      assert s == [s[0]] + s[1..];
    }
  }

  lemma {:induction false} SplitWithout(s: string, separator: char)
    requires separator !in s
    ensures Split(s, separator) == [s]
  {
    if s != "" {
      SplitWithout(s[1..], separator);
      assert [s[0]] + s[1..] == s;
    }
  }

  lemma {:induction false} SplitOnce(a: string, b: string, separator: char)
    requires separator !in a && separator !in b
    ensures Split(a + [separator] + b, separator) == [a, b]
  {
    var s := a + [separator] + b;
    if a == "" {
      assert s[1..] == b;
      SplitWithout(b, separator);
    } else {
      assert s[1..] == a[1..] + [separator] + b;
      SplitOnce(a[1..], b, separator);
      assert [a[0]] + a[1..] == a;
    }
  }

  function Repeat(c: char, n: nat): (r: string)
    ensures |r| == n && forall i :: 0 <= i < n ==> r[i] == c
  {
    seq(n, i => c)
  }

  // ----- Numerals -----

  const NO_DIGIT: nat := 16

  /** The value of a digit in the bases up to sixteen, and `NO_DIGIT` for every other character. */
  function DigitValue(c: char): (d: nat)
    ensures d <= NO_DIGIT
  {
    if '0' <= c <= '9' then c as nat - '0' as nat
    else if 'a' <= c <= 'f' then c as nat - 'a' as nat + 10
    else if 'A' <= c <= 'F' then c as nat - 'A' as nat + 10
    else NO_DIGIT
  }

  function Digit(d: nat): (c: char)
    requires d < NO_DIGIT
    ensures DigitValue(c) == d
    ensures '0' <= c <= '9' || 'a' <= c <= 'f'
    ensures d < 10 ==> '0' <= c <= '9'
  {
    if d < 10 then ('0' as nat + d) as char else ('a' as nat + (d - 10)) as char
  }

  function Read(s: string): (ds: seq<nat>)
    ensures |ds| == |s|
  {
    if s == "" then [] else Read(s[..|s| - 1]) + [DigitValue(s[|s| - 1])]
  }

  lemma {:induction false} ReadAt(s: string)
    ensures forall i :: 0 <= i < |s| ==> Read(s)[i] == DigitValue(s[i])
  {
    if s != "" {
      ReadAt(s[..|s| - 1]);
    }
  }

  function Spell(ds: seq<nat>): (s: string)
    requires AreDigits(ds, NO_DIGIT)
    ensures |s| == |ds|
  {
    if ds == [] then "" else Spell(ds[..|ds| - 1]) + [Digit(ds[|ds| - 1])]
  }

  lemma {:induction false} SpellAt(ds: seq<nat>)
    requires AreDigits(ds, NO_DIGIT)
    ensures forall i :: 0 <= i < |ds| ==> Spell(ds)[i] == Digit(ds[i])
  {
    if ds != [] {
      SpellAt(ds[..|ds| - 1]);
    }
  }

  lemma {:induction false} ReadSpelled(ds: seq<nat>)
    requires AreDigits(ds, NO_DIGIT)
    ensures Read(Spell(ds)) == ds
  {
    SpellAt(ds);
    ReadAt(Spell(ds));
    var read := Read(Spell(ds));
    forall i | 0 <= i < |ds| ensures read[i] == ds[i] {
      assert read[i] == DigitValue(Spell(ds)[i]);
    }
  }

  lemma ReadConcat(s: string, t: string)
    ensures Read(s + t) == Read(s) + Read(t)
  {
    ReadAt(s);
    ReadAt(t);
    ReadAt(s + t);
  }

  lemma ZerosReadAsZeros(n: nat)
    ensures AreDigits(Read(Repeat('0', n)), 1)
  {
    assert DigitValue('0') == 0;
    ReadAt(Repeat('0', n));
    forall i | 0 <= i < n ensures Read(Repeat('0', n))[i] < 1 {
      assert Read(Repeat('0', n))[i] == DigitValue(Repeat('0', n)[i]);
    }
  }

  lemma ZerosCountNothing(n: nat)
    ensures Number(Repeat('0', n)) == 0
  {
    ZerosReadAsZeros(n);
    ValueOfZeros(Read(Repeat('0', n)), 10);
  }

  lemma ZerosInFront(n: nat, text: string)
    ensures Number(Repeat('0', n) + text) == Number(text)
  {
    ZerosReadAsZeros(n);
    ReadConcat(Repeat('0', n), text);
    LeadingZeros(Read(Repeat('0', n)), Read(text), 10);
  }

  function Number(s: string): nat
  {
    Value(Read(s), 10)
  }

  /** Decimal digits have one spelling each. */
  predicate IsDecimal(s: string)
  {
    forall i :: 0 <= i < |s| ==> '0' <= s[i] <= '9'
  }

  lemma DecimalConcat(s: string, t: string)
    ensures IsDecimal(s + t) <==> IsDecimal(s) && IsDecimal(t)
  {
    if IsDecimal(s + t) {
      assert forall i :: 0 <= i < |s| ==> s[i] == (s + t)[i];
      assert forall i :: 0 <= i < |t| ==> t[i] == (s + t)[|s| + i];
    }
  }

  lemma SpellRead(s: string)
    requires IsDecimal(s)
    ensures AreDigits(Read(s), 10) && Spell(Read(s)) == s
  {
  }

  lemma OneSpelling(c: char)
    requires '0' <= c <= '9'
    ensures DigitValue(c) < 10 && Digit(DigitValue(c)) == c
  {
  }

  lemma DecimalReads(s: string)
    ensures IsDecimal(s) <==> AreDigits(Read(s), 10)
  {
    ReadAt(s);
    if AreDigits(Read(s), 10) {
      forall i | 0 <= i < |s| ensures '0' <= s[i] <= '9' {
        assert Read(s)[i] < 10;
      }
    }
  }

  // ----- Big integers as text -----

  function Unsigned(s: string): string
  {
    if s != "" && (s[0] == '+' || s[0] == '-') then s[1..] else s
  }

  /** A big integer read from text: an optional sign and at least one digit, nothing else. */
  function ParseInt(s: string, base: nat): Option<int>
  {
    var digits := Unsigned(s);
    if digits == "" || !AreDigits(Read(digits), base) then None
    else
      var magnitude: int := Value(Read(digits), base);
      Some(if s[0] == '-' then -magnitude else magnitude)
  }

  function PrintNat(n: nat): (s: string)
    ensures s != "" && IsDecimal(s) && Number(s) == n
    ensures s[0] == '0' ==> |s| == 1
  {
    ReadSpelled(DigitsOf(n, 10));
    SpellAt(DigitsOf(n, 10));
    Spell(DigitsOf(n, 10))
  }

  function PrintInt(n: int): (s: string)
    ensures s != ""
  {
    if n < 0 then "-" + PrintNat(0 - n) else PrintNat(n)
  }

  lemma UnsignedPart(s: string, sign: string, digits: string)
    requires s == sign + digits && (sign == "" || sign == "+" || sign == "-")
    requires digits != "" && IsDecimal(digits)
    ensures s != "" && Unsigned(s) == digits && (s[0] == '-' <==> sign == "-")
  {
  }

  lemma ParseUnsigned(s: string)
    requires s != "" && Unsigned(s) != "" && IsDecimal(Unsigned(s))
    ensures var magnitude: int := Number(Unsigned(s));
      ParseInt(s, 10) == Some(if s[0] == '-' then -magnitude else magnitude)
  {
    DecimalReads(Unsigned(s));
  }

  /** Decimal texts of one length differ in value when they differ. */
  lemma SameDecimal(s: string, t: string)
    requires IsDecimal(s) && IsDecimal(t) && |s| == |t|
    requires Number(s) == Number(t)
    ensures s == t
  {
    SpellRead(s);
    SpellRead(t);
    SameLengthSameValue(Read(s), Read(t), 10);
  }

  /** Printing then reading gives the number back. */
  lemma ParsePrinted(n: int)
    ensures ParseInt(PrintInt(n), 10) == Some(n)
  {
    var m := if n < 0 then 0 - n else n;
    UnsignedPart(PrintInt(n), if n < 0 then "-" else "", PrintNat(m));
    ParseUnsigned(PrintInt(n));
  }

  /** A decimal without superfluous zeros in front is what its value prints as. */
  lemma PrintOfValue(s: string)
    requires s != "" && IsDecimal(s) && (s[0] == '0' ==> |s| == 1)
    ensures PrintNat(Number(s)) == s
  {
    SpellRead(s);
    if Read(s)[0] == 0 {
      ReadAt(s);
      OneSpelling(s[0]);
    }
    ShortestIsUnique(Read(s), 10);
  }
}
