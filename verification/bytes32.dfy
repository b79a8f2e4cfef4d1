/** Field elements as text: read from decimal or hexadecimal, and written as 32 big-endian bytes in hexadecimal. */
module Bytes32 {
  import opened Arithmetic
  import opened FieldArithmetic
  import opened Positional
  import opened Text
  import opened Wrappers

  const WORD: nat := 32

  /** 256 to the power of 32: one more than the largest number that fits in a word. */
  const WORD_LIMIT: nat := 115792089237316195423570985008687907853269984665640564039457584007913129639936

  lemma WordLimit()
    ensures Pow(256, WORD) == WORD_LIMIT
  {
    assert Pow(256, 1) == 256 * Pow(256, 0) == 256;
    PowSum(256, 1, 1);
    assert Pow(256, 2) == 65536;
    PowSum(256, 2, 2);
    assert Pow(256, 4) == 4294967296;
    PowSum(256, 4, 4);
    assert Pow(256, 8) == 18446744073709551616;
    PowSum(256, 8, 8);
    assert Pow(256, 16) == 340282366920938463463374607431768211456;
    PowSum(256, 16, 16);
  }

  // ----- Reading -----

  /** A field element read from text: quotes and spaces around it are ignored, a leading 0x makes it hexadecimal. */
  function FieldElement(value: string): Option<int>
  {
    var text := Trim(TrimSpace(value), Quotes);
    if text == "" || text == "<nil>" then None
    else if "0x" <= text || "0X" <= text then ParseInt(text[2..], 16)
    else ParseInt(text, 10)
  }

  predicate SameFieldElement(left: string, right: string)
  {
    var a, b := FieldElement(left), FieldElement(right);
    a.Some? && b.Some? && a.value == b.value
  }

  function Bytes32ToFieldString(value: string): string
  {
    var number := FieldElement(value);
    if number.None? then "" else PrintInt(number.value)
  }

  predicate IsBytes32Hex(value: string)
  {
    var text := TrimSpace(value);
    |text| == 66 && "0x" <= text && AreDigits(Read(text[2..]), 16)
  }

  // ----- Writing -----

  /** The bytes of a number, without leading zeros; zero has none. */
  function BytesOf(number: nat): (bytes: seq<nat>)
    ensures AreDigits(bytes, 256) && Value(bytes, 256) == number
  {
    if number == 0 then [] else DigitsOf(number, 256)
  }

  function ZeroBytes(n: nat): (zeros: seq<nat>)
    ensures |zeros| == n && AreDigits(zeros, 1)
  {
    if n == 0 then [] else ZeroBytes(n - 1) + [0]
  }

  /** Exactly 32 bytes: the last ones of a longer number, zeros in front of a shorter one. */
  function Word(bytes: seq<nat>): (word: seq<nat>)
    requires AreDigits(bytes, 256)
    ensures |word| == WORD && AreDigits(word, 256)
    ensures |bytes| >= WORD ==> word == bytes[|bytes| - WORD..]
  {
    if |bytes| > WORD then bytes[|bytes| - WORD..] else ZeroBytes(WORD - |bytes|) + bytes
  }

  function Nibbles(bytes: seq<nat>): (nibbles: seq<nat>)
    requires AreDigits(bytes, 256)
    ensures |nibbles| == 2 * |bytes| && AreDigits(nibbles, 16)
  {
    if bytes == [] then [] else Nibbles(bytes[..|bytes| - 1]) + [bytes[|bytes| - 1] / 16, bytes[|bytes| - 1] % 16]
  }

  function Bytes32Of(number: nat): (text: string)
    ensures |text| == 66
  {
    "0x" + Spell(Nibbles(Word(BytesOf(number))))
  }

  method BigIntToBytes32(number: nat) returns (text: string)
    ensures text == Bytes32Of(number)
  {
    var bytes := BytesOf(number);
    ghost var word := Word(bytes);
    if |bytes| > WORD {
      bytes := bytes[|bytes| - WORD..];
    }
    assert Word(bytes) == word;
    var padded := Padded(bytes);
    var hex := EncodeToString(padded);
    text := "0x" + hex;
  }

  /** The bytes copied to the end of a zeroed buffer of one word. */
  method Padded(bytes: seq<nat>) returns (word: seq<nat>)
    requires AreDigits(bytes, 256) && |bytes| <= WORD
    ensures word == Word(bytes)
  {
    var padded := new nat[WORD](_ => 0);
    var offset := WORD - |bytes|;
    for i := 0 to |bytes|
      invariant forall k :: 0 <= k < offset ==> padded[k] == 0
      invariant forall k :: 0 <= k < i ==> padded[offset + k] == bytes[k]
    {
      padded[offset + i] := bytes[i];
    }
    word := padded[..];
    ghost var zeros := ZeroBytes(offset);
    assert forall k :: 0 <= k < offset ==> zeros[k] < 1;
    assert word == zeros + bytes;
  }

  method EncodeToString(bytes: seq<nat>) returns (hex: string)
    requires AreDigits(bytes, 256)
    ensures hex == Spell(Nibbles(bytes))
  {
    hex := "";
    for i := 0 to |bytes|
      invariant hex == Spell(Nibbles(bytes[..i]))
    {
      NextByte(bytes, i);
      hex := hex + [Digit(bytes[i] / 16)] + [Digit(bytes[i] % 16)];
    }
    assert bytes[..|bytes|] == bytes;
  }

  lemma NextByte(word: seq<nat>, i: nat)
    requires AreDigits(word, 256) && i < |word|
    ensures Spell(Nibbles(word[..i + 1])) == Spell(Nibbles(word[..i])) + [Digit(word[i] / 16)] + [Digit(word[i] % 16)]
  {
    assert word[..i + 1][..i] == word[..i];
    SpellTwo(Nibbles(word[..i]), word[i] / 16, word[i] % 16);
  }

  lemma SpellTwo(ds: seq<nat>, a: nat, b: nat)
    requires AreDigits(ds, 16) && a < 16 && b < 16
    ensures Spell(ds + [a, b]) == Spell(ds) + [Digit(a)] + [Digit(b)]
  {
    assert (ds + [a, b])[..|ds| + 1] == ds + [a];
    assert (ds + [a])[..|ds|] == ds;
  }

  /** The encoding of a value as a field element: reduced modulo the field, then written as a word. */
  method FieldToBytes32(value: string) returns (result: Result<string, string>)
    ensures result.Ok? <==> FieldElement(value).Some?
    ensures result.Ok? ==> result.value == Bytes32Of(FieldElement(value).value % FIELD_MODULUS)
  {
    var number := FieldElement(value);
    if number.None? {
      return Err("field value is invalid");
    }
    var reduced := number.value % FIELD_MODULUS;
    var text := BigIntToBytes32(reduced);
    return Ok(text);
  }

  // ----- Round trips -----

  /** A word holds its number modulo 256 to the power of 32. */
  lemma WordMeans(bytes: seq<nat>)
    requires AreDigits(bytes, 256)
    ensures Value(Word(bytes), 256) == Value(bytes, 256) % WORD_LIMIT
  {
    var word := Word(bytes);
    WordLimit();
    ValueBound(word, 256);
    if |bytes| > WORD {
      var front := bytes[..|bytes| - WORD];
      assert bytes == front + word;
      ValueConcat(front, word, 256);
      ShiftIsProduct(Value(front, 256), 256, WORD);
      ResidueIsUnique(Value(bytes, 256), WORD_LIMIT, Value(front, 256), Value(word, 256));
    } else {
      LeadingZeros(ZeroBytes(WORD - |bytes|), bytes, 256);
      ResidueIsUnique(Value(bytes, 256), WORD_LIMIT, 0, Value(word, 256));
    }
  }

  /** Two hexadecimal digits to a byte keep the value. */
  lemma {:induction false} NibblesMean(bytes: seq<nat>)
    requires AreDigits(bytes, 256)
    ensures Value(Nibbles(bytes), 16) == Value(bytes, 256)
  {
    if bytes != [] {
      var front, last := bytes[..|bytes| - 1], bytes[|bytes| - 1];
      NibblesMean(front);
      ValueOfTwo(Nibbles(front), last / 16, last % 16);
    }
  }

  lemma ValueOfTwo(ds: seq<nat>, a: nat, b: nat)
    ensures Value(ds + [a, b], 16) == Value(ds, 16) * 256 + a * 16 + b
  {
    assert (ds + [a, b])[..|ds| + 1] == ds + [a];
    assert (ds + [a])[..|ds|] == ds;
  }

  lemma HexIsTrimmed(text: string, hex: string)
    requires (text == "0x" + hex || text == "0X" + hex) && hex != "" && AreDigits(Read(hex), 16)
    ensures TrimSpace(text) == text && Trim(text, Quotes) == text
  {
    ReadAt(hex);
    HexDigit(hex[|hex| - 1]);
    assert text[0] == '0' && text[|text| - 1] == hex[|hex| - 1];
    TrimIsStable(text, Spaces);
    TrimIsStable(text, Quotes);
  }

  lemma ParseHex(hex: string)
    requires hex != "" && AreDigits(Read(hex), 16)
    ensures ParseInt(hex, 16) == Some(Value(Read(hex), 16))
  {
    assert Unsigned(hex) == hex && hex[0] != '-' by {
      ReadAt(hex);
      HexDigit(hex[0]);
    }
  }

  /** Hexadecimal text behind 0x, in either case, is read as its digits. */
  lemma HexIsRead(text: string, hex: string)
    requires (text == "0x" + hex || text == "0X" + hex) && hex != "" && AreDigits(Read(hex), 16)
    ensures FieldElement(text) == Some(Value(Read(hex), 16))
  {
    HexIsTrimmed(text, hex);
    ParseHex(hex);
    assert text[2..] == hex;
  }

  lemma HexDigit(c: char)
    requires DigitValue(c) < 16
    ensures '0' <= c <= '9' || 'a' <= c <= 'f' || 'A' <= c <= 'F'
  {
  }

  /** A number written as a word is read back modulo 256 to the power of 32. */
  lemma WordIsReadBack(number: nat)
    ensures IsBytes32Hex(Bytes32Of(number))
    ensures FieldElement(Bytes32Of(number)) == Some(number % WORD_LIMIT)
  {
    var bytes := BytesOf(number);
    var nibbles := Nibbles(Word(bytes));
    ReadSpelled(nibbles);
    HexIsRead(Bytes32Of(number), Spell(nibbles));
    HexIsTrimmed(Bytes32Of(number), Spell(nibbles));
    assert Bytes32Of(number)[2..] == Spell(nibbles);
    NibblesMean(Word(bytes));
    WordMeans(bytes);
  }

  /** Encoding then decoding a field element, given as text in any accepted form, reduces it modulo the field. */
  lemma EncodedIsReduced(value: string)
    requires FieldElement(value).Some?
    ensures var reduced := FieldElement(value).value % FIELD_MODULUS;
      IsBytes32Hex(Bytes32Of(reduced)) && FieldElement(Bytes32Of(reduced)) == Some(reduced)
  {
    var reduced := FieldElement(value).value % FIELD_MODULUS;
    WordIsReadBack(reduced);
    ResidueIsUnique(reduced, WORD_LIMIT, 0, reduced);
  }

  /** Two values have one encoding exactly when they are the same modulo the field. */
  lemma EncodingSeparates(v: string, w: string)
    requires FieldElement(v).Some? && FieldElement(w).Some?
    ensures Bytes32Of(FieldElement(v).value % FIELD_MODULUS) == Bytes32Of(FieldElement(w).value % FIELD_MODULUS)
      <==> FieldElement(v).value % FIELD_MODULUS == FieldElement(w).value % FIELD_MODULUS
  {
    EncodedIsReduced(v);
    EncodedIsReduced(w);
  }

  /** A value compares equal to its own encoding exactly when it was a field element already. */
  lemma OnlyReducedValuesEqualTheirEncoding(value: string)
    requires FieldElement(value).Some?
    ensures SameFieldElement(value, Bytes32Of(FieldElement(value).value % FIELD_MODULUS))
      <==> 0 <= FieldElement(value).value < FIELD_MODULUS
  {
    var n := FieldElement(value).value;
    EncodedIsReduced(value);
    if 0 <= n < FIELD_MODULUS {
      ResidueIsUnique(n, FIELD_MODULUS, 0, n);
    }
  }

  lemma LowerDigit(c: char)
    requires DigitValue(c) < 16
    ensures Digit(DigitValue(c)) == Lower(c)
  {
  }

  lemma SpellReadHex(hex: string)
    requires AreDigits(Read(hex), 16)
    ensures Spell(Read(hex)) == ToLower(hex)
  {
    SpellAt(Read(hex));
    ReadAt(hex);
    ToLowerAt(hex);
    forall i | 0 <= i < |hex| ensures Spell(Read(hex))[i] == ToLower(hex)[i] {
      LowerDigit(hex[i]);
    }
  }

  lemma HexLimit()
    ensures Pow(16, 64) == WORD_LIMIT
  {
    assert Pow(16, 1) == 16 * Pow(16, 0) == 16;
    PowSum(16, 1, 1);
    assert Pow(16, 2) == 256;
    PowSum(16, 2, 2);
    assert Pow(16, 4) == 65536;
    PowSum(16, 4, 4);
    assert Pow(16, 8) == 4294967296;
    PowSum(16, 8, 8);
    assert Pow(16, 16) == 18446744073709551616;
    PowSum(16, 16, 16);
    assert Pow(16, 32) == 340282366920938463463374607431768211456;
    PowSum(16, 32, 32);
  }

  /** The digits of a word are determined by its number. */
  lemma WordHasTheseDigits(digits: seq<nat>)
    requires AreDigits(digits, 16) && |digits| == 64
    ensures Value(digits, 16) < WORD_LIMIT
    ensures Nibbles(Word(BytesOf(Value(digits, 16)))) == digits
  {
    var n := Value(digits, 16);
    var bytes := BytesOf(n);
    HexLimit();
    ValueBound(digits, 16);
    WordMeans(bytes);
    ResidueIsUnique(n, WORD_LIMIT, 0, n);
    NibblesMean(Word(bytes));
    SameLengthSameValue(Nibbles(Word(bytes)), digits, 16);
  }

  /** Every text accepted as 32 bytes of hexadecimal is read, and written again as the same text in lower case. */
  lemma AcceptedIsRewritten(value: string)
    requires IsBytes32Hex(value)
    ensures FieldElement(value).Some? && 0 <= FieldElement(value).value < WORD_LIMIT
    ensures Bytes32Of(FieldElement(value).value) == "0x" + ToLower(TrimSpace(value)[2..])
  {
    var text := TrimSpace(value);
    var hex := text[2..];
    assert text == "0x" + hex;
    HexIsTrimmed(text, hex);
    HexIsRead(text, hex);
    assert FieldElement(value) == FieldElement(text);
    WordHasTheseDigits(Read(hex));
    SpellReadHex(hex);
  }

  /** The decimal form of a value, in which it enters the proof's public signals, is the same field element. */
  lemma DecimalFormIsSame(value: string)
    requires FieldElement(value).Some?
    ensures SameFieldElement(Bytes32ToFieldString(value), value)
  {
    PrintedIsRead(FieldElement(value).value);
  }

  lemma QuotedEnds(opening: string, text: string, closing: string, quoted: string)
    requires quoted == opening + text + closing && text != ""
    requires !IsSpace(text[0]) && !IsSpace(text[|text| - 1])
    requires forall c :: c in opening || c in closing ==> c == '"'
    ensures !IsSpace(quoted[0]) && !IsSpace(quoted[|quoted| - 1])
  {
    if opening != "" {
      assert opening[0] in opening && quoted[0] == opening[0];
    } else {
      assert quoted[0] == text[0];
    }
    if closing != "" {
      assert closing[|closing| - 1] in closing && quoted[|quoted| - 1] == closing[|closing| - 1];
    } else {
      assert quoted[|quoted| - 1] == text[|text| - 1];
    }
  }

  lemma TrimsToItself(text: string)
    requires text != "" && text[0] != '"' && text[|text| - 1] != '"'
    requires !IsSpace(text[0]) && !IsSpace(text[|text| - 1])
    ensures Trim(TrimSpace(text), Quotes) == text
  {
    TrimIsStable(text, Spaces);
    TrimIsStable(text, Quotes);
  }

  /** Quotes around a value, and spaces around those, are ignored. */
  lemma SpacesAndQuotesAreIgnored(before: string, opening: string, text: string, closing: string, after: string,
                                  quoted: string)
    requires text != "" && text[0] != '"' && text[|text| - 1] != '"'
    requires !IsSpace(text[0]) && !IsSpace(text[|text| - 1])
    requires forall c :: c in before || c in after ==> IsSpace(c)
    requires forall c :: c in opening || c in closing ==> c == '"'
    requires quoted == opening + text + closing
    ensures FieldElement(before + quoted + after) == FieldElement(text)
  {
    QuotedEnds(opening, text, closing, quoted);
    TrimFindsTheText(before, quoted, after, Spaces);
    TrimFindsTheText(opening, text, closing, Quotes);
    TrimsToItself(text);
  }

  lemma PrintedIsRead(n: int)
    ensures FieldElement(PrintInt(n)) == Some(n)
  {
    PrintedIsTrimmed(n);
    ParsePrinted(n);
  }

  lemma PrintedIsTrimmed(n: int)
    ensures TrimSpace(PrintInt(n)) == PrintInt(n) && Trim(PrintInt(n), Quotes) == PrintInt(n)
    ensures PrintInt(n)[0] != '<' && !("0x" <= PrintInt(n)) && !("0X" <= PrintInt(n))
  {
    SignedIsTrimmed(PrintInt(n), if n < 0 then "-" else "", PrintNat(if n < 0 then 0 - n else n));
  }

  lemma SignedIsTrimmed(text: string, sign: string, digits: string)
    requires digits != "" && IsDecimal(digits) && text == sign + digits && (sign == "" || sign == "-")
    ensures TrimSpace(text) == text && Trim(text, Quotes) == text
    ensures text[0] != '<' && !("0x" <= text) && !("0X" <= text)
  {
    SignedEnds(text, sign, digits);
    TrimIsStable(text, Spaces);
    TrimIsStable(text, Quotes);
    SignedIsNotHex(text, sign, digits);
  }

  lemma SignedEnds(text: string, sign: string, digits: string)
    requires digits != "" && IsDecimal(digits) && text == sign + digits && (sign == "" || sign == "-")
    ensures text != "" && (text[0] == '-' || '0' <= text[0] <= '9') && '0' <= text[|text| - 1] <= '9'
  {
    assert text[|text| - 1] == digits[|digits| - 1];
    assert text[0] == if sign == "" then digits[0] else '-';
  }

  lemma SignedIsNotHex(text: string, sign: string, digits: string)
    requires digits != "" && IsDecimal(digits) && text == sign + digits && (sign == "" || sign == "-")
    ensures !("0x" <= text) && !("0X" <= text)
  {
    if sign == "" {
      assert text == digits;
      assert |text| > 1 ==> '0' <= text[1] <= '9';
    } else {
      assert text[0] == '-';
    }
  }
}
