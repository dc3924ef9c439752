/** The unsigned integer getters of src/ut_kvp.c, on the text of the field. */
module IntegerFields {
  import opened CNumbers
  import Includes

  predicate ContainsHexMark(text: string) {
    Includes.Contains(text, "0x")
  }

  /** The checks after the conversion: any failure gives 0. */
  function Checked(text: string, parsed: Parsed, maxRange: nat): nat {
    if parsed.endPtr == text then 0
    else if parsed.endPtr != "" then 0
    else if parsed.erange || parsed.value > maxRange then 0
    else parsed.value
  }

  /** `getUIntField`: base 16 when "0x" occurs anywhere in the text. */
  function GetUInt(text: string, maxRange: nat): nat {
    Checked(text, Strtoul(text, if ContainsHexMark(text) then 16 else 10), maxRange)
  }

  function GetUInt8(text: string): nat {
    GetUInt(text, 0xFF) % 0x100
  }

  function GetUInt16(text: string): nat {
    GetUInt(text, 0xFFFF) % 0x1_0000
  }

  function GetUInt32(text: string): nat {
    GetUInt(text, 0xFFFF_FFFF) % 0x1_0000_0000
  }

  /** `ut_kvp_getUInt64Field`: `strtoull` agrees with `strtoul` at this width, and the range test never fails. */
  function GetUInt64(text: string): nat {
    GetUInt(text, ULONG_MAX)
  }

  lemma HexMarkAt(text: string, i: nat)
    requires i + 2 <= |text| && text[i] == '0' && text[i + 1] == 'x'
    ensures ContainsHexMark(text)
  {
    assert text[i..][..2] == "0x";
  }

  lemma NumeralHasNoMark(digits: string)
    requires IsNumeral(digits, 10)
    ensures !ContainsHexMark(digits)
  {
    forall i | 0 <= i <= |digits| - 2 ensures digits[i..][..2] != "0x" {
      assert digits[i..][..2][1] == digits[i + 1] && Digit(digits[i + 1]) < 10;
    }
  }

  /** Every number in range is read back from its decimal and from its 0x spelling, with any case of the hex
      digits and any number of leading zeros allowed by `digits`. */
  lemma DecodesBothSpellings(digits: string, hex: string, n: nat, maxRange: nat)
    requires n <= maxRange <= ULONG_MAX
    requires IsNumeral(digits, 10) && Value(digits, 10) == n
    requires IsNumeral(hex, 16) && Value(hex, 16) == n
    ensures GetUInt(digits, maxRange) == n
    ensures GetUInt("0x" + hex, maxRange) == n
  {
    NumeralHasNoMark(digits);
    ReadDecimal(digits);
    HexMarkAt("0x" + hex, 0);
    ReadHex(hex, "0x" + hex);
  }

  /** Each getter returns exactly the number spelled, when it fits the type; the narrowing casts lose nothing. */
  lemma GettersRoundTrip(n: nat, upper: bool)
    requires n <= ULONG_MAX
    ensures GetUInt64(Spell(n, 10, upper)) == n && GetUInt64("0x" + Spell(n, 16, upper)) == n
    ensures n <= 0xFFFF_FFFF ==> GetUInt32(Spell(n, 10, upper)) == n && GetUInt32("0x" + Spell(n, 16, upper)) == n
    ensures n <= 0xFFFF ==> GetUInt16(Spell(n, 10, upper)) == n && GetUInt16("0x" + Spell(n, 16, upper)) == n
    ensures n <= 0xFF ==> GetUInt8(Spell(n, 10, upper)) == n && GetUInt8("0x" + Spell(n, 16, upper)) == n
  {
    var digits, hex := Spell(n, 10, upper), Spell(n, 16, upper);
    DecodesBothSpellings(digits, hex, n, ULONG_MAX);
    CastsLoseNothing(digits);
    CastsLoseNothing("0x" + hex);
    if n <= 0xFFFF_FFFF { DecodesBothSpellings(digits, hex, n, 0xFFFF_FFFF); }
    if n <= 0xFFFF { DecodesBothSpellings(digits, hex, n, 0xFFFF); }
    if n <= 0xFF { DecodesBothSpellings(digits, hex, n, 0xFF); }
  }

  /** The narrowing cast of a getter never changes the value that `getUIntField` returned, for any text. */
  lemma CastsLoseNothing(text: string)
    ensures GetUInt8(text) == GetUInt(text, 0xFF)
    ensures GetUInt16(text) == GetUInt(text, 0xFFFF)
    ensures GetUInt32(text) == GetUInt(text, 0xFFFF_FFFF)
  {
  }

  // ---------- the choice of the base ----------

  /** "0x" right after optional blanks and an optional sign. */
  predicate StartsWithHexMark(text: string) {
    var s := SkipSign(SkipSpaces(text));
    |s| >= 2 && s[0] == '0' && s[1] == 'x'
  }

  lemma {:induction false} SkipSpacesIsSuffix(s: string)
    ensures exists k :: 0 <= k <= |s| && SkipSpaces(s) == s[k..] && forall i :: 0 <= i < k ==> IsSpace(s[i])
  {
    if s != "" && IsSpace(s[0]) {
      SkipSpacesIsSuffix(s[1..]);
      var k :| 0 <= k <= |s[1..]| && SkipSpaces(s[1..]) == s[1..][k..] && forall i :: 0 <= i < k ==> IsSpace(s[1..][i]);
      forall i | 0 <= i < k + 1 ensures IsSpace(s[i]) {
        if i > 0 {
          assert s[1..][i - 1] == s[i];
        }
      }
      assert SkipSpaces(s) == s[k + 1..];
    } else {
      assert s[0..] == s;
    }
  }

  lemma {:induction false} DigitsBeforeEnd(s: string, base: nat)
    ensures forall i :: 0 <= i < DigitCount(s, base) ==> Digit(s[i]) < base
  {
    if s != "" && Digit(s[0]) < base {
      DigitsBeforeEnd(s[1..], base);
      forall i | 0 <= i < DigitCount(s, base) ensures Digit(s[i]) < base {
        if i > 0 {
          assert s[1..][i - 1] == s[i];
        }
      }
    }
  }

  /** Blanks and a sign hold no part of the mark. */
  lemma MarkIsInBody(text: string, m: nat)
    requires m + 2 <= |text| && text[m] == '0' && text[m + 1] == 'x'
    ensures var body := SkipSign(SkipSpaces(text));
            var start := |text| - |body|;
            0 <= start <= m && body == text[start..]
  {
    var blanks := SplitBlanks(text);
    var sign := SplitSign(SkipSpaces(text));
    var front, body := blanks + sign, SkipSign(SkipSpaces(text));
    hide SkipSpaces, SkipSign;
    assert text == front + body;
    assert forall i :: 0 <= i < |front| ==> front[i] != '0' && text[i] == front[i];
  }

  /** Digits, after the prefix if there is one, never run over a mark that is not at the start. */
  lemma MarkStopsDigits(body: string, m: nat, base: nat)
    requires base == 10 || base == 16
    requires 0 < m && m + 2 <= |body| && body[m + 1] == 'x'
    ensures var digits := SkipPrefix(body, base);
            digits[DigitCount(digits, base)..] != ""
  {
    var digits := SkipPrefix(body, base);
    var offset := |body| - |digits|;
    assert digits[m + 1 - offset] == body[m + 1] == 'x';
    DigitsBeforeEnd(digits, base);
    assert DigitCount(digits, base) <= m + 1 - offset;
  }

  lemma LateMarkIsRejected(text: string, base: nat, maxRange: nat)
    requires base == 10 || base == 16
    requires ContainsHexMark(text) && !StartsWithHexMark(text)
    ensures Checked(text, Strtoul(text, base), maxRange) == 0
  {
    var m :| 0 <= m <= |text| - 2 && text[m..][..2] == "0x";
    assert text[m..][..2][0] == '0' && text[m..][..2][1] == 'x';
    MarkIsInBody(text, m);
    var body := SkipSign(SkipSpaces(text));
    var start := |text| - |body|;
    assert body[m - start] == '0' && body[m - start + 1] == 'x';
    MarkStopsDigits(body, m - start, base);
  }

  /** Looking for "0x" anywhere in the text gives, for every text and range, the result of looking for it only
      where a hexadecimal number may start. */
  lemma BaseChoiceIsHarmless(text: string, maxRange: nat)
    ensures GetUInt(text, maxRange)
         == Checked(text, Strtoul(text, if StartsWithHexMark(text) then 16 else 10), maxRange)
  {
    if StartsWithHexMark(text) {
      SkipSpacesIsSuffix(text);
      var s := SkipSign(SkipSpaces(text));
      var start := |text| - |s|;
      assert s == text[start..];
      HexMarkAt(text, start);
    } else if ContainsHexMark(text) {
      LateMarkIsRejected(text, 10, maxRange);
      LateMarkIsRejected(text, 16, maxRange);
    }
  }

  /** The mark is case sensitive: a number spelled with 0X is never read, it always gives 0. */
  lemma UpperCasePrefixGivesZero(hex: string, maxRange: nat)
    requires IsNumeral(hex, 16)
    ensures GetUInt("0X" + hex, maxRange) == 0
  {
    var text := "0X" + hex;
    forall i | 0 <= i <= |text| - 2 ensures text[i..][..2] != "0x" {
      assert text[i..][..2][1] == text[i + 1];
      if i > 0 {
        assert text[i + 1] == hex[i - 1] && Digit(hex[i - 1]) < 16;
      }
    }
    assert Digit('X') == 33;
    assert DigitCount(text, 10) <= 1 by {
      DigitsBeforeEnd(text, 10);
    }
    assert !IsSpace(text[0]) && !HasSign(text);
  }

  // ---------- all texts ----------

  /** What a getter makes of the numeral of value v behind a sign; `strtoul` negates modulo 2^64. */
  function InRange(sign: string, v: nat, maxRange: nat): nat {
    if v > 0xFFFF_FFFF_FFFF_FFFF then 0
    else
      var n := if sign == "-" && v > 0 then 0x1_0000_0000_0000_0000 - v else v;
      if n > maxRange then 0 else n
  }

  lemma WholeField(text: string, sign: string, v: nat, maxRange: nat)
    requires text != "" && (Strtoul(text, 10) == Whole(sign, v) || Strtoul(text, 16) == Whole(sign, v))
    ensures Strtoul(text, 10) == Whole(sign, v) ==>
              Checked(text, Strtoul(text, 10), maxRange) == InRange(sign, v, maxRange)
    ensures Strtoul(text, 16) == Whole(sign, v) ==>
              Checked(text, Strtoul(text, 16), maxRange) == InRange(sign, v, maxRange)
  {
    hide Strtoul;
  }

  /** A decimal field, with any blanks and any sign in front, has the value of its numeral, and 0 out of range. */
  lemma DecimalField(blanks: string, sign: string, digits: string, maxRange: nat)
    requires IsBlank(blanks) && IsSign(sign) && IsNumeral(digits, 10)
    ensures GetUInt(blanks + (sign + digits), maxRange) == InRange(sign, Value(digits, 10), maxRange)
  {
    var text := blanks + (sign + digits);
    forall i | 0 <= i < |text| ensures text[i] != 'x' {
      if i >= |blanks| + |sign| {
        assert text[i] == digits[i - |blanks| - |sign|];
      }
    }
    assert !ContainsHexMark(text) by {
      forall i | 0 <= i <= |text| - 2 ensures text[i..][..2] != "0x" {
        assert text[i..][..2][1] == text[i + 1];
      }
    }
    ReadWhole(blanks, sign, "", digits, 10);
    assert "" + digits == digits;
    hide ContainsHexMark, Strtoul, Checked, Value, IsNumeral, InRange;
    WholeField(text, sign, Value(digits, 10), maxRange);
  }

  /** Likewise a field with a 0x prefix. */
  lemma HexField(blanks: string, sign: string, hex: string, maxRange: nat)
    requires IsBlank(blanks) && IsSign(sign) && IsNumeral(hex, 16)
    ensures GetUInt(blanks + (sign + ("0x" + hex)), maxRange) == InRange(sign, Value(hex, 16), maxRange)
  {
    var text := blanks + (sign + ("0x" + hex));
    var at := |blanks| + |sign|;
    assert text[at] == '0' && text[at + 1] == 'x';
    HexMarkAt(text, at);
    ReadWhole(blanks, sign, "0x", hex, 16);
    hide ContainsHexMark, Strtoul, Checked, Value, IsNumeral, InRange;
    WholeField(text, sign, Value(hex, 16), maxRange);
  }

  /** Each getter returns what its type holds and 0 for everything else; the narrowing casts lose nothing. */
  lemma GettersAreExact(blanks: string, sign: string, digits: string, hex: string)
    requires IsBlank(blanks) && IsSign(sign) && IsNumeral(digits, 10) && IsNumeral(hex, 16)
    ensures var v, text := Value(digits, 10), blanks + (sign + digits);
            GetUInt8(text) == InRange(sign, v, 0xFF) && GetUInt16(text) == InRange(sign, v, 0xFFFF)
            && GetUInt32(text) == InRange(sign, v, 0xFFFF_FFFF)
            && GetUInt64(text) == InRange(sign, v, 0xFFFF_FFFF_FFFF_FFFF)
    ensures var v, text := Value(hex, 16), blanks + (sign + ("0x" + hex));
            GetUInt8(text) == InRange(sign, v, 0xFF) && GetUInt16(text) == InRange(sign, v, 0xFFFF)
            && GetUInt32(text) == InRange(sign, v, 0xFFFF_FFFF)
            && GetUInt64(text) == InRange(sign, v, 0xFFFF_FFFF_FFFF_FFFF)
  {
    DecimalField(blanks, sign, digits, 0xFF);
    DecimalField(blanks, sign, digits, 0xFFFF);
    DecimalField(blanks, sign, digits, 0xFFFF_FFFF);
    DecimalField(blanks, sign, digits, ULONG_MAX);
    HexField(blanks, sign, hex, 0xFF);
    HexField(blanks, sign, hex, 0xFFFF);
    HexField(blanks, sign, hex, 0xFFFF_FFFF);
    HexField(blanks, sign, hex, ULONG_MAX);
    CastsLoseNothing(blanks + (sign + digits));
    CastsLoseNothing(blanks + (sign + ("0x" + hex)));
    hide GetUInt, GetUInt8, GetUInt16, GetUInt32, IsBlank, IsSign, IsNumeral, Value, InRange;
  }

  /** The two forms of a number in a field. */
  ghost predicate IsFieldText(text: string, blanks: string, sign: string, digits: string) {
    IsBlank(blanks) && IsSign(sign)
    && ((IsNumeral(digits, 10) && text == blanks + (sign + digits))
        || (IsNumeral(digits, 16) && text == blanks + (sign + ("0x" + digits))))
  }

  /** Every other text gives 0. */
  lemma OtherFieldsGiveZero(text: string, maxRange: nat)
    requires GetUInt(text, maxRange) != 0
    ensures exists blanks, sign, digits :: IsFieldText(text, blanks, sign, digits)
  {
    var base := if ContainsHexMark(text) then 16 else 10;
    var blanks, sign, prefix, digits := OnlyNumeralsAreRead(text, base);
    assert "" + digits == digits;
    if base == 16 {
      MarkIsPrefix(text, blanks, sign, prefix, digits);
    }
    assert IsFieldText(text, blanks, sign, digits);
  }

  /** The only place for the mark in such a text is the prefix. */
  lemma MarkIsPrefix(text: string, blanks: string, sign: string, prefix: string, digits: string)
    requires ContainsHexMark(text) && IsRead(text, blanks, sign, prefix, digits, 16)
    ensures prefix == "0x"
  {
    hide Value;
    var i :| 0 <= i <= |text| - 2 && text[i..][..2] == "0x";
    assert text[i + 1] == text[i..][..2][1] == 'x';
    assert 'x' in text && 'x' !in blanks && 'x' !in sign && 'x' !in digits;
  }

  /** The getters accept a minus sign: `-1` is 2^64 - 1 for the 64-bit getter, and out of range for the others. */
  lemma NegativeFieldsWrap(digits: string, hex: string, maxRange: nat)
    requires IsNumeral(digits, 10) && IsNumeral(hex, 16)
    ensures GetUInt("-" + digits, maxRange) == InRange("-", Value(digits, 10), maxRange)
    ensures GetUInt("-0x" + hex, maxRange) == InRange("-", Value(hex, 16), maxRange)
  {
    DecimalField("", "-", digits, maxRange);
    HexField("", "-", hex, maxRange);
    assert "" + ("-" + digits) == "-" + digits && "" + ("-" + ("0x" + hex)) == "-0x" + hex;
  }
}
