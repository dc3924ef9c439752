/** `strtoul` of section 7.22.1.4 of ISO C11 for a 64-bit `unsigned long` and the C locale.  A C string is
    modelled by its characters up to the terminating NUL. */
module CNumbers {
  const ULONG_MAX: nat := 0xFFFF_FFFF_FFFF_FFFF

  /** `endPtr` is the text from the end pointer on. */
  datatype Parsed = Parsed(value: nat, endPtr: string, erange: bool)

  predicate IsSpace(c: char) {
    c in " \t\n\r" || c == 11 as char || c == 12 as char
  }

  /** The value of a digit or letter, 36 for any other character. */
  function Digit(c: char): nat {
    if '0' <= c <= '9' then c as int - '0' as int
    else if 'a' <= c <= 'z' then c as int - 'a' as int + 10
    else if 'A' <= c <= 'Z' then c as int - 'A' as int + 10
    else 36
  }

  function SkipSpaces(s: string): string {
    if s != "" && IsSpace(s[0]) then SkipSpaces(s[1..]) else s
  }

  predicate HasSign(s: string) {
    s != "" && (s[0] == '+' || s[0] == '-')
  }

  function SkipSign(s: string): string {
    if HasSign(s) then s[1..] else s
  }

  /** The number of leading digits of `s` in the given base. */
  function DigitCount(s: string, base: nat): (count: nat)
    ensures count <= |s|
  {
    if s != "" && Digit(s[0]) < base then 1 + DigitCount(s[1..], base) else 0
  }

  function Value(digits: string, base: nat): nat {
    if digits == "" then 0
    else Value(digits[..|digits| - 1], base) * base + Digit(digits[|digits| - 1])
  }

  function Pow(base: nat, k: nat): nat {
    if k == 0 then 1 else base * Pow(base, k - 1)
  }

  /** The digits from i on, each with the weight of its position. */
  function Weighted(digits: string, base: nat, i: nat): nat
    requires i <= |digits|
    decreases |digits| - i
  {
    if i == |digits| then 0
    else Digit(digits[i]) * Pow(base, |digits| - 1 - i) + Weighted(digits, base, i + 1)
  }

  lemma Distribute(a: nat, b: nat, c: nat, d: nat)
    ensures (a * b + c) * d == a * (b * d) + c * d
  {
    assert (a * b) * d == a * (b * d);
  }

  lemma {:induction false} ValueSplits(digits: string, base: nat, i: nat)
    requires i <= |digits|
    ensures Value(digits, base) == Value(digits[..i], base) * Pow(base, |digits| - i) + Weighted(digits, base, i)
    decreases |digits| - i
  {
    if i == |digits| {
      assert digits[..i] == digits;
    } else {
      ValueSplits(digits, base, i + 1);
      assert digits[..i + 1][..i] == digits[..i];
      var front, d, weight := Value(digits[..i], base), Digit(digits[i]), Pow(base, |digits| - 1 - i);
      assert Value(digits[..i + 1], base) == front * base + d;
      assert Pow(base, |digits| - i) == base * weight;
      hide Value, Pow, Digit;
      Distribute(front, base, d, weight);
    }
  }

  /** The first digit weighs most: the value is the sum of the digits times the powers of the base. */
  lemma ValueIsPositional(digits: string, base: nat)
    ensures Value(digits, base) == Weighted(digits, base, 0)
  {
    ValueSplits(digits, base, 0);
    assert digits[..0] == "";
  }

  /** Which characters are digits, and what they stand for. */
  lemma DigitsAre(c: char, d: nat)
    requires d < 16
    ensures Digit("0123456789abcdef"[d]) == d && Digit("0123456789ABCDEF"[d]) == d
    ensures Digit(c) < 10 ==> c in "0123456789"
    ensures Digit(c) < 16 ==> c in "0123456789abcdefABCDEF"
  {
    var lower, upper := "0123456789abcdef", "0123456789ABCDEF";
    if d < 10 {
      assert lower[d] == upper[d] == '0' + d as char;
    } else {
      assert lower[d] == 'a' + (d - 10) as char && upper[d] == 'A' + (d - 10) as char;
    }
    var n := Digit(c);
    if n < 10 {
      assert c == lower[n];
      assert c == "0123456789"[n];
    } else if n < 16 {
      assert c == "0123456789abcdefABCDEF"[n] || c == "0123456789abcdefABCDEF"[n + 6];
    }
  }

  /** `0x` or `0X` is a prefix of a base 16 number only when a digit follows. */
  predicate HasHexPrefix(s: string) {
    |s| >= 3 && s[0] == '0' && (s[1] == 'x' || s[1] == 'X') && Digit(s[2]) < 16
  }

  function SkipPrefix(s: string, base: nat): string {
    if base == 16 && HasHexPrefix(s) then s[2..] else s
  }

  function Strtoul(s: string, base: nat): Parsed {
    var signed := SkipSpaces(s);
    var digits := SkipPrefix(SkipSign(signed), base);
    var count := DigitCount(digits, base);
    if count == 0 then Parsed(0, s, false)
    else
      var v := Value(digits[..count], base);
      var endPtr := digits[count..];
      if v > ULONG_MAX then Parsed(ULONG_MAX, endPtr, true)
      else if HasSign(signed) && signed[0] == '-' then Parsed((ULONG_MAX + 1 - v) % (ULONG_MAX + 1), endPtr, false)
      else Parsed(v, endPtr, false)
  }

  // ---------- spelling numbers ----------

  predicate IsNumeral(s: string, base: nat) {
    s != "" && forall i :: 0 <= i < |s| ==> Digit(s[i]) < base
  }

  function DigitChar(d: nat, upper: bool): (c: char)
    requires d < 36
    ensures Digit(c) == d
  {
    if d < 10 then (d + '0' as int) as char
    else if upper then (d - 10 + 'A' as int) as char
    else (d - 10 + 'a' as int) as char
  }

  lemma DivMod(n: nat, base: nat)
    requires base == 10 || base == 16
    ensures n / base * base + n % base == n && n % base < base && (n >= base ==> n / base < n)
  {
  }

  /** The usual spelling of a number, without leading zeros. */
  function Spell(n: nat, base: nat, upper: bool): (s: string)
    requires base == 10 || base == 16
    ensures IsNumeral(s, base) && Value(s, base) == n && (n > 0 ==> Digit(s[0]) > 0)
    decreases n
  {
    if n < base then
      var s := [DigitChar(n, upper)];
      assert Value(s[..0], base) == 0;
      s
    else
      DivMod(n, base);
      var front := Spell(n / base, base, upper);
      var s := front + [DigitChar(n % base, upper)];
      assert s[..|s| - 1] == front;
      s
  }

  lemma {:induction false} NumeralIsAllDigits(s: string, base: nat)
    requires forall i :: 0 <= i < |s| ==> Digit(s[i]) < base
    ensures DigitCount(s, base) == |s|
  {
    if s != "" {
      NumeralIsAllDigits(s[1..], base);
    }
  }

  lemma {:induction false} FullCountIsNumeral(s: string, base: nat)
    ensures IsNumeral(s, base) <==> 0 < DigitCount(s, base) == |s|
  {
    if s != "" {
      FullCountIsNumeral(s[1..], base);
      assert s == [s[0]] + s[1..];
    }
  }

  /** The negation of an `unsigned long`. */
  function Negated(n: nat): nat
    requires n <= ULONG_MAX
  {
    (ULONG_MAX + 1 - n) % (ULONG_MAX + 1)
  }

  // ---------- what strtoul makes of a whole text ----------

  predicate IsBlank(s: string) {
    forall i :: 0 <= i < |s| ==> s[i] in " \t\n\r\U{0B}\U{0C}"
  }

  predicate IsPrefix(prefix: string, base: nat) {
    prefix == "" || (base == 16 && (prefix == "0x" || prefix == "0X"))
  }

  predicate IsSign(sign: string) {
    sign == "" || sign == "+" || sign == "-"
  }

  /** The result for a numeral of value v that is read to its end. */
  function Whole(sign: string, v: nat): Parsed {
    if v > ULONG_MAX then Parsed(ULONG_MAX, "", true)
    else Parsed(if sign == "-" then Negated(v) else v, "", false)
  }

  lemma {:induction false} SkipBlanks(blanks: string, s: string)
    requires IsBlank(blanks) && s != "" && s[0] !in " \t\n\r\U{0B}\U{0C}"
    ensures SkipSpaces(blanks + s) == s
  {
    if blanks == "" {
      assert blanks + s == s;
    } else {
      assert (blanks + s)[1..] == blanks[1..] + s;
      SkipBlanks(blanks[1..], s);
    }
  }

  lemma SkipPrefixOnly(prefix: string, digits: string, base: nat)
    requires (base == 10 || base == 16) && IsPrefix(prefix, base) && IsNumeral(digits, base)
    ensures SkipPrefix(prefix + digits, base) == digits
  {
    if prefix == "" {
      assert prefix + digits == digits;
    } else {
      assert (prefix + digits)[2] == digits[0] && (prefix + digits)[2..] == digits;
    }
  }

  lemma SkipSignOnly(sign: string, body: string)
    requires IsSign(sign) && body != "" && body[0] != '+' && body[0] != '-'
    ensures SkipSign(sign + body) == body
    ensures HasSign(sign + body) && (sign + body)[0] == '-' <==> sign == "-"
  {
    if sign == "" {
      assert sign + body == body;
    } else {
      assert (sign + body)[0] == sign[0] && (sign + body)[1..] == body;
    }
  }

  lemma ReadParts(s: string, signed: string, digits: string, base: nat)
    requires SkipSpaces(s) == signed && SkipPrefix(SkipSign(signed), base) == digits && IsNumeral(digits, base)
    ensures Strtoul(s, base) == Whole(if HasSign(signed) && signed[0] == '-' then "-" else "", Value(digits, base))
  {
    FullCountIsNumeral(digits, base);
    hide Value, DigitCount, SkipSpaces, IsNumeral, SkipPrefix, SkipSign, HasSign;
    assert digits[..|digits|] == digits && digits[|digits|..] == "";
  }

  /** Blanks, an optional sign, an optional prefix in base 16, and a numeral: the whole text is read. */
  lemma ReadWhole(blanks: string, sign: string, prefix: string, digits: string, base: nat)
    requires base == 10 || base == 16
    requires IsBlank(blanks) && IsSign(sign) && IsPrefix(prefix, base) && IsNumeral(digits, base)
    ensures Strtoul(blanks + (sign + (prefix + digits)), base) == Whole(sign, Value(digits, base))
  {
    var body := prefix + digits;
    assert body[0] == '0' || body[0] == digits[0];
    var signed := sign + body;
    SkipSignOnly(sign, body);
    SkipBlanks(blanks, signed);
    SkipPrefixOnly(prefix, digits, base);
    hide Value, SkipSpaces, IsNumeral, SkipPrefix, IsPrefix, IsBlank, SkipSign, HasSign;
    ReadParts(blanks + signed, signed, digits, base);
  }

  /** The parts of a text that strtoul reads to its end. */
  ghost predicate IsRead(text: string, blanks: string, sign: string, prefix: string, digits: string, base: nat) {
    text == blanks + (sign + (prefix + digits))
    && IsBlank(blanks) && IsSign(sign) && IsPrefix(prefix, base) && IsNumeral(digits, base)
  }

  lemma {:induction false} SplitBlanks(s: string) returns (blanks: string)
    ensures IsBlank(blanks) && s == blanks + SkipSpaces(s)
  {
    if s != "" && IsSpace(s[0]) {
      var rest := SplitBlanks(s[1..]);
      blanks := [s[0]] + rest;
      assert s == [s[0]] + s[1..];
    } else {
      blanks := "";
      assert s == blanks + s;
    }
  }

  lemma SplitSign(signed: string) returns (sign: string)
    ensures IsSign(sign) && signed == sign + SkipSign(signed)
  {
    sign := if HasSign(signed) then signed[..1] else "";
  }

  lemma SplitPrefix(body: string, base: nat) returns (prefix: string)
    ensures IsPrefix(prefix, base) && body == prefix + SkipPrefix(body, base)
  {
    prefix := if base == 16 && HasHexPrefix(body) then body[..2] else "";
  }

  lemma EndMeansNumeral(text: string, base: nat)
    requires text != "" && Strtoul(text, base).endPtr == ""
    ensures IsNumeral(SkipPrefix(SkipSign(SkipSpaces(text)), base), base)
  {
    FullCountIsNumeral(SkipPrefix(SkipSign(SkipSpaces(text)), base), base);
    hide Value, DigitCount, SkipSpaces, SkipSign, SkipPrefix, IsNumeral;
  }

  /** No other text is read to its end. */
  lemma OnlyNumeralsAreRead(text: string, base: nat)
      returns (blanks: string, sign: string, prefix: string, digits: string)
    requires text != "" && Strtoul(text, base).endPtr == ""
    ensures IsRead(text, blanks, sign, prefix, digits, base)
  {
    blanks := SplitBlanks(text);
    var signed := SkipSpaces(text);
    var body := SkipSign(signed);
    digits := SkipPrefix(body, base);
    sign := SplitSign(signed);
    prefix := SplitPrefix(body, base);
    EndMeansNumeral(text, base);
    hide Strtoul, SkipSpaces, IsNumeral, SkipSign, SkipPrefix, IsBlank, IsSign, IsPrefix;
    assert text == blanks + (sign + (prefix + digits));
  }

  lemma ReadDecimal(digits: string)
    requires IsNumeral(digits, 10) && Value(digits, 10) <= ULONG_MAX
    ensures Strtoul(digits, 10) == Parsed(Value(digits, 10), "", false)
  {
    ReadWhole("", "", "", digits, 10);
    assert "" + ("" + ("" + digits)) == digits;
  }

  lemma ReadHex(digits: string, s: string)
    requires IsNumeral(digits, 16) && Value(digits, 16) <= ULONG_MAX
    requires s == "0x" + digits || s == "0X" + digits
    ensures Strtoul(s, 16) == Parsed(Value(digits, 16), "", false)
  {
    ReadWhole("", "", s[..2], digits, 16);
    assert "" + ("" + (s[..2] + digits)) == s;
  }

  /** A text that starts with a minus sign is read to its end exactly when a numeral follows; the value is then
      negated, unless it is out of range. */
  lemma ReadNegative(s: string, base: nat)
    requires s != "" && s[0] == '-'
    ensures var digits := SkipPrefix(s[1..], base);
            if !IsNumeral(digits, base) then Strtoul(s, base).endPtr != ""
            else if Value(digits, base) > ULONG_MAX then Strtoul(s, base) == Parsed(ULONG_MAX, "", true)
            else Strtoul(s, base) == Parsed(Negated(Value(digits, base)), "", false)
  {
    var digits := SkipPrefix(s[1..], base);
    assert SkipSpaces(s) == s && SkipSign(s) == s[1..];
    FullCountIsNumeral(digits, base);
    hide Value, DigitCount, SkipSpaces, IsNumeral, SkipPrefix;
    assert digits[..|digits|] == digits && digits[|digits|..] == "";
  }
}
