/** `ut_kvp_getDataBytes`: a list of byte values in a scalar, parsed with strtok and strtoul into a buffer that
    doubles when it is full. */
module DataBytes {
  import opened Wrappers
  import opened CNumbers

  type Byte = n: nat | n < 256

  predicate IsDelimiter(c: char) {
    c == ',' || c == ' '
  }

  // ---------- tokens ----------

  /** The fields between single delimiters, empty ones included. */
  function Split(s: string): (fields: seq<string>)
    ensures fields != []
  {
    if s == "" then [""]
    else if IsDelimiter(s[0]) then [""] + Split(s[1..])
    else
      var rest := Split(s[1..]);
      [[s[0]] + rest[0]] + rest[1..]
  }

  function NonEmpty(fields: seq<string>): seq<string> {
    if fields == [] then []
    else if fields[0] == "" then NonEmpty(fields[1..])
    else [fields[0]] + NonEmpty(fields[1..])
  }

  function Tokens(s: string): seq<string> {
    NonEmpty(Split(s))
  }

  datatype Token = Token(text: string, rest: string)

  function SkipDelimiters(s: string): string {
    if s != "" && IsDelimiter(s[0]) then SkipDelimiters(s[1..]) else s
  }

  function WordLength(s: string): (n: nat)
    ensures n <= |s| && (n < |s| ==> IsDelimiter(s[n]))
    ensures forall i :: 0 <= i < n ==> !IsDelimiter(s[i])
  {
    if s == "" || IsDelimiter(s[0]) then 0 else 1 + WordLength(s[1..])
  }

  /** `strtok` (section 7.24.5.8 of ISO C11): skip delimiters, take the text up to the next one, and go on after
      the delimiter that ended it. */
  function NextToken(s: string): (next: Option<Token>)
    ensures next.Some? ==> |next.value.rest| < |s|
  {
    var from := SkipDelimiters(s);
    SkipDelimitersShrinks(s);
    if from == "" then None
    else
      var n := WordLength(from);
      Some(Token(from[..n], if n < |from| then from[n + 1..] else ""))
  }

  lemma {:induction false} SkipDelimitersShrinks(s: string)
    ensures |SkipDelimiters(s)| <= |s|
    ensures SkipDelimiters(s) != "" ==> !IsDelimiter(SkipDelimiters(s)[0])
    ensures Tokens(SkipDelimiters(s)) == Tokens(s)
  {
    if s != "" && IsDelimiter(s[0]) {
      SkipDelimitersShrinks(s[1..]);
      assert Split(s)[1..] == Split(s[1..]);
    }
  }

  lemma {:induction false} SplitWord(word: string, s: string)
    requires forall i :: 0 <= i < |word| ==> !IsDelimiter(word[i])
    ensures Split(word + s) == [word + Split(s)[0]] + Split(s)[1..]
  {
    if word == "" {
      assert word + s == s && word + Split(s)[0] == Split(s)[0];
      assert Split(s) == [Split(s)[0]] + Split(s)[1..];
    } else {
      assert (word + s)[1..] == word[1..] + s;
      SplitWord(word[1..], s);
      assert (word + s)[0] == word[0];
      assert word + Split(s)[0] == [word[0]] + (word[1..] + Split(s)[0]);
      assert Split(word + s) == [[word[0]] + Split(word[1..] + s)[0]] + Split(word[1..] + s)[1..];
    }
  }

  /** A word ends at a delimiter or at the end of the text. */
  lemma TokensWord(word: string, s: string)
    requires word != "" && forall i :: 0 <= i < |word| ==> !IsDelimiter(word[i])
    requires s != "" ==> IsDelimiter(s[0])
    ensures Tokens(word + s) == [word] + Tokens(s)
  {
    SplitWord(word, s);
    assert Split(s)[0] == "";
    assert word + "" == word;
    assert Split(word + s)[1..] == Split(s)[1..];
  }

  lemma {:induction false} TokensDelimiters(delimiters: string, s: string)
    requires forall i :: 0 <= i < |delimiters| ==> IsDelimiter(delimiters[i])
    ensures Tokens(delimiters + s) == Tokens(s)
  {
    if delimiters == "" {
      assert delimiters + s == s;
    } else {
      assert (delimiters + s)[1..] == delimiters[1..] + s;
      assert Split(delimiters + s)[1..] == Split(delimiters[1..] + s);
      TokensDelimiters(delimiters[1..], s);
    }
  }

  /** Repeated `strtok` calls deliver exactly the non-empty fields. */
  lemma NextTokenIsFirst(s: string)
    ensures match NextToken(s)
            case None => Tokens(s) == []
            case Some(token) => Tokens(s) == [token.text] + Tokens(token.rest)
  {
    var from := SkipDelimiters(s);
    SkipDelimitersShrinks(s);
    if from == "" {
      assert Split("")[1..] == [];
    } else {
      var n := WordLength(from);
      var word, after := from[..n], from[n..];
      assert from == word + after;
      TokensWord(word, after);
      if after != "" {
        assert after[1..] == from[n + 1..] && Split(after)[1..] == Split(after[1..]);
      }
    }
  }

  predicate IsWord(word: string) {
    word != "" && ',' !in word && ' ' !in word
  }

  /** The tokens are words, and leading or trailing delimiters do not matter. */
  lemma {:induction false} TokensAreWords(s: string)
    ensures forall token :: token in Tokens(s) ==> IsWord(token)
  {
    SplitIntoWords(s);
    NonEmptyMembers(Split(s));
  }

  lemma {:induction false} SplitIntoWords(s: string)
    ensures forall field :: field in Split(s) ==> ',' !in field && ' ' !in field
  {
    if s != "" {
      SplitIntoWords(s[1..]);
      var rest := Split(s[1..]);
      assert rest[0] in rest;
    }
  }

  lemma {:induction false} NonEmptyMembers(fields: seq<string>)
    ensures forall field :: field in NonEmpty(fields) <==> field in fields && field != ""
  {
    if fields != [] {
      NonEmptyMembers(fields[1..]);
      assert fields == [fields[0]] + fields[1..];
    }
  }

  /** A word is one token, and a comma or a blank separates: together with `TokensAreWords` this determines the
      tokens of every text. */
  lemma TokensSeparated(word: string, delimiter: char, s: string)
    requires IsWord(word) && (delimiter == ',' || delimiter == ' ')
    ensures Tokens(word) == [word]
    ensures Tokens(word + ([delimiter] + s)) == [word] + Tokens(s)
    ensures Tokens([delimiter] + s) == Tokens(s)
    ensures Tokens("") == []
  {
    assert Split("")[1..] == [];
    assert word + "" == word;
    assert forall i :: 0 <= i < |word| ==> word[i] in word;
    TokensWord(word, "");
    TokensWord(word, [delimiter] + s);
    TokensDelimiters([delimiter], s);
  }

  // ---------- byte values ----------

  function TrimBlanks(token: string): string {
    if token != "" && token[0] == ' ' then TrimBlanks(token[1..]) else token
  }

  /** The value of one token, or None for the error branch. */
  function ByteOf(token: string): Option<Byte> {
    var trimmed := TrimBlanks(token);
    var parsed := Strtoul(trimmed, if "0x" <= trimmed || "0X" <= trimmed then 16 else 10);
    if parsed.endPtr != "" || (parsed.value == ULONG_MAX && parsed.erange) || parsed.value > 255 then None
    else Some(parsed.value)
  }

  /** All values, or None when some token is bad. */
  function ByteValues(tokens: seq<string>): Option<seq<Byte>> {
    if tokens == [] then Some([])
    else
      match ByteOf(tokens[0])
      case None => None
      case Some(b) => After([b], ByteValues(tokens[1..]))
  }

  function After(done: seq<Byte>, rest: Option<seq<Byte>>): Option<seq<Byte>> {
    match rest
    case None => None
    case Some(values) => Some(done + values)
  }

  lemma AfterBoth(a: seq<Byte>, b: seq<Byte>, rest: Option<seq<Byte>>)
    ensures After(a, After(b, rest)) == After(a + b, rest)
  {
    if rest.Some? {
      assert a + (b + rest.value) == a + b + rest.value;
    }
  }

  lemma FirstValue(token: string, tokens: seq<string>)
    ensures ByteValues([token] + tokens)
         == if ByteOf(token).None? then None else After([ByteOf(token).value], ByteValues(tokens))
  {
  }

  lemma AfterNothing(rest: Option<seq<Byte>>)
    ensures After([], rest) == rest
  {
    if rest.Some? {
      assert [] + rest.value == rest.value;
    }
  }

  /** The bytes are the values of the tokens one by one, and there are none exactly when a token is bad. */
  lemma {:induction false} ByteValuesPointwise(tokens: seq<string>)
    ensures ByteValues(tokens).None? <==> exists i :: 0 <= i < |tokens| && ByteOf(tokens[i]).None?
    ensures ByteValues(tokens).Some? ==>
              |ByteValues(tokens).value| == |tokens|
              && forall i :: 0 <= i < |tokens| ==> ByteOf(tokens[i]) == Some(ByteValues(tokens).value[i])
  {
    hide ByteOf;
    if tokens != [] {
      ByteValuesPointwise(tokens[1..]);
      if ByteValues(tokens[1..]).None? {
        var i :| 0 <= i < |tokens[1..]| && ByteOf(tokens[1..][i]).None?;
        assert ByteOf(tokens[i + 1]).None?;
      }
    }
  }

  // ---------- the growing buffer ----------

  const INITIAL_SIZE: nat := 16

  /** The first of size, 2 * size, 4 * size ... that holds n bytes. */
  function CapacityFrom(size: nat, n: nat): (capacity: nat)
    requires size > 0
    decreases n - size
  {
    if n <= size then size else CapacityFrom(2 * size, n)
  }

  function Capacity(n: nat): nat {
    CapacityFrom(INITIAL_SIZE, n)
  }

  function Pow2(k: nat): nat {
    if k == 0 then 1 else 2 * Pow2(k - 1)
  }

  lemma {:induction false} CapacityFromBounds(size: nat, n: nat)
    requires size > 0
    ensures n <= CapacityFrom(size, n) && (CapacityFrom(size, n) == size || CapacityFrom(size, n) <= 2 * (n - 1))
    decreases n - size
  {
    if n > size {
      CapacityFromBounds(2 * size, n);
    }
  }

  lemma {:induction false} CapacityIsDoubled(size: nat, k: nat, n: nat)
    requires size == INITIAL_SIZE * Pow2(k)
    ensures size > 0
    ensures exists j: nat :: CapacityFrom(size, n) == INITIAL_SIZE * Pow2(j)
    decreases n - size
  {
    Pow2IsPositive(k);
    if n > size {
      assert 2 * size == INITIAL_SIZE * Pow2(k + 1);
      CapacityIsDoubled(2 * size, k + 1, n);
    }
  }

  lemma {:induction false} Pow2IsPositive(k: nat)
    ensures Pow2(k) > 0
  {
    if k > 0 {
      Pow2IsPositive(k - 1);
    }
  }

  lemma {:induction false} CapacityGrows(size: nat, n: nat)
    requires size > 0
    ensures CapacityFrom(size, n + 1)
         == if n < CapacityFrom(size, n) then CapacityFrom(size, n) else 2 * CapacityFrom(size, n)
    decreases n - size
  {
    if n > size {
      CapacityGrows(2 * size, n);
    }
  }

  /** With n bytes stored the buffer holds 16 * 2^k bytes, at least n and at most max(16, 2(n - 1)), and all
      reallocations together have copied fewer than 2n bytes. */
  lemma BufferBounds(n: nat)
    ensures exists k: nat :: Capacity(n) == 16 * Pow2(k)
    ensures n <= Capacity(n) <= if 16 < 2 * (n - 1) then 2 * (n - 1) else 16
    ensures n > 0 ==> Capacity(n) - 16 < 2 * n
  {
    CapacityFromBounds(INITIAL_SIZE, n);
    CapacityIsDoubled(INITIAL_SIZE, 0, n);
  }

  /** `stored` are the values of the tokens before `rest`. */
  ghost predicate ReadSoFar(text: string, stored: seq<Byte>, rest: string) {
    ByteValues(Tokens(text)) == After(stored, ByteValues(Tokens(rest)))
  }

  lemma ReadNext(text: string, stored: seq<Byte>, rest: string)
    requires ReadSoFar(text, stored, rest)
    ensures match NextToken(rest)
            case None => ByteValues(Tokens(text)) == Some(stored)
            case Some(token) =>
              if ByteOf(token.text).None? then ByteValues(Tokens(text)).None?
              else ReadSoFar(text, stored + [ByteOf(token.text).value], token.rest)
  {
    NextTokenIsFirst(rest);
    match NextToken(rest)
    case None =>
      assert stored + [] == stored;
    case Some(token) =>
      FirstValue(token.text, Tokens(token.rest));
      if ByteOf(token.text).Some? {
        AfterBoth(stored, [ByteOf(token.text).value], ByteValues(Tokens(token.rest)));
      }
  }

  /** `copied` counts the bytes moved by all reallocations. */
  method GetDataBytes(text: string) returns (output: array?<Byte>, size: nat, copied: nat)
    ensures ByteValues(Tokens(text)).None? ==> output == null && size == 0
    ensures ByteValues(Tokens(text)).Some? ==>
              output != null && size == |ByteValues(Tokens(text)).value|
              && output.Length == Capacity(size) && size <= output.Length
              && output[..size] == ByteValues(Tokens(text)).value
              && copied == Capacity(size) - INITIAL_SIZE
  {
    size, copied := 0, 0;
    var byteCount, bufferSize := 0, INITIAL_SIZE;
    var bytes := new Byte[bufferSize];
    var token := NextToken(text);
    ghost var rest, stored := text, [];
    AfterNothing(ByteValues(Tokens(text)));
    while token.Some?
      invariant token == NextToken(rest) && ReadSoFar(text, stored, rest)
      invariant fresh(bytes) && byteCount == |stored| && bytes.Length == bufferSize == Capacity(byteCount)
      invariant byteCount <= bufferSize && bytes[..byteCount] == stored
      invariant copied == bufferSize - INITIAL_SIZE
      decreases |rest|
    {
      ReadNext(text, stored, rest);
      var value := ByteOf(token.value.text);
      if value.None? {
        return null, 0, copied;
      }
      CapacityGrows(INITIAL_SIZE, byteCount);
      if byteCount >= bufferSize {
        copied := copied + bufferSize;
        bufferSize := bufferSize * 2;
        bytes := Grow(bytes);
      }
      assert bytes[..byteCount] == stored;
      bytes[byteCount] := value.value;
      byteCount := byteCount + 1;
      stored := stored + [value.value];
      assert bytes[..byteCount] == stored;
      rest := token.value.rest;
      token := NextToken(token.value.rest);
    }
    ReadNext(text, stored, rest);
    return bytes, byteCount, copied;
  }

  /** `realloc` to twice the size. */
  method Grow(bytes: array<Byte>) returns (grown: array<Byte>)
    ensures fresh(grown) && grown.Length == 2 * bytes.Length
    ensures grown[..bytes.Length] == bytes[..]
  {
    grown := new Byte[2 * bytes.Length];
    forall i | 0 <= i < bytes.Length {
      grown[i] := bytes[i];
    }
  }

  // ---------- round trip ----------

  datatype Spelling = Decimal | Hex(prefixUpper: bool, digitsUpper: bool)

  function SpellByte(b: Byte, spelling: Spelling): string {
    match spelling
    case Decimal => Spell(b, 10, false)
    case Hex(prefixUpper, digitsUpper) => (if prefixUpper then "0X" else "0x") + Spell(b, 16, digitsUpper)
  }

  lemma NumeralIsAWord(digits: string, base: nat)
    requires IsNumeral(digits, base) && base <= 16
    ensures forall i :: 0 <= i < |digits| ==> !IsDelimiter(digits[i]) && digits[i] != 'x' && digits[i] != 'X'
  {
  }

  lemma SpelledByteIsAWord(b: Byte, spelling: Spelling)
    ensures SpellByte(b, spelling) != ""
    ensures forall i :: 0 <= i < |SpellByte(b, spelling)| ==> !IsDelimiter(SpellByte(b, spelling)[i])
  {
  }

  lemma SpelledByteIsRead(b: Byte, spelling: Spelling)
    ensures ByteOf(SpellByte(b, spelling)) == Some(b)
  {
    var s := SpellByte(b, spelling);
    SpelledByteIsAWord(b, spelling);
    assert TrimBlanks(s) == s;
    match spelling
    case Decimal =>
      NumeralIsAWord(s, 10);
      assert !("0x" <= s) && !("0X" <= s) by {
        assert |s| >= 2 ==> s[1] != 'x' && s[1] != 'X';
      }
      ReadDecimal(s);
    case Hex(prefixUpper, digitsUpper) =>
      var prefix := if prefixUpper then "0X" else "0x";
      ReadHex(Spell(b, 16, digitsUpper), s);
      assert prefix <= s;
  }

  // ---------- all tokens ----------

  /** What the numeral of value v behind a sign gives, when it is a byte. */
  function ByteInRange(sign: string, v: nat): Option<Byte> {
    if v > 0xFFFF_FFFF_FFFF_FFFF then None
    else
      var n := if sign == "-" && v > 0 then 0x1_0000_0000_0000_0000 - v else v;
      if n > 255 then None else Some(n)
  }

  lemma {:induction false} TrimIsBlanks(token: string) returns (blanks: string)
    ensures token == blanks + TrimBlanks(token) && IsBlank(blanks) && forall c :: c in blanks ==> c == ' '
    ensures TrimBlanks(token) != "" ==> TrimBlanks(token)[0] != ' '
  {
    if token != "" && token[0] == ' ' {
      var rest := TrimIsBlanks(token[1..]);
      blanks := [' '] + rest;
      assert token == [token[0]] + token[1..];
    } else {
      blanks := "";
      assert token == blanks + token;
    }
  }

  lemma ParsedToken(token: string, base: nat, sign: string, v: nat)
    requires TrimBlanks(token) == token
    requires base == if "0x" <= token || "0X" <= token then 16 else 10
    requires Strtoul(token, base) == Whole(sign, v)
    ensures ByteOf(token) == ByteInRange(sign, v)
  {
  }

  lemma DecimalTokenStart(token: string, blanks: string, sign: string, digits: string)
    requires token == blanks + (sign + digits)
    requires IsBlank(blanks) && ' ' !in blanks && IsSign(sign) && IsNumeral(digits, 10)
    ensures TrimBlanks(token) == token && !("0x" <= token) && !("0X" <= token)
  {
    hide Value;
    if blanks != "" {
      assert token[0] == blanks[0] && blanks[0] in blanks;
    } else if sign != "" {
      assert token[0] == sign[0];
    } else {
      assert token == digits && (|digits| > 1 ==> digits[1] != 'x' && digits[1] != 'X');
    }
  }

  /** A decimal token, with any sign in front, is a byte or an error. */
  lemma DecimalToken(blanks: string, sign: string, digits: string)
    requires IsBlank(blanks) && ' ' !in blanks && IsSign(sign) && IsNumeral(digits, 10)
    ensures ByteOf(blanks + (sign + digits)) == ByteInRange(sign, Value(digits, 10))
  {
    var token := blanks + (sign + digits);
    DecimalTokenStart(token, blanks, sign, digits);
    ReadWhole(blanks, sign, "", digits, 10);
    assert "" + digits == digits;
    hide IsBlank, IsSign, IsNumeral, Value, Strtoul;
    ParsedToken(token, 10, sign, Value(digits, 10));
  }

  /** So is a hexadecimal token; nothing may stand in front of its prefix. */
  lemma HexToken(prefix: string, hex: string)
    requires (prefix == "0x" || prefix == "0X") && IsNumeral(hex, 16)
    ensures ByteOf(prefix + hex) == ByteInRange("", Value(hex, 16))
  {
    ReadWhole("", "", prefix, hex, 16);
    assert "" + ("" + (prefix + hex)) == prefix + hex;
    ParsedToken(prefix + hex, 16, "", Value(hex, 16));
  }

  /** The two forms of a number in a token. */
  ghost predicate IsByteText(token: string, blanks: string, sign: string, digits: string) {
    (IsBlank(blanks) && IsSign(sign) && IsNumeral(digits, 10) && token == blanks + (sign + digits))
    || (IsNumeral(digits, 16) && (token == "0x" + digits || token == "0X" + digits))
  }

  /** Every other token is an error. */
  lemma OtherTokensFail(token: string)
    requires IsWord(token) && ByteOf(token).Some?
    ensures exists blanks, sign, digits :: IsByteText(token, blanks, sign, digits)
  {
    assert token[0] in token && TrimBlanks(token) == token;
    var base := if "0x" <= token || "0X" <= token then 16 else 10;
    var blanks, sign, prefix, digits := OnlyNumeralsAreRead(token, base);
    assert "" + digits == digits;
    if base == 16 {
      assert token[0] == '0' && (token[1] == 'x' || token[1] == 'X');
      PrefixFirst(token, blanks, sign, prefix, digits);
    }
    assert IsByteText(token, blanks, sign, digits);
  }

  lemma FirstOf(a: string, b: string)
    ensures a != "" ==> (a + b)[0] == a[0]
    ensures a == "" ==> a + b == b
  {
  }

  lemma PrefixFirst(token: string, blanks: string, sign: string, prefix: string, digits: string)
    requires |token| >= 2 && token[0] == '0' && (token[1] == 'x' || token[1] == 'X')
    requires IsRead(token, blanks, sign, prefix, digits, 16)
    ensures prefix != "" && token == prefix + digits
  {
    hide Value;
    FirstOf(blanks, sign + (prefix + digits));
    FirstOf(sign, prefix + digits);
    FirstOf(prefix, digits);
    assert |digits| >= 2 ==> digits[1] != 'x' && digits[1] != 'X';
  }

  /** A minus sign is no error: a byte is read from the numerals whose negation modulo 2^64 is one, and a token with
      a minus sign and no decimal numeral behind it fails. */
  lemma NegativeTokensWrap(rest: string)
    ensures ByteOf("-" + rest) == if IsNumeral(rest, 10) then ByteInRange("-", Value(rest, 10)) else None
  {
    var s := "-" + rest;
    assert "" + ("-" + rest) == s;
    if IsNumeral(rest, 10) {
      DecimalToken("", "-", rest);
    } else {
      assert s[0] == '-' && s[1..] == rest && SkipPrefix(rest, 10) == rest;
      ReadNegative(s, 10);
      hide IsNumeral, Value, Strtoul;
      assert TrimBlanks(s) == s && !("0x" <= s) && !("0X" <= s);
    }
  }

  /** Commas and blanks only. */
  predicate IsSeparator(s: string) {
    forall i :: 0 <= i < |s| ==> s[i] == ',' || s[i] == ' '
  }

  /** Each byte in its own spelling, followed by its own separator. */
  function Print(bytes: seq<Byte>, spellings: seq<Spelling>, separators: seq<string>): string
    requires |bytes| == |spellings| == |separators|
  {
    if bytes == [] then ""
    else SpellByte(bytes[0], spellings[0]) + (separators[0] + Print(bytes[1..], spellings[1..], separators[1..]))
  }

  /** Any byte list, in any spellings and with any runs of commas and blanks around and between the values,
      is read back. */
  lemma {:induction false} ReadsBackPrintedBytes(bytes: seq<Byte>, spellings: seq<Spelling>, before: string,
                                                 separators: seq<string>)
    requires |bytes| == |spellings| == |separators|
    requires IsSeparator(before) && forall i :: 0 <= i < |separators| ==> IsSeparator(separators[i])
    requires forall i :: 0 <= i < |separators| - 1 ==> separators[i] != ""
    ensures ByteValues(Tokens(before + Print(bytes, spellings, separators))) == Some(bytes)
    decreases |bytes|
  {
    TokensDelimiters(before, Print(bytes, spellings, separators));
    if bytes == [] {
      assert Split("")[1..] == [];
    } else {
      var word := SpellByte(bytes[0], spellings[0]);
      var rest := separators[0] + Print(bytes[1..], spellings[1..], separators[1..]);
      SpelledByteIsRead(bytes[0], spellings[0]);
      SpelledByteIsAWord(bytes[0], spellings[0]);
      TokensWord(word, rest);
      ReadsBackPrintedBytes(bytes[1..], spellings[1..], separators[0], separators[1..]);
      assert ([word] + Tokens(rest))[1..] == Tokens(rest);
      assert bytes == [bytes[0]] + bytes[1..];
    }
  }
}
