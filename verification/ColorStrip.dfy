/** `UT_stripColorCode` of src/ut_log.c: it removes every escape sequence up to its `m`, in place. */
module ColorStrip {
  const ESC: char := 27 as char

  /** The index of the first `m`, or the length of the text. */
  function IndexOfM(s: string): (k: nat)
    ensures k <= |s|
  {
    if s == "" || s[0] == 'm' then 0 else 1 + IndexOfM(s[1..])
  }

  lemma {:induction false} IndexOfMIs(s: string, k: nat)
    requires k <= |s| && (k < |s| ==> s[k] == 'm') && forall i :: 0 <= i < k ==> s[i] != 'm'
    ensures IndexOfM(s) == k
  {
    if k > 0 {
      forall i | 0 <= i < k - 1 ensures s[1..][i] != 'm' {
        assert s[1..][i] == s[i + 1];
      }
      IndexOfMIs(s[1..], k - 1);
    }
  }

  /** What is left of a text that starts inside an escape sequence. */
  function AfterM(s: string): string {
    if IndexOfM(s) < |s| then s[IndexOfM(s) + 1..] else ""
  }

  function Strip(s: string): string
    decreases |s|
  {
    if s == "" then ""
    else if s[0] == ESC then Strip(AfterM(s))
    else [s[0]] + Strip(s[1..])
  }

  /** Every escape sequence that starts in the text also ends in it. */
  predicate Closed(s: string)
    decreases |s|
  {
    if s == "" then true
    else if s[0] == ESC then IndexOfM(s) < |s| && Closed(AfterM(s))
    else Closed(s[1..])
  }

  /** The buffer holds a C string of length n. */
  ghost predicate IsCString(buffer: seq<char>, n: nat) {
    n < |buffer| && buffer[n] == '\0' && forall k :: 0 <= k < n ==> buffer[k] != '\0'
  }

  /** The buffer afterwards: the stripped text, a NUL, and behind it what was there before. */
  function StrippedBuffer(buffer: seq<char>, n: nat): seq<char>
    requires n < |buffer|
  {
    StrippedHasNoEscape(buffer[..n]);
    Strip(buffer[..n]) + ['\0'] + buffer[|Strip(buffer[..n])| + 1..]
  }

  /** `kept` is the stripped form of the first i characters of the text of length n in the buffer. */
  ghost predicate StrippedSoFar(buffer: seq<char>, n: nat, i: nat, kept: string) {
    i <= n <= |buffer| && kept + Strip(buffer[i..n]) == Strip(buffer[..n])
  }

  /** Positions `start` to `i` lie inside one escape sequence. */
  ghost predicate InEscape(buffer: seq<char>, start: nat, i: nat) {
    start <= i <= |buffer| && forall k :: start <= k < i ==> buffer[k] != 'm'
  }

  lemma KeepPlain(buffer: seq<char>, n: nat, i: nat, kept: string)
    requires i < n <= |buffer| && buffer[i] != ESC && StrippedSoFar(buffer, n, i, kept)
    ensures StrippedSoFar(buffer, n, i + 1, kept + [buffer[i]])
  {
  }

  lemma SkipEscape(buffer: seq<char>, n: nat, start: nat, i: nat, kept: string)
    requires start < n <= |buffer| && buffer[start] == ESC && StrippedSoFar(buffer, n, start, kept)
    requires InEscape(buffer, start, i) && i <= n && (i < n ==> buffer[i] == 'm')
    ensures StrippedSoFar(buffer, n, if i < n then i + 1 else i, kept)
  {
    var s := buffer[start..n];
    forall k | 0 <= k < i - start ensures s[k] != 'm' {
      assert s[k] == buffer[start + k];
    }
    IndexOfMIs(s, i - start);
    if i < n {
      assert AfterM(s) == buffer[i + 1..n];
    } else {
      assert buffer[i..n] == "";
    }
  }

  /** The loop has written `kept` over the front of the buffer and nothing else. */
  ghost predicate Written(now: seq<char>, before: seq<char>, kept: string) {
    |kept| <= |now| == |before| && now[..|kept|] == kept && now[|kept|..] == before[|kept|..]
  }

  lemma NothingStripped(buffer: seq<char>, n: nat, kept: string)
    requires n <= |buffer| && kept == ""
    ensures StrippedSoFar(buffer, n, 0, kept) && Written(buffer, buffer, kept)
  {
    assert buffer[0..n] == buffer[..n];
  }

  lemma ReadAhead(now: seq<char>, before: seq<char>, kept: string, i: nat)
    requires Written(now, before, kept) && |kept| <= i < |now|
    ensures now[i] == before[i]
  {
    assert now[i] == now[|kept|..][i - |kept|] && before[i] == before[|kept|..][i - |kept|];
  }

  lemma WriteOne(now: seq<char>, before: seq<char>, kept: string, c: char)
    requires Written(now, before, kept) && |kept| < |now|
    ensures Written(now[|kept| := c], before, kept + [c])
  {
    assert before[|kept| + 1..] == before[|kept|..][1..] && now[|kept| + 1..] == now[|kept|..][1..];
  }

  lemma Finished(now: seq<char>, before: seq<char>, n: nat, kept: string)
    requires n < |now| && Written(now, before, kept + ['\0'])
    requires StrippedSoFar(before, n, n, kept)
    ensures now == StrippedBuffer(before, n)
  {
    assert before[n..n] == "" && kept + "" == kept;
    assert now == now[..|kept| + 1] + now[|kept| + 1..];
  }

  method StripColorCode(a: array<char>, ghost n: nat)
    requires IsCString(a[..], n)
    modifies a
    ensures a[..] == StrippedBuffer(old(a[..]), n)
  {
    hide StrippedSoFar, StrippedBuffer, Written;
    ghost var before := a[..];
    ghost var kept := "";
    var i, j := 0, 0;
    NothingStripped(before, n, kept);
    while a[i] != '\0'
      invariant j == |kept| && j <= i <= n < a.Length
      invariant Written(a[..], before, kept)
      invariant StrippedSoFar(before, n, i, kept)
      decreases n - i
    {
      ReadAhead(a[..], before, kept, i);
      ReadAhead(a[..], before, kept, n);
      if a[i] == ESC {
        ghost var start, now := i, a[..];
        while a[i] != 'm' && a[i] != '\0'
          invariant InEscape(before, start, i) && i <= n && a[..] == now
          decreases n - i
        {
          ReadAhead(now, before, kept, i);
          assert a[i] == now[i];
          i := i + 1;
        }
        ReadAhead(now, before, kept, i);
        assert a[i] == now[i];
        SkipEscape(before, n, start, i, kept);
        if a[i] == '\0' {
          break;
        }
        i := i + 1;
      } else {
        ghost var now := a[..];
        KeepPlain(before, n, i, kept);
        WriteOne(now, before, kept, a[i]);
        a[j] := a[i];
        assert a[..] == now[j := before[i]];
        kept := kept + [before[i]];
        i, j := i + 1, j + 1;
      }
    }
    ReadAhead(a[..], before, kept, i);
    ghost var now := a[..];
    WriteOne(now, before, kept, '\0');
    a[j] := '\0';
    assert a[..] == now[j := '\0'];
    Finished(a[..], before, n, kept);
  }

  lemma {:induction false} StrippedHasNoEscape(s: string)
    ensures ESC !in Strip(s) && |Strip(s)| <= |s|
    decreases |s|
  {
    if s != "" {
      StrippedHasNoEscape(if s[0] == ESC then AfterM(s) else s[1..]);
    }
  }

  lemma {:induction false} StripKeepsPlainText(s: string)
    requires ESC !in s
    ensures Strip(s) == s && Closed(s)
  {
    if s != "" {
      assert s == [s[0]] + s[1..];
      StripKeepsPlainText(s[1..]);
    }
  }

  lemma {:induction false} StripIsIdempotent(s: string)
    ensures Strip(Strip(s)) == Strip(s)
  {
    StrippedHasNoEscape(s);
    StripKeepsPlainText(Strip(s));
  }

  lemma {:induction false} IndexOfMConcat(a: string, b: string)
    ensures IndexOfM(a + b) == if IndexOfM(a) < |a| then IndexOfM(a) else |a| + IndexOfM(b)
  {
    if a == "" {
      assert a + b == b;
    } else if a[0] != 'm' {
      assert (a + b)[1..] == a[1..] + b;
      IndexOfMConcat(a[1..], b);
    }
  }

  lemma SliceConcat(a: string, b: string, k: nat)
    requires k <= |a| + |b|
    ensures (a + b)[k..] == if k <= |a| then a[k..] + b else b[k - |a|..]
  {
  }

  lemma AfterMInFirst(a: string, b: string)
    requires IndexOfM(a) < |a|
    ensures AfterM(a + b) == AfterM(a) + b
  {
    hide IndexOfM;
    var k := IndexOfM(a) + 1;
    IndexOfMConcat(a, b);
    assert AfterM(a) == a[k..] && AfterM(a + b) == (a + b)[k..];
    hide AfterM;
    SliceConcat(a, b, k);
  }

  lemma AfterMInSecond(a: string, b: string)
    requires IndexOfM(a) == |a|
    ensures AfterM(a + b) == AfterM(b)
  {
    hide IndexOfM;
    IndexOfMConcat(a, b);
    if IndexOfM(b) < |b| {
      SliceConcat(a, b, |a| + IndexOfM(b) + 1);
    }
  }

  /** Stripping two texts joined: when the first leaves an escape sequence open, it swallows the second up to
      its first `m`. */
  lemma {:induction false} StripConcat(a: string, b: string)
    ensures Strip(a + b) == Strip(a) + Strip(if Closed(a) then b else AfterM(b))
    decreases |a|
  {
    if a == "" {
      assert a + b == b;
    } else if a[0] == ESC {
      if IndexOfM(a) < |a| {
        AfterMInFirst(a, b);
        StripConcat(AfterM(a), b);
      } else {
        AfterMInSecond(a, b);
      }
    } else {
      assert (a + b)[1..] == a[1..] + b;
      StripConcat(a[1..], b);
    }
  }

  /** Stripping distributes over every continuation exactly when the first part leaves no escape sequence open. */
  lemma StripDistributesIffClosed(a: string)
    ensures Closed(a) <==> forall b: string :: Strip(a + b) == Strip(a) + Strip(b)
  {
    if Closed(a) {
      forall b: string ensures Strip(a + b) == Strip(a) + Strip(b) {
        StripConcat(a, b);
      }
    } else {
      StripConcat(a, "x");
      assert IndexOfM("x") == 1 && AfterM("x") == "";
      assert Strip("x") == "x";
    }
  }

  /** What stripping does, for every text: plain text stays; an escape sequence, from the ESC character to the next
      `m`, vanishes; one that never ends swallows the rest. */
  lemma EscapeLaw(text: string, inside: string, rest: string)
    requires '\U{1B}' !in text && 'm' !in inside
    ensures Strip(text) == text
    ensures Strip(text + (['\U{1B}'] + inside + "m" + rest)) == text + Strip(rest)
    ensures Strip(text + (['\U{1B}'] + inside)) == text
  {
    var open, closed := [ESC] + inside, [ESC] + inside + "m" + rest;
    assert forall i :: 0 <= i < |inside| ==> inside[i] in inside;
    IndexOfMIs(open, |open|);
    IndexOfMIs(closed, |open|);
    assert AfterM(closed) == rest && AfterM(open) == "";
    StripKeepsPlainText(text);
    hide IndexOfM, AfterM;
    StripConcat(text, open);
    StripConcat(text, closed);
    assert text + "" == text;
  }

  /** A colour code of include/ut_log.h: ESC, `[`, parameters without `m`, and `m`. */
  predicate IsColorCode(code: string) {
    |code| >= 3 && code[0] == ESC && code[1] == '[' && code[|code| - 1] == 'm'
    && forall i :: 0 <= i < |code| - 1 ==> code[i] != 'm'
  }

  const COLOR_PARAMETERS: seq<string> := ["0;30", "0;31", "0;32", "0;33", "0;34", "0;35", "0;36", "0;37", "0"]

  function ColorCode(parameters: string): string {
    [ESC, '['] + parameters + "m"
  }

  lemma LogColorsAreColorCodes(i: nat)
    requires i < |COLOR_PARAMETERS|
    ensures IsColorCode(ColorCode(COLOR_PARAMETERS[i]))
  {
  }

  lemma ColorCodeVanishes(code: string)
    requires IsColorCode(code)
    ensures Strip(code) == "" && Closed(code)
  {
    IndexOfMIs(code, |code| - 1);
    assert AfterM(code) == "";
  }

  /** A text between colour codes comes out as it was. */
  lemma ColoredTextIsRestored(color: string, text: string, reset: string)
    requires IsColorCode(color) && IsColorCode(reset) && ESC !in text
    ensures Strip(color + text + reset) == text
  {
    assert color + text + reset == color + (text + reset);
    assert Strip(color + (text + reset)) == Strip(text + reset) by {
      ColorCodeVanishes(color);
      StripConcat(color, text + reset);
    }
    assert Strip(text + reset) == text by {
      ColorCodeVanishes(reset);
      StripKeepsPlainText(text);
      StripConcat(text, reset);
    }
  }
}
