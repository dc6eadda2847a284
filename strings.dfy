/**
 * Character classes, the ASCII part of Python's `str.lower`/`str.title`,
 * and decimal rendering of integers (Python's `str(n)` and `int(s)`).
 */
module Strings {
  import opened Wrappers

  predicate IsDigit(c: char) { '0' <= c <= '9' }
  predicate IsUpper(c: char) { 'A' <= c <= 'Z' }
  predicate IsLower(c: char) { 'a' <= c <= 'z' }
  predicate IsAsciiLetter(c: char) { IsUpper(c) || IsLower(c) }
  predicate IsAsciiAlnum(c: char) { IsAsciiLetter(c) || IsDigit(c) }

  function ToLowerChar(c: char): (r: char)
    ensures IsUpper(c) ==> IsLower(r)
    ensures !IsUpper(c) ==> r == c
  {
    if IsUpper(c) then (c as int + 32) as char else c
  }

  function ToUpperChar(c: char): (r: char)
    ensures IsLower(c) ==> IsUpper(r)
    ensures !IsLower(c) ==> r == c
  {
    if IsLower(c) then (c as int - 32) as char else c
  }

  /** `str.lower()` restricted to ASCII: every other character is kept. */
  function Lower(s: string): (r: string)
    ensures |r| == |s|
    ensures forall i :: 0 <= i < |s| ==> r[i] == ToLowerChar(s[i])
  {
    seq(|s|, i requires 0 <= i < |s| => ToLowerChar(s[i]))
  }

  /** `str.replace(a, b)` for single characters. */
  function ReplaceChar(s: string, a: char, b: char): (r: string)
    ensures |r| == |s|
    ensures forall i :: 0 <= i < |s| ==> r[i] == if s[i] == a then b else s[i]
  {
    seq(|s|, i requires 0 <= i < |s| => if s[i] == a then b else s[i])
  }

  /** A letter that starts a word: the first character, or one after a non-letter. */
  predicate StartsWord(s: string, i: int)
    requires 0 <= i < |s|
  {
    i == 0 || !IsAsciiLetter(s[i - 1])
  }

  /**
   * `r` is `s` title-cased: non-letters are kept, and every letter is the
   * same letter, upper case where it starts a word and lower case elsewhere.
   */
  predicate TitleCased(s: string, r: string)
  {
    && |r| == |s|
    && (forall i :: 0 <= i < |s| && !IsAsciiLetter(s[i]) ==> r[i] == s[i])
    && (forall i :: 0 <= i < |s| && IsAsciiLetter(s[i]) ==> ToLowerChar(r[i]) == ToLowerChar(s[i]))
    && (forall i :: 0 <= i < |s| && IsAsciiLetter(s[i]) && StartsWord(s, i) ==> IsUpper(r[i]))
    && (forall i :: 0 <= i < |s| && IsAsciiLetter(s[i]) && !StartsWord(s, i) ==> IsLower(r[i]))
  }

  /** `str.title()` for ASCII text; `TitleIsTitleCased` states what it computes. */
  function Title(s: string): (r: string)
    ensures |r| == |s|
  {
    TitleAfter(s, false)
  }

  /** Title-casing `s` when the character before it was a letter (`inWord`) or was not. */
  function TitleAfter(s: string, inWord: bool): (r: string)
    ensures |r| == |s|
  {
    if s == [] then []
    else [if inWord then ToLowerChar(s[0]) else ToUpperChar(s[0])] + TitleAfter(s[1..], IsAsciiLetter(s[0]))
  }

  /** Character `i` of `TitleAfter(s, inWord)`: upper-cased where a word starts, lower-cased elsewhere. */
  lemma {:induction false} TitleAfterAt(s: string, inWord: bool, i: nat)
    requires i < |s|
    ensures TitleAfter(s, inWord)[i] ==
              if (if i == 0 then inWord else IsAsciiLetter(s[i - 1])) then ToLowerChar(s[i]) else ToUpperChar(s[i])
  {
    if i > 0 {
      TitleAfterAt(s[1..], IsAsciiLetter(s[0]), i - 1);
      assert TitleAfter(s, inWord)[i] == TitleAfter(s[1..], IsAsciiLetter(s[0]))[i - 1];
    }
  }

  /** `Title(s)` is `s` title-cased. */
  lemma TitleIsTitleCased(s: string)
    ensures TitleCased(s, Title(s))
  {
    var r := Title(s);
    forall i | 0 <= i < |s|
      ensures r[i] == if StartsWord(s, i) then ToUpperChar(s[i]) else ToLowerChar(s[i])
    {
      TitleAfterAt(s, false, i);
    }
  }

  lemma SameLetterSameCase(x: char, y: char)
    requires ToLowerChar(x) == ToLowerChar(y) && (IsUpper(x) <==> IsUpper(y))
    ensures x == y
  {
  }

  /** Title case is determined letter by letter: `Title(s)` is the only title-cased form of `s`. */
  lemma TitleOfWords(s: string, t: string)
    requires TitleCased(s, t)
    ensures t == Title(s)
  {
    var r := Title(s);
    TitleIsTitleCased(s);
    forall i | 0 <= i < |s|
      ensures t[i] == r[i]
    {
      if IsAsciiLetter(s[i]) {
        SameLetterSameCase(t[i], r[i]);
      }
    }
  }

  /** Title-casing twice is title-casing once. */
  lemma TitleIdempotent(s: string)
    ensures Title(Title(s)) == Title(s)
  {
    var r := Title(s);
    TitleIsTitleCased(s);
    forall i | 0 <= i < |r|
      ensures IsAsciiLetter(r[i]) <==> IsAsciiLetter(s[i])
    {
    }
    assert TitleCased(r, r) by {
      forall i | 0 <= i < |r| && IsAsciiLetter(r[i])
        ensures StartsWord(r, i) <==> StartsWord(s, i)
      {
      }
    }
    TitleOfWords(r, r);
  }

  // ---------------------------------------------------------------------
  // Decimal rendering

  function DigitChar(d: nat): (c: char)
    requires d < 10
    ensures IsDigit(c)
  {
    ('0' as int + d) as char
  }

  function DigitValue(c: char): (d: nat)
    requires IsDigit(c)
    ensures d < 10 && DigitChar(d) == c
  {
    c as int - '0' as int
  }

  predicate AllDigits(s: string) { forall i :: 0 <= i < |s| ==> IsDigit(s[i]) }

  /** `str(n)` for a natural number: no sign, no leading zero. */
  function NatToString(n: nat): (r: string)
    ensures |r| >= 1 && AllDigits(r)
    ensures |r| > 1 ==> r[0] != '0'
    decreases n
  {
    if n < 10 then [DigitChar(n)] else NatToString(n / 10) + [DigitChar(n % 10)]
  }

  /** The value of a string of decimal digits. */
  function DigitsValue(s: string): nat
    requires AllDigits(s)
    decreases |s|
  {
    if s == [] then 0 else DigitsValue(s[..|s| - 1]) * 10 + DigitValue(s[|s| - 1])
  }

  lemma {:induction false} NatToStringRoundTrip(n: nat)
    ensures DigitsValue(NatToString(n)) == n
    decreases n
  {
    if n >= 10 {
      var r := NatToString(n);
      assert r[..|r| - 1] == NatToString(n / 10);
      NatToStringRoundTrip(n / 10);
    }
  }

  /** `str(i)` for any integer: a leading '-' for negative values. */
  function IntToString(i: int): (r: string)
    ensures |r| >= 1
    ensures i < 0 <==> r[0] == '-'
  {
    if i < 0 then "-" + NatToString(-i) else NatToString(i)
  }

  /** `int(s)` restricted to an optional '-' followed by decimal digits. */
  function ParseInt(s: string): (r: Option<int>)
  {
    if |s| >= 2 && s[0] == '-' && AllDigits(s[1..]) then Some(0 - DigitsValue(s[1..]) as int)
    else if |s| >= 1 && AllDigits(s) then Some(DigitsValue(s) as int)
    else None
  }

  lemma IntToStringRoundTrip(i: int)
    ensures ParseInt(IntToString(i)) == Some(i)
  {
    if i < 0 {
      assert IntToString(i)[1..] == NatToString(-i);
      NatToStringRoundTrip(-i);
    } else {
      NatToStringRoundTrip(i);
    }
  }

  lemma IntToStringInjective(a: int, b: int)
    ensures IntToString(a) == IntToString(b) <==> a == b
  {
    if IntToString(a) == IntToString(b) {
      IntToStringRoundTrip(a);
      IntToStringRoundTrip(b);
    }
  }
}
