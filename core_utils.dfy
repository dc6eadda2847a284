/**
 * The two pure helpers of app/utils/core.py: `clean_text` and the
 * day/hour/minute/second split of the API uptime.
 */
module CoreUtils {
  import opened Strings

  // ---------------------------------------------------------------------
  // clean_text

  /** Python's `str.isspace()`, which is also what `\s` matches in a `str` pattern and where `str.split()` splits. */
  predicate IsPySpace(c: char)
  {
    ('\U{9}' <= c <= '\U{D}') || ('\U{1C}' <= c <= '\U{20}') || c == '\U{85}' || c == '\U{A0}'
    || c == '\U{1680}' || ('\U{2000}' <= c <= '\U{200A}') || c == '\U{2028}' || c == '\U{2029}'
    || c == '\U{202F}' || c == '\U{205F}' || c == '\U{3000}'
  }

  /** The white-space characters whose NFKD form is a plain space. */
  predicate DecomposesToSpace(c: char)
  {
    c == '\U{A0}' || ('\U{2000}' <= c <= '\U{200A}') || c == '\U{202F}' || c == '\U{205F}' || c == '\U{3000}'
  }

  /** `re.sub(r'[^a-zA-Z0-9\s]', ' ', text)`. */
  function Substitute(s: string): (r: string)
    ensures |r| == |s|
    ensures forall i :: 0 <= i < |s| ==>
              r[i] == if IsAsciiAlnum(s[i]) || IsPySpace(s[i]) then s[i] else ' '
  {
    seq(|s|, i requires 0 <= i < |s| => if IsAsciiAlnum(s[i]) || IsPySpace(s[i]) then s[i] else ' ')
  }

  predicate Substituted(s: string)
  {
    forall i :: 0 <= i < |s| ==> IsAsciiAlnum(s[i]) || IsPySpace(s[i])
  }

  /**
   * `unicodedata.normalize('NFKD', s).encode('ASCII', 'ignore').decode('ASCII')`
   * on text that holds only ASCII letters, digits and white space: ASCII is
   * kept, a space with a compatibility decomposition becomes ' ', and the
   * separators without one (U+0085, U+1680, U+2028, U+2029) are dropped.
   */
  function NormalizeToAscii(s: string): (r: string)
    requires Substituted(s)
    ensures forall i :: 0 <= i < |r| ==> (IsAsciiAlnum(r[i]) || IsPySpace(r[i])) && r[i] as int < 128
    decreases |s|
  {
    if s == [] then [] else NormalizeChar(s[0]) + NormalizeToAscii(s[1..])
  }

  /** The ASCII part of the NFKD form of one character that the substitution kept. */
  function NormalizeChar(c: char): string
  {
    if c as int < 128 then [c] else if DecomposesToSpace(c) then [' '] else []
  }

  /** `str.strip()`: leading white space, then trailing white space, removed. */
  function SkipSpaces(s: string): (r: string)
    ensures r == [] || !IsPySpace(r[0])
    decreases |s|
  {
    if s != [] && IsPySpace(s[0]) then SkipSpaces(s[1..]) else s
  }

  function DropTrailingSpaces(s: string): (r: string)
    ensures r == [] || !IsPySpace(r[|r| - 1])
    decreases |s|
  {
    if s != [] && IsPySpace(s[|s| - 1]) then DropTrailingSpaces(s[..|s| - 1]) else s
  }

  function Strip(s: string): string
  {
    DropTrailingSpaces(SkipSpaces(s))
  }

  /** The number of leading characters that are not white space. */
  function WordLength(s: string): (n: nat)
    ensures n <= |s|
    ensures forall i :: 0 <= i < n ==> !IsPySpace(s[i])
    ensures n < |s| ==> IsPySpace(s[n])
    decreases |s|
  {
    if s == [] || IsPySpace(s[0]) then 0 else 1 + WordLength(s[1..])
  }

  /** `str.split()` with no separator: the maximal runs of non-white-space characters. */
  function Words(s: string): (ws: seq<string>)
    decreases |s|
  {
    if s == [] then []
    else if IsPySpace(s[0]) then Words(s[1..])
    else
      var n := WordLength(s);
      [s[..n]] + Words(s[n..])
  }

  /** `' '.join(words)`. */
  function JoinWords(ws: seq<string>): string
  {
    if ws == [] then "" else if |ws| == 1 then ws[0] else ws[0] + " " + JoinWords(ws[1..])
  }

  function CleanText(text: string): string
  {
    JoinWords(CleanWords(text))
  }

  /** A character that can appear inside a cleaned word. */
  predicate CleanChar(c: char) { IsLower(c) || IsDigit(c) }

  predicate CleanWord(w: string)
  {
    |w| >= 1 && forall i :: 0 <= i < |w| ==> CleanChar(w[i])
  }

  /** Text made of cleaned words joined by single spaces, with no space at either end. */
  predicate CleanShape(r: string)
  {
    && (forall i :: 0 <= i < |r| ==> CleanChar(r[i]) || r[i] == ' ')
    && (r != [] ==> r[0] != ' ' && r[|r| - 1] != ' ')
    && (forall i :: 0 <= i < |r| - 1 ==> !(r[i] == ' ' && r[i + 1] == ' '))
  }

  /** Text whose characters are all clean or white space. */
  predicate CleanOrSpace(s: string)
  {
    forall i :: 0 <= i < |s| ==> CleanChar(s[i]) || IsPySpace(s[i])
  }

  lemma SliceCleanOrSpace(s: string, i: nat, j: nat)
    requires CleanOrSpace(s) && i <= j <= |s|
    ensures CleanOrSpace(s[i..j])
  {
    assert forall k :: 0 <= k < j - i ==> s[i..j][k] == s[i + k];
  }

  lemma {:induction false} WordsAreClean(s: string)
    requires CleanOrSpace(s)
    ensures forall k :: 0 <= k < |Words(s)| ==> CleanWord(Words(s)[k])
    decreases |s|
  {
    if s == [] {
    } else if IsPySpace(s[0]) {
      SliceCleanOrSpace(s, 1, |s|);
      WordsAreClean(s[1..]);
    } else {
      var n := WordLength(s);
      SliceCleanOrSpace(s, n, |s|);
      SliceCleanOrSpace(s, 0, n);
      WordsAreClean(s[n..]);
      assert Words(s) == [s[..n]] + Words(s[n..]);
    }
  }

  lemma {:induction false} JoinedShape(ws: seq<string>)
    requires forall k :: 0 <= k < |ws| ==> CleanWord(ws[k])
    ensures CleanShape(JoinWords(ws))
    ensures ws != [] ==> JoinWords(ws) != [] && CleanChar(JoinWords(ws)[0])
                         && CleanChar(JoinWords(ws)[|JoinWords(ws)| - 1])
    decreases |ws|
  {
    if |ws| > 1 {
      JoinedShape(ws[1..]);
      var rest := JoinWords(ws[1..]);
      var r := ws[0] + " " + rest;
      assert JoinWords(ws) == r;
      forall i | 0 <= i < |r| ensures CleanChar(r[i]) || r[i] == ' ' {
        if i > |ws[0]| { assert r[i] == rest[i - |ws[0]| - 1]; }
      }
      forall i | 0 <= i < |r| - 1 ensures !(r[i] == ' ' && r[i + 1] == ' ') {
        if i > |ws[0]| { assert r[i] == rest[i - |ws[0]| - 1] && r[i + 1] == rest[i - |ws[0]|]; }
      }
    }
  }

  lemma WordsAfterSpace(x: string)
    ensures Words(" " + x) == Words(x)
  {
    assert (" " + x)[1..] == x;
  }

  /** Splitting text joined from clean words gives the words back. */
  lemma {:induction false} WordsOfJoin(ws: seq<string>)
    requires forall k :: 0 <= k < |ws| ==> CleanWord(ws[k])
    ensures Words(JoinWords(ws)) == ws
    decreases |ws|
  {
    if ws == [] {
    } else if |ws| == 1 {
      var w := ws[0];
      WordLengthOfWord(w, "");
      assert w + "" == w;
      assert w[|w|..] == [];
    } else {
      var w, rest := ws[0], JoinWords(ws[1..]);
      var t := w + (" " + rest);
      assert JoinWords(ws) == t;
      WordLengthOfWord(w, " " + rest);
      assert t[..|w|] == w && t[|w|..] == " " + rest;
      WordsAfterSpace(rest);
      WordsOfJoin(ws[1..]);
    }
  }

  lemma {:induction false} WordLengthOfWord(w: string, tail: string)
    requires CleanWord(w) || w == []
    requires tail == [] || IsPySpace(tail[0])
    ensures WordLength(w + tail) == |w|
    decreases |w|
  {
    if w != [] {
      assert (w + tail)[1..] == w[1..] + tail;
      WordLengthOfWord(w[1..], tail);
    }
  }

  lemma {:induction false} StripCleanOrSpace(s: string)
    requires CleanOrSpace(s)
    ensures CleanOrSpace(SkipSpaces(s)) && CleanOrSpace(Strip(s))
    decreases |s|
  {
    if s != [] && IsPySpace(s[0]) {
      SliceCleanOrSpace(s, 1, |s|);
      StripCleanOrSpace(s[1..]);
    } else {
      DropTrailingCleanOrSpace(s);
    }
  }

  lemma {:induction false} DropTrailingCleanOrSpace(s: string)
    requires CleanOrSpace(s)
    ensures CleanOrSpace(DropTrailingSpaces(s))
    decreases |s|
  {
    if s != [] && IsPySpace(s[|s| - 1]) {
      SliceCleanOrSpace(s, 0, |s| - 1);
      DropTrailingCleanOrSpace(s[..|s| - 1]);
    }
  }

  /** The words the cleaned text is joined from. */
  function CleanWords(text: string): seq<string>
  {
    Words(Strip(Lower(NormalizeToAscii(Substitute(text)))))
  }

  /** Every output character is a lower-case ASCII letter, a digit or a single separating space. */
  lemma CleanTextShape(text: string)
    ensures CleanShape(CleanText(text))
    ensures forall k :: 0 <= k < |CleanWords(text)| ==> CleanWord(CleanWords(text)[k])
  {
    var l := Lower(NormalizeToAscii(Substitute(text)));
    assert CleanOrSpace(l);
    StripCleanOrSpace(l);
    WordsAreClean(Strip(l));
    JoinedShape(CleanWords(text));
  }

  lemma {:induction false} NormalizeKeepsAscii(s: string)
    requires Substituted(s)
    requires forall i :: 0 <= i < |s| ==> s[i] as int < 128
    ensures NormalizeToAscii(s) == s
    decreases |s|
  {
    if s != [] {
      NormalizeKeepsAscii(s[1..]);
    }
  }

  /** Text whose characters are all clean or plain spaces. */
  predicate CleanOrBlank(c: string)
  {
    forall i :: 0 <= i < |c| ==> CleanChar(c[i]) || c[i] == ' '
  }

  lemma SubstituteKeepsClean(c: string)
    requires CleanOrBlank(c)
    ensures Substituted(c) && Substitute(c) == c
  {
    assert forall i :: 0 <= i < |c| ==> Substitute(c)[i] == c[i];
  }

  lemma LowerKeepsClean(c: string)
    requires CleanOrBlank(c)
    ensures Lower(c) == c
  {
    assert forall i :: 0 <= i < |c| ==> Lower(c)[i] == c[i];
  }

  lemma CleanIsFixed(c: string)
    requires CleanOrBlank(c)
    ensures Substituted(c) && Substitute(c) == c && Lower(c) == c
    ensures NormalizeToAscii(c) == c && NormalizeKeepingSeparators(c) == c
  {
    SubstituteKeepsClean(c);
    LowerKeepsClean(c);
    NormalizeKeepsAscii(c);
    NormalizeKeepingAscii(c);
  }

  /** Each step of the cleaning leaves already clean text as it is. */
  lemma CleanStepsFix(c: string)
    requires CleanShape(c)
    ensures Strip(Lower(NormalizeToAscii(Substitute(c)))) == c
  {
    assert CleanOrBlank(c);
    assert Substitute(c) == c by { SubstituteKeepsClean(c); }
    assert NormalizeToAscii(c) == c by { NormalizeKeepsAscii(c); }
    assert Lower(c) == c by { LowerKeepsClean(c); }
    assert Strip(c) == c by {
      assert SkipSpaces(c) == c;
      assert DropTrailingSpaces(c) == c;
    }
  }

  /** Cleaning is idempotent. */
  lemma CleanTextIdempotent(text: string)
    ensures CleanText(CleanText(text)) == CleanText(text)
  {
    CleanTextShape(text);
    var ws := CleanWords(text);
    CleanStepsFix(JoinWords(ws));
    WordsOfJoin(ws);
  }

  /** Any character other than an ASCII letter, digit or white space separates words exactly like a space. */
  lemma OtherCharactersSeparate(a: string, c: char, b: string)
    requires !IsAsciiAlnum(c) && !IsPySpace(c)
    ensures CleanText(a + [c] + b) == CleanText(a + " " + b)
  {
    assert Substitute(a + [c] + b) == Substitute(a + " " + b);
  }

  // Separators that NFKD leaves alone

  /** The white-space characters that have no compatibility decomposition and are not ASCII. */
  predicate DroppedSeparator(c: char)
  {
    c == '\U{85}' || c == '\U{1680}' || c == '\U{2028}' || c == '\U{2029}'
  }

  lemma {:induction false} NormalizeAppend(x: string, y: string)
    requires Substituted(x) && Substituted(y)
    ensures Substituted(x + y)
    ensures NormalizeToAscii(x + y) == NormalizeToAscii(x) + NormalizeToAscii(y)
    decreases |x|
  {
    assert forall i :: 0 <= i < |x + y| ==> (x + y)[i] == if i < |x| then x[i] else y[i - |x|];
    if x != [] {
      assert (x + y)[1..] == x[1..] + y;
      assert (x + y)[0] == x[0];
      NormalizeAppend(x[1..], y);
      assert NormalizeToAscii(x + y) == NormalizeChar(x[0]) + (NormalizeToAscii(x[1..]) + NormalizeToAscii(y));
    } else {
      assert x + y == y;
    }
  }

  /** Splitting and re-joining leaves a clean word as it is. */
  lemma OneWord(w: string)
    requires CleanWord(w)
    ensures JoinWords(Words(Strip(w))) == w
  {
    assert SkipSpaces(w) == w && DropTrailingSpaces(w) == w;
    WordsOfJoin([w]);
  }

  /** Two clean words around one ASCII white-space character come out joined by a single space. */
  lemma TwoWords(a: string, sp: char, b: string)
    requires CleanWord(a) && CleanWord(b) && IsPySpace(sp) && sp as int < 128
    ensures JoinWords(Words(Strip(a + [sp] + b))) == a + " " + b
  {
    var t := a + [sp] + b;
    assert SkipSpaces(t) == t && DropTrailingSpaces(t) == t;
    assert t == a + ([sp] + b);
    WordLengthOfWord(a, [sp] + b);
    assert t[..|a|] == a && t[|a|..] == [sp] + b;
    assert ([sp] + b)[1..] == b;
    assert Words(b) == [b] by { OneWord(b); WordsOfJoin([b]); }
    assert Words(t) == [a, b];
  }

  /** A clean word is already ASCII letters and digits, so the encoding keeps it whole. */
  lemma CleanWordNormalizes(w: string)
    requires CleanWord(w)
    ensures Substituted(w) && NormalizeToAscii(w) == w
  {
    assert Substituted(w);
    NormalizeKeepsAscii(w);
  }

  /** A separator that NFKD leaves alone contributes nothing after a clean word. */
  lemma NormalizeDropsTrailingSeparator(a: string, c: char)
    requires CleanWord(a) && DroppedSeparator(c)
    ensures Substituted(a + [c]) && NormalizeToAscii(a + [c]) == a
  {
    CleanWordNormalizes(a);
    assert Substituted([c]) && NormalizeToAscii([c]) == [] by {
      assert NormalizeToAscii([c]) == NormalizeChar(c) + NormalizeToAscii([c][1..]);
    }
    NormalizeAppend(a, [c]);
    assert a + [] == a;
  }

  /** The ASCII encoding drops a separator that NFKD leaves alone, joining the text around it. */
  lemma NormalizeDropsSeparator(a: string, c: char, b: string)
    requires CleanWord(a) && CleanWord(b) && DroppedSeparator(c)
    ensures Substituted(a + [c] + b) && NormalizeToAscii(a + [c] + b) == a + b
  {
    NormalizeDropsTrailingSeparator(a, c);
    CleanWordNormalizes(b);
    NormalizeAppend(a + [c], b);
  }

  /**
   * As written: a separator that NFKD leaves alone is dropped by the ASCII
   * encoding after the substitution has kept it, so the words around it merge.
   */
  lemma DroppedSeparatorMergesWords(a: string, c: char, b: string)
    requires CleanWord(a) && CleanWord(b) && DroppedSeparator(c)
    ensures CleanText(a + [c] + b) == a + b
  {
    var t := a + [c] + b;
    assert Substitute(t) == t by {
      assert forall i :: 0 <= i < |t| ==> Substitute(t)[i] == t[i];
    }
    NormalizeDropsSeparator(a, c, b);
    var w := a + b;
    assert CleanWord(w);
    CleanIsFixed(w);
    OneWord(w);
  }

  /** `unicodedata.normalize('NFKD', …)` with every white-space character kept as a separator. */
  function NormalizeKeepingSeparators(s: string): (r: string)
    requires Substituted(s)
    ensures forall i :: 0 <= i < |r| ==> (IsAsciiAlnum(r[i]) || IsPySpace(r[i])) && r[i] as int < 128
    decreases |s|
  {
    if s == [] then [] else KeepSeparator(s[0]) + NormalizeKeepingSeparators(s[1..])
  }

  function KeepSeparator(c: char): string
  {
    if c as int < 128 then [c] else if IsPySpace(c) then [' '] else []
  }

  /** `clean_text` as evidently intended: every white-space character separates words. */
  function CleanTextSeparating(text: string): string
  {
    JoinWords(Words(Strip(Lower(NormalizeKeepingSeparators(Substitute(text))))))
  }

  lemma {:induction false} NormalizeKeepingAppend(x: string, y: string)
    requires Substituted(x) && Substituted(y)
    ensures Substituted(x + y)
    ensures NormalizeKeepingSeparators(x + y) == NormalizeKeepingSeparators(x) + NormalizeKeepingSeparators(y)
    decreases |x|
  {
    assert forall i :: 0 <= i < |x + y| ==> (x + y)[i] == if i < |x| then x[i] else y[i - |x|];
    if x != [] {
      assert (x + y)[1..] == x[1..] + y;
      assert (x + y)[0] == x[0];
      NormalizeKeepingAppend(x[1..], y);
      assert NormalizeKeepingSeparators(x + y) == KeepSeparator(x[0]) + (NormalizeKeepingSeparators(x[1..]) + NormalizeKeepingSeparators(y));
    } else {
      assert x + y == y;
    }
  }

  lemma {:induction false} NormalizeKeepingAscii(s: string)
    requires Substituted(s)
    requires forall i :: 0 <= i < |s| ==> s[i] as int < 128
    ensures NormalizeKeepingSeparators(s) == s
    decreases |s|
  {
    if s != [] {
      NormalizeKeepingAscii(s[1..]);
    }
  }

  /** A clean word is kept whole when every separator is kept. */
  lemma CleanWordKeeps(w: string)
    requires CleanWord(w)
    ensures Substituted(w) && NormalizeKeepingSeparators(w) == w
  {
    assert Substituted(w);
    NormalizeKeepingAscii(w);
  }

  /** With separators kept, a white-space character after a clean word becomes an ASCII one. */
  lemma NormalizeKeepsTrailingSeparator(a: string, c: char)
    requires CleanWord(a) && IsPySpace(c)
    ensures Substituted(a + [c])
    ensures NormalizeKeepingSeparators(a + [c]) == a + [if c as int < 128 then c else ' ']
  {
    CleanWordKeeps(a);
    assert Substituted([c]);
    assert NormalizeKeepingSeparators([c]) == KeepSeparator(c) + NormalizeKeepingSeparators([c][1..]);
    NormalizeKeepingAppend(a, [c]);
  }

  /** With separators kept, a white-space character between two clean words becomes an ASCII one. */
  lemma NormalizeKeepsSeparator(a: string, c: char, b: string)
    requires CleanWord(a) && CleanWord(b) && IsPySpace(c)
    ensures Substituted(a + [c] + b)
    ensures NormalizeKeepingSeparators(a + [c] + b) == a + [if c as int < 128 then c else ' '] + b
  {
    NormalizeKeepsTrailingSeparator(a, c);
    CleanWordKeeps(b);
    NormalizeKeepingAppend(a + [c], b);
  }

  /** Corrected: any white-space character between two words leaves exactly one space between them. */
  lemma SeparatorSplitsWords(a: string, c: char, b: string)
    requires CleanWord(a) && CleanWord(b) && IsPySpace(c)
    ensures CleanTextSeparating(a + [c] + b) == a + " " + b
  {
    var t := a + [c] + b;
    var sp := if c as int < 128 then c else ' ';
    var m := a + [sp] + b;
    assert Substitute(t) == t by {
      assert forall i :: 0 <= i < |t| ==> Substitute(t)[i] == t[i];
    }
    NormalizeKeepsSeparator(a, c, b);
    assert Lower(m) == m by {
      assert forall i :: 0 <= i < |m| ==> Lower(m)[i] == m[i];
    }
    TwoWords(a, sp, b);
  }

  // ---------------------------------------------------------------------
  // Uptime

  datatype Uptime = Uptime(days: nat, hours: nat, minutes: nat, seconds: nat)

  /** The split of `get_api_uptime`, on the whole seconds of the elapsed nanoseconds. */
  function SplitUptime(elapsedNs: nat): (u: Uptime)
    ensures u.hours < 24 && u.minutes < 60 && u.seconds < 60
    ensures u.days * 86400 + u.hours * 3600 + u.minutes * 60 + u.seconds == elapsedNs / 1000000000
  {
    var s := elapsedNs / 1000000000;
    var u := Uptime(s / 86400, (s % 86400) / 3600, (s % 3600) / 60, s % 60);
    SplitArithmetic(s);
    u
  }

  lemma SplitArithmetic(s: nat)
    ensures (s % 86400) / 3600 < 24
    ensures (s / 86400) * 86400 + ((s % 86400) / 3600) * 3600 + ((s % 3600) / 60) * 60 + s % 60 == s
  {
    var d, r := s / 86400, s % 86400;
    var h, r2 := r / 3600, r % 3600;
    assert s == d * 86400 + r;
    assert r == h * 3600 + r2;
    assert r2 == s % 3600 by {
      assert s == (d * 24 + h) * 3600 + r2;
    }
    assert r2 == (r2 / 60) * 60 + r2 % 60;
    assert r2 % 60 == s % 60 by {
      assert s == ((d * 24 + h) * 60 + r2 / 60) * 60 + r2 % 60;
    }
  }

  /** The split is the only one with these bounds: its partner, the sum, determines it. */
  lemma SplitUptimeUnique(elapsedNs: nat, u: Uptime)
    requires u.hours < 24 && u.minutes < 60 && u.seconds < 60
    requires u.days * 86400 + u.hours * 3600 + u.minutes * 60 + u.seconds == elapsedNs / 1000000000
    ensures u == SplitUptime(elapsedNs)
  {
    var s := elapsedNs / 1000000000;
    var below := u.hours * 3600 + u.minutes * 60 + u.seconds;
    assert below < 86400;
    DivModUnique(s, 86400, u.days, below);
    var belowHour := u.minutes * 60 + u.seconds;
    DivModUnique(below, 3600, u.hours, belowHour);
    DivModUnique(s, 3600, u.days * 24 + u.hours, belowHour);
    DivModUnique(belowHour, 60, u.minutes, u.seconds);
    DivModUnique(s, 60, (u.days * 24 + u.hours) * 60 + u.minutes, u.seconds);
  }

  lemma DivModUnique(n: int, d: int, q: int, r: int)
    requires d > 0 && 0 <= r < d && n == q * d + r
    ensures n / d == q && n % d == r
  {
    var q', r' := n / d, n % d;
    assert (q' - q) * d == r - r' by {
      assert q' * d + r' == q * d + r;
      assert (q' - q) * d == q' * d - q * d;
    }
    if q' > q {
      MulAtLeast(q' - q, d);
    } else if q' < q {
      assert (q - q') * d == r' - r;
      MulAtLeast(q - q', d);
    }
  }

  lemma MulAtLeast(k: int, d: int)
    requires k >= 1 && d > 0
    ensures k * d >= d
  {
  }

  /** `f'{days} days, {hours} hours, {minutes} minutes, {seconds} seconds'`. */
  function FormatUptime(u: Uptime): string
  {
    NatToString(u.days) + (" days, " + (NatToString(u.hours) + (" hours, " + (NatToString(u.minutes)
      + (" minutes, " + (NatToString(u.seconds) + " seconds"))))))
  }

  /** The number of leading decimal digits. */
  function DigitRunLength(s: string): (n: nat)
    ensures n <= |s|
    decreases |s|
  {
    if s != [] && IsDigit(s[0]) then 1 + DigitRunLength(s[1..]) else 0
  }

  lemma {:induction false} DigitRunOfPrefix(p: string, x: string)
    requires AllDigits(p) && x != [] && !IsDigit(x[0])
    ensures DigitRunLength(p + x) == |p|
    decreases |p|
  {
    if p != [] {
      assert (p + x)[1..] == p[1..] + x;
      DigitRunOfPrefix(p[1..], x);
    }
  }

  lemma DigitPrefixSplit(p: string, x: string, q: string, y: string)
    requires AllDigits(p) && AllDigits(q)
    requires x != [] && !IsDigit(x[0]) && y != [] && !IsDigit(y[0])
    requires p + x == q + y
    ensures p == q && x == y
  {
    DigitRunOfPrefix(p, x);
    DigitRunOfPrefix(q, y);
    assert p == (p + x)[..|p|] && q == (q + y)[..|q|];
    assert x == (p + x)[|p|..] && y == (q + y)[|q|..];
  }

  lemma NatToStringInjective(a: nat, b: nat)
    requires NatToString(a) == NatToString(b)
    ensures a == b
  {
    NatToStringRoundTrip(a);
    NatToStringRoundTrip(b);
  }

  /** The rendered text determines the uptime: distinct uptimes render differently. */
  lemma FormatUptimeInjective(u: Uptime, v: Uptime)
    requires FormatUptime(u) == FormatUptime(v)
    ensures u == v
  {
    var su := " days, " + (NatToString(u.hours) + (" hours, " + (NatToString(u.minutes)
      + (" minutes, " + (NatToString(u.seconds) + " seconds")))));
    var sv := " days, " + (NatToString(v.hours) + (" hours, " + (NatToString(v.minutes)
      + (" minutes, " + (NatToString(v.seconds) + " seconds")))));
    DigitPrefixSplit(NatToString(u.days), su, NatToString(v.days), sv);
    NatToStringInjective(u.days, v.days);
    var hu := " hours, " + (NatToString(u.minutes) + (" minutes, " + (NatToString(u.seconds) + " seconds")));
    var hv := " hours, " + (NatToString(v.minutes) + (" minutes, " + (NatToString(v.seconds) + " seconds")));
    assert su[7..] == NatToString(u.hours) + hu && sv[7..] == NatToString(v.hours) + hv;
    DigitPrefixSplit(NatToString(u.hours), hu, NatToString(v.hours), hv);
    NatToStringInjective(u.hours, v.hours);
    var mu := " minutes, " + (NatToString(u.seconds) + " seconds");
    var mv := " minutes, " + (NatToString(v.seconds) + " seconds");
    assert hu[8..] == NatToString(u.minutes) + mu && hv[8..] == NatToString(v.minutes) + mv;
    DigitPrefixSplit(NatToString(u.minutes), mu, NatToString(v.minutes), mv);
    NatToStringInjective(u.minutes, v.minutes);
    assert mu[10..] == NatToString(u.seconds) + " seconds" && mv[10..] == NatToString(v.seconds) + " seconds";
    DigitPrefixSplit(NatToString(u.seconds), " seconds", NatToString(v.seconds), " seconds");
    NatToStringInjective(u.seconds, v.seconds);
  }
}
