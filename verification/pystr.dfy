/** The few Python `str` builtins the program leans on, written out over
    `seq<char>`: `lower()`, `lstrip(ch)`, `strip()`, `split()` with no
    separator, `str(int)` and `int(str)`. */
module PyStr {
  import opened Wrappers

  // ---------------------------------------------------------------------------
  // Case and stripping
  // ---------------------------------------------------------------------------

  /** `str.lower()` restricted to ASCII letters; every other character is kept. */
  function LowerChar(c: char): (d: char)
    ensures !('A' <= d <= 'Z')
    ensures d == c || ('A' <= c <= 'Z' && d as int == c as int + 32)
  {
    if 'A' <= c <= 'Z' then (c as int + 32) as char else c
  }

  /** No upper-case ASCII letter survives, each one becomes its lower-case
      partner, and every other character stays where it was. */
  function Lower(s: string): (r: string)
    ensures |r| == |s|
    ensures forall i :: 0 <= i < |r| ==> !('A' <= r[i] <= 'Z')
    ensures forall i :: 0 <= i < |s| ==> r[i] == s[i] || ('A' <= s[i] <= 'Z' && r[i] as int == s[i] as int + 32)
  {
    seq(|s|, i requires 0 <= i < |s| => LowerChar(s[i]))
  }

  /** Lower-casing twice is lower-casing once. */
  lemma LowerIdempotent(s: string)
    ensures Lower(Lower(s)) == Lower(s)
  {
    var r := Lower(s);
    assert forall i :: 0 <= i < |r| ==> LowerChar(r[i]) == r[i];
  }

  /** `s.lstrip(c)` for a single character `c`. */
  function LStrip(s: string, c: char): (r: string)
    ensures |r| <= |s| && r == s[|s| - |r|..]
    ensures |r| > 0 ==> r[0] != c
    ensures forall i :: 0 <= i < |s| - |r| ==> s[i] == c
  {
    if |s| > 0 && s[0] == c then LStrip(s[1..], c) else s
  }

  /** The characters Python's `str.isspace()` accepts (and therefore the ones
      `strip()` and `split()` without arguments treat as separators). */
  predicate IsSpace(c: char) {
    var n := c as int;
    || 0x09 <= n <= 0x0D || 0x1C <= n <= 0x20 || n == 0x85 || n == 0xA0
    || n == 0x1680 || 0x2000 <= n <= 0x200A || n == 0x2028 || n == 0x2029
    || n == 0x202F || n == 0x205F || n == 0x3000
  }

  predicate NoSpace(t: string) {
    forall i :: 0 <= i < |t| ==> !IsSpace(t[i])
  }

  predicate AllSpace(t: string) {
    forall i :: 0 <= i < |t| ==> IsSpace(t[i])
  }

  /** `s.strip()`: drops leading and trailing whitespace, keeps the middle. */
  function Strip(s: string): (r: string)
    ensures |r| == 0 || (!IsSpace(r[0]) && !IsSpace(r[|r| - 1]))
    ensures exists i, j ::
              0 <= i <= j <= |s| && r == s[i..j] && AllSpace(s[..i]) && AllSpace(s[j..])
  {
    var l := StripLeft(s);
    var r := StripRight(l);
    SliceOfSuffix(s, l, r);
    r
  }

  lemma SliceOfSuffix(s: string, l: string, r: string)
    requires |l| <= |s| && l == s[|s| - |l|..]
    requires |r| <= |l| && r == l[..|r|]
    ensures r == s[|s| - |l|..|s| - |l| + |r|]
    ensures s[|s| - |l| + |r|..] == l[|r|..]
  {
  }

  function StripLeft(s: string): (r: string)
    ensures |r| <= |s| && r == s[|s| - |r|..]
    ensures |r| == 0 || !IsSpace(r[0])
    ensures AllSpace(s[..|s| - |r|])
  {
    if |s| > 0 && IsSpace(s[0]) then
      var t := s[1..];
      var r := StripLeft(t);
      assert t[|t| - |r|..] == s[|s| - |r|..];
      LeadingSpaceGrows(s, |s| - |r|);
      r
    else s
  }

  lemma LeadingSpaceGrows(s: string, k: nat)
    requires 0 < k <= |s| && IsSpace(s[0]) && AllSpace(s[1..][..k - 1])
    ensures AllSpace(s[..k])
  {
    forall i | 0 < i < k ensures IsSpace(s[..k][i]) {
      assert s[..k][i] == s[1..][..k - 1][i - 1];
    }
  }

  function StripRight(s: string): (r: string)
    ensures |r| <= |s| && r == s[..|r|]
    ensures |r| == 0 || !IsSpace(r[|r| - 1])
    ensures AllSpace(s[|r|..])
  {
    if |s| > 0 && IsSpace(s[|s| - 1]) then
      var r := StripRight(s[..|s| - 1]);
      TrailingSpaceGrows(s, |r|);
      r
    else s
  }

  lemma TrailingSpaceGrows(s: string, k: nat)
    requires k < |s| && IsSpace(s[|s| - 1]) && AllSpace(s[..|s| - 1][k..])
    ensures AllSpace(s[k..])
  {
    forall i | 0 <= i < |s| - k - 1 ensures IsSpace(s[k..][i]) {
      assert s[k..][i] == s[..|s| - 1][k..][i];
    }
  }

  // ---------------------------------------------------------------------------
  // split()
  // ---------------------------------------------------------------------------

  /** Length of the run of non-whitespace characters at the front of `s`. */
  function TokenLength(s: string): (k: nat)
    ensures k <= |s|
    ensures NoSpace(s[..k])
    ensures k < |s| ==> IsSpace(s[k])
  {
    if |s| == 0 || IsSpace(s[0]) then 0 else 1 + TokenLength(s[1..])
  }

  /** `s.split()` with no separator: the maximal runs of non-whitespace, in order. */
  function Split(s: string): (r: seq<string>)
    ensures forall i :: 0 <= i < |r| ==> |r[i]| > 0 && NoSpace(r[i])
    decreases |s|
  {
    if |s| == 0 then []
    else if IsSpace(s[0]) then Split(s[1..])
    else
      var k := TokenLength(s);
      [s[..k]] + Split(s[k..])
  }

  lemma {:induction false} SplitAllSpace(w: string)
    requires AllSpace(w)
    ensures Split(w) == []
    decreases |w|
  {
    if |w| > 0 {
      SplitAllSpace(w[1..]);
    }
  }

  lemma {:induction false} TokenLengthAppend(a: string, b: string)
    requires TokenLength(a) < |a| || |b| == 0 || IsSpace(b[0])
    ensures TokenLength(a + b) == TokenLength(a)
    decreases |a|
  {
    if |a| > 0 && !IsSpace(a[0]) {
      assert (a + b)[1..] == a[1..] + b;
      TokenLengthAppend(a[1..], b);
    }
  }

  /** Leading whitespace never changes what `split()` returns. */
  lemma {:induction false} SplitIgnoresLeadingSpace(w: string, s: string)
    requires AllSpace(w)
    ensures Split(w + s) == Split(s)
    decreases |w|
  {
    if |w| > 0 {
      assert (w + s)[1..] == w[1..] + s;
      SplitIgnoresLeadingSpace(w[1..], s);
    } else {
      assert w + s == s;
    }
  }

  /** Trailing whitespace never changes what `split()` returns. */
  lemma {:induction false} SplitIgnoresTrailingSpace(s: string, v: string)
    requires AllSpace(v)
    ensures Split(s + v) == Split(s)
    decreases |s|
  {
    if |s| == 0 {
      assert s + v == v;
      SplitAllSpace(v);
    } else if IsSpace(s[0]) {
      assert (s + v)[1..] == s[1..] + v;
      SplitIgnoresTrailingSpace(s[1..], v);
    } else {
      var k := TokenLength(s);
      TokenLengthAppend(s, v);
      assert (s + v)[..k] == s[..k];
      assert (s + v)[k..] == s[k..] + v;
      SplitIgnoresTrailingSpace(s[k..], v);
    }
  }

  /** `strip()` before `split()` is a no-op: the probe's `strip().split()`
      yields exactly the tokens of the raw output. */
  lemma SplitAfterStrip(s: string)
    ensures Split(Strip(s)) == Split(s)
  {
    var i, j :| 0 <= i <= j <= |s| && Strip(s) == s[i..j]
                && AllSpace(s[..i]) && AllSpace(s[j..]);
    assert s == s[..i] + (s[i..j] + s[j..]);
    SplitIgnoresLeadingSpace(s[..i], s[i..j] + s[j..]);
    SplitIgnoresTrailingSpace(s[i..j], s[j..]);
  }

  /** Two whitespace-free words joined by one space split back into those two words. */
  lemma SplitTwoWords(a: string, b: string)
    requires |a| > 0 && |b| > 0 && NoSpace(a) && NoSpace(b)
    ensures Split(a + " " + b) == [a, b]
  {
    var s := a + " " + b;
    TokenLengthAppend(a, " " + b);
    assert TokenLength(a) == |a| by {
      TokenLengthAll(a);
    }
    assert s == a + (" " + b);
    assert s[..|a|] == a;
    assert s[|a|..] == " " + b;
    assert Split(" " + b) == Split(b);
    TokenLengthAll(b);
    assert b[..|b|] == b;
    assert Split(b) == [b] + Split(b[|b|..]);
  }

  lemma {:induction false} TokenLengthAll(a: string)
    requires NoSpace(a)
    ensures TokenLength(a) == |a|
    decreases |a|
  {
    if |a| > 0 {
      TokenLengthAll(a[1..]);
    }
  }

  /** `gaps[0] + words[0] + gaps[1] + ... + words[n-1] + gaps[n]`. */
  function Interleave(gaps: seq<string>, words: seq<string>): string
    requires |gaps| == |words| + 1
    decreases |words|
  {
    if |words| == 0 then gaps[0] else gaps[0] + words[0] + Interleave(gaps[1..], words[1..])
  }

  /** Whitespace gaps around and between words: the outer two may be empty,
      the inner ones may not. */
  predicate Separators(gaps: seq<string>) {
    && (forall i :: 0 <= i < |gaps| ==> AllSpace(gaps[i]))
    && (forall i :: 0 < i < |gaps| - 1 ==> |gaps[i]| > 0)
  }

  predicate Words(words: seq<string>) {
    forall i :: 0 <= i < |words| ==> |words[i]| > 0 && NoSpace(words[i])
  }

  /** Words set apart by whitespace split back into exactly those words, in
      order. */
  lemma {:induction false} SplitOfInterleave(gaps: seq<string>, words: seq<string>)
    requires |gaps| == |words| + 1 && Separators(gaps) && Words(words)
    ensures Split(Interleave(gaps, words)) == words
    decreases |words|
  {
    if |words| == 0 {
      SplitAllSpace(gaps[0]);
    } else {
      var w := words[0];
      var rest := Interleave(gaps[1..], words[1..]);
      assert Separators(gaps[1..]) by {
        forall i | 0 <= i < |gaps[1..]| ensures AllSpace(gaps[1..][i]) {
          assert gaps[1..][i] == gaps[i + 1];
        }
        forall i | 0 < i < |gaps[1..]| - 1 ensures |gaps[1..][i]| > 0 {
          assert gaps[1..][i] == gaps[i + 1];
        }
      }
      assert Words(words[1..]) by {
        forall i | 0 <= i < |words[1..]| ensures |words[1..][i]| > 0 && NoSpace(words[1..][i]) {
          assert words[1..][i] == words[i + 1];
        }
      }
      SplitOfInterleave(gaps[1..], words[1..]);
      RestStartsWithSpace(gaps[1..], words[1..]);
      assert gaps[0] + w + rest == gaps[0] + (w + rest);
      SplitIgnoresLeadingSpace(gaps[0], w + rest);
      SplitWordThenRest(w, rest);
    }
  }

  /** What follows a word starts with whitespace or is empty. */
  lemma RestStartsWithSpace(gaps: seq<string>, words: seq<string>)
    requires |gaps| == |words| + 1 && Separators(gaps)
    requires |words| > 0 ==> |gaps[0]| > 0
    ensures var rest := Interleave(gaps, words); |rest| == 0 || IsSpace(rest[0])
  {
    if |words| > 0 {
      var g := gaps[0];
      assert Interleave(gaps, words)[0] == g[0];
    }
  }

  lemma SplitWordThenRest(w: string, rest: string)
    requires |w| > 0 && NoSpace(w)
    requires |rest| == 0 || IsSpace(rest[0])
    ensures Split(w + rest) == [w] + Split(rest)
  {
    TokenLengthAll(w);
    TokenLengthAppend(w, rest);
    assert (w + rest)[..|w|] == w;
    assert (w + rest)[|w|..] == rest;
  }

  /** Every string is its `split()` words set apart by whitespace gaps. */
  lemma SplitDecomposes(s: string)
    ensures exists gaps :: |gaps| == |Split(s)| + 1 && Separators(gaps) && s == Interleave(gaps, Split(s))
  {
    var gaps := GapsOf(s);
  }

  /** The whitespace gaps around the words of `s`. */
  lemma {:induction false} GapsOf(s: string) returns (gaps: seq<string>)
    ensures |gaps| == |Split(s)| + 1 && Separators(gaps) && s == Interleave(gaps, Split(s))
    decreases |s|
  {
    if |s| == 0 {
      gaps := [""];
      assert s == Interleave(gaps, Split(s));
    } else if IsSpace(s[0]) {
      var g := GapsOf(s[1..]);
      LeadingSpaceCase(s, g);
      gaps := [[s[0]] + g[0]] + g[1..];
    } else {
      var g := GapsOf(s[TokenLength(s)..]);
      gaps := LeadingTokenCase(s, g);
    }
  }

  lemma LeadingTokenCase(s: string, g: seq<string>) returns (gaps: seq<string>)
    requires |s| > 0 && !IsSpace(s[0])
    requires var t := s[TokenLength(s)..];
             |g| == |Split(t)| + 1 && Separators(g) && t == Interleave(g, Split(t))
    ensures |gaps| == |Split(s)| + 1 && Separators(gaps) && s == Interleave(gaps, Split(s))
  {
    var k := TokenLength(s);
    LeadingWordCase(s[..k], s[k..], g);
    assert s == s[..k] + s[k..];
    gaps := [""] + g;
  }

  lemma LeadingSpaceCase(s: string, gaps: seq<string>)
    requires |s| > 0 && IsSpace(s[0])
    requires |gaps| == |Split(s[1..])| + 1 && Separators(gaps) && s[1..] == Interleave(gaps, Split(s[1..]))
    ensures var gaps' := [[s[0]] + gaps[0]] + gaps[1..];
            |gaps'| == |Split(s)| + 1 && Separators(gaps') && s == Interleave(gaps', Split(s))
  {
    var words := Split(s[1..]);
    var gaps' := [[s[0]] + gaps[0]] + gaps[1..];
    PrependToFirstGap(s[0], gaps, words);
    assert s == [s[0]] + s[1..];
    assert forall i :: 0 < i < |gaps'| ==> gaps'[i] == gaps[i];
    assert AllSpace(gaps'[0]) by {
      forall k | 0 <= k < |gaps'[0]| ensures IsSpace(gaps'[0][k]) {
        if k > 0 {
          assert gaps'[0][k] == gaps[0][k - 1];
        }
      }
    }
  }

  lemma LeadingWordCase(w: string, t: string, gaps: seq<string>)
    requires |w| > 0 && NoSpace(w) && (|t| == 0 || IsSpace(t[0]))
    requires |gaps| == |Split(t)| + 1 && Separators(gaps) && t == Interleave(gaps, Split(t))
    ensures var gaps' := [""] + gaps;
            |gaps'| == |Split(w + t)| + 1 && Separators(gaps') && w + t == Interleave(gaps', Split(w + t))
  {
    var words := Split(t);
    SplitWordThenRest(w, t);
    assert |words| > 0 ==> |gaps[0]| > 0 by {
      if |words| > 0 {
        FirstCharOfInterleave(gaps, words);
      }
    }
    WordBeforeGaps(w, gaps, words);
  }

  lemma FirstCharOfInterleave(gaps: seq<string>, words: seq<string>)
    requires |gaps| == |words| + 1 && |words| > 0 && |words[0]| > 0
    ensures |Interleave(gaps, words)| > 0
    ensures Interleave(gaps, words)[0] == if |gaps[0]| > 0 then gaps[0][0] else words[0][0]
  {
    assert Interleave(gaps, words) == gaps[0] + words[0] + Interleave(gaps[1..], words[1..]);
  }

  /** A word in front of a decomposition that opens with a non-empty gap
      (or has no words) extends it with an empty outer gap. */
  lemma WordBeforeGaps(w: string, gaps: seq<string>, words: seq<string>)
    requires |gaps| == |words| + 1 && Separators(gaps)
    requires |words| > 0 ==> |gaps[0]| > 0
    ensures Separators([""] + gaps)
    ensures Interleave([""] + gaps, [w] + words) == w + Interleave(gaps, words)
  {
    EmptyGapInFront(gaps);
    WordInFront(w, gaps, words);
  }

  lemma EmptyGapInFront(gaps: seq<string>)
    requires |gaps| > 0 && Separators(gaps)
    requires |gaps| > 1 ==> |gaps[0]| > 0
    ensures Separators([""] + gaps)
  {
    var gaps' := [""] + gaps;
    forall i | 0 < i < |gaps'| ensures gaps'[i] == gaps[i - 1] {
    }
  }

  lemma WordInFront(w: string, gaps: seq<string>, words: seq<string>)
    requires |gaps| == |words| + 1
    ensures Interleave([""] + gaps, [w] + words) == w + Interleave(gaps, words)
  {
    var gaps', words' := [""] + gaps, [w] + words;
    assert gaps'[1..] == gaps && words'[1..] == words;
    assert gaps'[0] + words'[0] == w;
    assert Interleave(gaps', words') == gaps'[0] + words'[0] + Interleave(gaps'[1..], words'[1..]);
  }

  /** Prepending a whitespace character to a decomposed string widens its
      first gap. */
  lemma PrependToFirstGap(c: char, gaps: seq<string>, words: seq<string>)
    requires |gaps| == |words| + 1
    ensures Interleave([[c] + gaps[0]] + gaps[1..], words) == [c] + Interleave(gaps, words)
  {
    var gaps' := [[c] + gaps[0]] + gaps[1..];
    assert gaps'[1..] == gaps[1..];
  }

  // ---------------------------------------------------------------------------
  // str(int) and int(str)
  // ---------------------------------------------------------------------------

  predicate IsDigit(c: char) {
    '0' <= c <= '9'
  }

  function DigitChar(d: nat): (c: char)
    requires d < 10
    ensures IsDigit(c)
  {
    ('0' as int + d) as char
  }

  function DigitValue(c: char): (d: nat)
    requires IsDigit(c)
    ensures d < 10 && DigitChar(d) == c
  {
    c as int - '0' as int
  }

  /** Decimal `str(n)` of a natural number: no sign, no leading zeros. */
  function NatToString(n: nat): (s: string)
    ensures |s| > 0 && (forall i :: 0 <= i < |s| ==> IsDigit(s[i]))
    // canonical: no leading zero, except for zero itself
    ensures s[0] == '0' <==> n == 0
    ensures n == 0 ==> s == "0"
  {
    if n < 10 then [DigitChar(n)] else NatToString(n / 10) + [DigitChar(n % 10)]
  }

  /** Python's `str(n)` for an `int`. */
  function IntToString(n: int): (s: string)
    ensures |s| > 0 && NoSpace(s)
    // a minus sign exactly for negatives, then the digits with no leading zero
    ensures s[0] == '-' <==> n < 0
    ensures var digits := if n < 0 then s[1..] else s;
            && |digits| > 0 && (forall i :: 0 <= i < |digits| ==> IsDigit(digits[i]))
            && (digits[0] == '0' <==> n == 0)
  {
    if n < 0 then "-" + NatToString(-n) else NatToString(n)
  }

  predicate DigitsOrUnderscores(s: string) {
    forall i :: 0 <= i < |s| ==> IsDigit(s[i]) || s[i] == '_'
  }

  predicate NoDoubleUnderscore(s: string) {
    forall i :: 0 < i < |s| ==> s[i] == '_' ==> s[i - 1] != '_'
  }

  /** Digits with single underscores strictly between them, as `int()` accepts. */
  predicate DecimalLiteral(s: string) {
    && |s| > 0
    && DigitsOrUnderscores(s)
    && IsDigit(s[0])
    && IsDigit(s[|s| - 1])
    && NoDoubleUnderscore(s)
  }

  function DigitsValue(s: string): nat
    requires DigitsOrUnderscores(s)
  {
    if |s| == 0 then 0
    else if s[|s| - 1] == '_' then DigitsValue(s[..|s| - 1])
    else 10 * DigitsValue(s[..|s| - 1]) + DigitValue(s[|s| - 1])
  }

  /** Python's `int(s)` for a whitespace-free token: an optional sign followed
      by a decimal literal; anything else is the `ValueError` case (`None`). */
  function ParseInt(s: string): (r: Option<int>)
    ensures r.Some? ==> |s| > 0 && IsDigit(s[|s| - 1])
    ensures r.Some? && IsDigit(s[0]) ==> r.value >= 0
    ensures r.Some? && s[0] == '-' ==> r.value <= 0
  {
    if |s| > 0 && (s[0] == '+' || s[0] == '-') then
      var body := s[1..];
      if DecimalLiteral(body) then
        Some(if s[0] == '-' then -(DigitsValue(body) as int) else DigitsValue(body))
      else None
    else if DecimalLiteral(s) then Some(DigitsValue(s))
    else None
  }

  lemma {:induction false} NatToStringValue(n: nat)
    ensures DecimalLiteral(NatToString(n))
    ensures DigitsValue(NatToString(n)) == n
  {
    var s := NatToString(n);
    if n >= 10 {
      NatToStringValue(n / 10);
      var p := NatToString(n / 10);
      assert s[..|s| - 1] == p;
    }
  }

  /** `int(str(n)) == n` for every integer. */
  lemma ParseIntToString(n: int)
    ensures ParseInt(IntToString(n)) == Some(n)
  {
    if n < 0 {
      NatToStringValue(-n);
      ParseNegative(NatToString(-n));
    } else {
      NatToStringValue(n);
      ParseUnsigned(NatToString(n));
    }
  }

  lemma ParseUnsigned(s: string)
    requires DecimalLiteral(s)
    ensures ParseInt(s) == Some(DigitsValue(s) as int)
  {
    assert IsDigit(s[0]);
  }

  lemma ParseNegative(s: string)
    requires DecimalLiteral(s)
    ensures ParseInt("-" + s) == Some(-(DigitsValue(s) as int))
  {
    var t := "-" + s;
    assert t[0] == '-';
    assert t[1..] == s;
  }

  /** A sign in front of an unsigned literal negates it (`-`) or leaves it
      alone (`+`). */
  lemma ParseIntSign(d: string)
    requires |d| > 0 && IsDigit(d[0]) && ParseInt(d).Some?
    ensures ParseInt("-" + d) == Some(-ParseInt(d).value)
    ensures ParseInt("+" + d) == ParseInt(d)
  {
    ParseNegative(d);
    var t := "+" + d;
    assert t[0] == '+' && t[1..] == d;
  }
}
