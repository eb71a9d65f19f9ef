/**
  The parts of Python's built-in `str` behaviour that the backend relies on:
  `isspace`, `strip()`, `split()`, the `in` substring test, `str(int)` and
  the `:02d` format, each with the property that pins it down.
 */
module Strings {

  /** Python's `str.isspace()` for one character (Unicode whitespace as Python defines it). */
  predicate IsSpace(c: char) {
    || ('\t' <= c <= '\r')
    || ('\U{1C}' <= c <= ' ')
    || c == '\U{85}' || c == '\U{A0}' || c == '\U{1680}'
    || ('\U{2000}' <= c <= '\U{200A}')
    || c == '\U{2028}' || c == '\U{2029}' || c == '\U{202F}' || c == '\U{205F}' || c == '\U{3000}'
  }

  predicate AllSpace(s: string) {
    forall k :: 0 <= k < |s| ==> IsSpace(s[k])
  }

  /** A token of `split()`: non-empty and free of whitespace. */
  predicate IsWord(w: string) {
    w != [] && forall k :: 0 <= k < |w| ==> !IsSpace(w[k])
  }

  // ---------------------------------------------------------------- strip

  /** `lstrip()`: what is dropped is whitespace, and what is kept does not start with it. */
  function TrimStart(s: string): (r: string)
    ensures |r| <= |s| && r == s[|s| - |r|..]
    ensures r == [] || !IsSpace(r[0])
    ensures forall k :: 0 <= k < |s| - |r| ==> IsSpace(s[k])
  {
    if s != [] && IsSpace(s[0]) then TrimStart(s[1..]) else s
  }

  /** `rstrip()`: what is dropped is whitespace, and what is kept does not end with it. */
  function TrimEnd(s: string): (r: string)
    ensures |r| <= |s| && r == s[..|r|]
    ensures r == [] || !IsSpace(r[|r| - 1])
    ensures forall k :: |r| <= k < |s| ==> IsSpace(s[k])
  {
    if s != [] && IsSpace(s[|s| - 1]) then TrimEnd(s[..|s| - 1]) else s
  }

  /** r is s with a whitespace-only prefix of length a and a whitespace-only suffix removed,
      and r neither starts nor ends with whitespace. */
  ghost predicate IsStripOf(s: string, r: string, a: nat) {
    && a + |r| <= |s|
    && r == s[a..a + |r|]
    && AllSpace(s[..a])
    && AllSpace(s[a + |r|..])
    && (r == [] || (!IsSpace(r[0]) && !IsSpace(r[|r| - 1])))
  }

  /** Python's `s.strip()` with no argument. */
  function Strip(s: string): (r: string)
    ensures exists a: nat :: IsStripOf(s, r, a)
  {
    var t := TrimStart(s);
    var r := TrimEnd(t);
    assert IsStripOf(s, r, |s| - |t|) by {
      assert s[|s| - |t|..][..|r|] == r;
      assert s[|s| - |t| + |r|..] == t[|r|..];
      assert AllSpace(s[..|s| - |t|]);
      assert AllSpace(t[|r|..]);
    }
    r
  }

  /** Outside the kept part everything is whitespace, and the kept part's ends are not. */
  lemma StripOfBounds(s: string, r: string, a: nat)
    requires IsStripOf(s, r, a)
    ensures forall k :: 0 <= k < a ==> IsSpace(s[k])
    ensures forall k :: a + |r| <= k < |s| ==> IsSpace(s[k])
    ensures r != [] ==> !IsSpace(s[a]) && !IsSpace(s[a + |r| - 1])
  {
    assert forall k :: 0 <= k < a ==> s[k] == s[..a][k];
    assert forall k :: a + |r| <= k < |s| ==> s[k] == s[a + |r|..][k - a - |r|];
  }

  /** `strip()` has one result: any two ways of removing outer whitespace agree. */
  lemma StripOfUnique(s: string, r1: string, a1: nat, r2: string, a2: nat)
    requires IsStripOf(s, r1, a1) && IsStripOf(s, r2, a2)
    ensures r1 == r2
  {
    StripOfBounds(s, r1, a1);
    StripOfBounds(s, r2, a2);
    if r1 != [] && r2 != [] {
      assert a1 == a2;
      assert |r1| == |r2|;
    }
  }

  // ---------------------------------------------------------------- split

  /** Length of the longest whitespace-free prefix of s. */
  function WordLength(s: string): (n: nat)
    ensures n <= |s|
    ensures forall k :: 0 <= k < n ==> !IsSpace(s[k])
    ensures n == |s| || IsSpace(s[n])
  {
    if s == [] || IsSpace(s[0]) then 0 else 1 + WordLength(s[1..])
  }

  /** Python's `s.split()` with no argument: the maximal whitespace-free runs, in order. */
  function Split(s: string): (words: seq<string>)
    ensures forall i :: 0 <= i < |words| ==> IsWord(words[i])
    decreases |s|
  {
    if s == [] then []
    else if IsSpace(s[0]) then Split(s[1..])
    else
      var n := WordLength(s);
      [s[..n]] + Split(s[n..])
  }

  /** `" ".join(words)`, the reference that `split()` undoes. */
  function Unwords(words: seq<string>): string {
    if |words| == 0 then ""
    else if |words| == 1 then words[0]
    else words[0] + " " + Unwords(words[1..])
  }

  lemma {:induction false} WordLengthStopsInside(s: string, t: string)
    requires WordLength(s) < |s|
    ensures WordLength(s + t) == WordLength(s)
  {
    if !IsSpace(s[0]) {
      assert (s + t)[1..] == s[1..] + t;
      WordLengthStopsInside(s[1..], t);
    }
  }

  lemma {:induction false} WordLengthStopsAtSpace(s: string, t: string)
    requires WordLength(s) == |s|
    requires t == [] || IsSpace(t[0])
    ensures WordLength(s + t) == |s|
  {
    if s == [] {
      assert s + t == t;
    } else {
      assert (s + t)[1..] == s[1..] + t;
      WordLengthStopsAtSpace(s[1..], t);
    }
  }

  lemma {:induction false} SplitAllSpace(w: string)
    requires AllSpace(w)
    ensures Split(w) == []
    decreases |w|
  {
    if w != [] {
      SplitAllSpace(w[1..]);
    }
  }

  /** A word followed by whitespace-free text: the first word is the longest prefix. */
  lemma SplitNonSpaceStart(s: string)
    requires s != [] && !IsSpace(s[0])
    ensures Split(s) == [s[..WordLength(s)]] + Split(s[WordLength(s)..])
  {
  }

  /** Trailing whitespace never changes the words. */
  lemma {:induction false} SplitAppendSpace(s: string, w: string)
    requires AllSpace(w)
    ensures Split(s + w) == Split(s)
    decreases |s|
  {
    if s == [] {
      assert s + w == w;
      SplitAllSpace(w);
    } else if IsSpace(s[0]) {
      assert (s + w)[1..] == s[1..] + w;
      SplitAppendSpace(s[1..], w);
    } else if WordLength(s) < |s| {
      var n := WordLength(s);
      WordLengthStopsInside(s, w);
      SplitAppendSpace(s[n..], w);
      SplitAppendSpaceAfterWord(s, w);
    } else {
      SplitAppendSpaceToWord(s, w);
    }
  }

  lemma SplitAppendSpaceAfterWord(s: string, w: string)
    requires s != [] && !IsSpace(s[0]) && WordLength(s) < |s|
    requires WordLength(s + w) == WordLength(s)
    requires Split(s[WordLength(s)..] + w) == Split(s[WordLength(s)..])
    ensures Split(s + w) == Split(s)
  {
    var n := WordLength(s);
    SplitNonSpaceStart(s);
    SplitNonSpaceStart(s + w);
    assert (s + w)[..n] == s[..n];
    assert (s + w)[n..] == s[n..] + w;
  }

  lemma SplitAppendSpaceToWord(s: string, w: string)
    requires s != [] && !IsSpace(s[0]) && WordLength(s) == |s|
    requires AllSpace(w)
    ensures Split(s + w) == Split(s)
  {
    if w == [] {
      assert s + w == s;
    } else {
      var n := |s|;
      WordLengthStopsAtSpace(s, w);
      assert (s + w)[..n] == s;
      assert (s + w)[n..] == w;
      SplitAllSpace(w);
      assert Split(s + w) == [s] + Split(w) == [s];
      assert s[..n] == s && s[n..] == [];
      assert Split(s) == [s] + Split([]);
    }
  }

  /** Splitting distributes over a concatenation whose left part is empty or ends in whitespace. */
  lemma {:induction false} SplitConcat(a: string, b: string)
    requires a == [] || IsSpace(a[|a| - 1])
    ensures Split(a + b) == Split(a) + Split(b)
    decreases |a|
  {
    if a == [] {
      assert a + b == b;
    } else if IsSpace(a[0]) {
      if |a| > 1 {
        assert a[1..][|a| - 2] == a[|a| - 1];
        SplitConcat(a[1..], b);
      }
      SplitConcatSpaceFirst(a, b);
    } else {
      var n := WordLength(a);
      assert a[n..][|a| - n - 1] == a[|a| - 1];
      SplitConcat(a[n..], b);
      SplitConcatWordFirst(a, b);
    }
  }

  lemma SplitConcatSpaceFirst(a: string, b: string)
    requires a != [] && IsSpace(a[0])
    requires |a| == 1 || Split(a[1..] + b) == Split(a[1..]) + Split(b)
    ensures Split(a + b) == Split(a) + Split(b)
  {
    assert (a + b)[0] == a[0];
    assert (a + b)[1..] == a[1..] + b;
    if |a| == 1 {
      assert a[1..] + b == b;
      assert a[1..] == [];
    }
  }

  lemma SplitConcatWordFirst(a: string, b: string)
    requires a != [] && !IsSpace(a[0]) && IsSpace(a[|a| - 1])
    requires Split(a[WordLength(a)..] + b) == Split(a[WordLength(a)..]) + Split(b)
    ensures Split(a + b) == Split(a) + Split(b)
  {
    var n := WordLength(a);
    assert n < |a|;
    WordLengthStopsInside(a, b);
    assert WordLength(a + b) == n;
    assert (a + b)[0] == a[0];
    SplitNonSpaceStart(a);
    SplitNonSpaceStart(a + b);
    assert (a + b)[..n] == a[..n];
    assert (a + b)[n..] == a[n..] + b;
    var w := a[..n];
    assert Split(a) == [w] + Split(a[n..]);
    assert Split(a + b) == [w] + (Split(a[n..]) + Split(b));
    assert [w] + (Split(a[n..]) + Split(b)) == ([w] + Split(a[n..])) + Split(b);
  }

  /** Leading whitespace never changes the words. */
  lemma SplitPrependSpace(w: string, s: string)
    requires AllSpace(w)
    ensures Split(w + s) == Split(s)
  {
    if w != [] {
      SplitConcat(w, s);
      SplitAllSpace(w);
    } else {
      assert w + s == s;
    }
  }

  lemma SplitTrimStart(s: string)
    ensures Split(TrimStart(s)) == Split(s)
  {
    var t := TrimStart(s);
    var lead := s[..|s| - |t|];
    assert AllSpace(lead);
    assert s == lead + t;
    SplitPrependSpace(lead, t);
  }

  lemma SplitTrimEnd(t: string)
    ensures Split(TrimEnd(t)) == Split(t)
  {
    var r := TrimEnd(t);
    var trail := t[|r|..];
    assert AllSpace(trail);
    assert t == r + trail;
    SplitAppendSpace(r, trail);
  }

  /** `strip()` keeps every word: `s.strip().split() == s.split()`. */
  lemma SplitStrip(s: string)
    ensures Split(Strip(s)) == Split(s)
  {
    assert Strip(s) == TrimEnd(TrimStart(s));
    SplitTrimStart(s);
    SplitTrimEnd(TrimStart(s));
  }

  lemma WordIsItsOwnSplit(w: string)
    requires IsWord(w)
    ensures Split(w) == [w]
  {
    assert WordLength(w) == |w|;
    assert w[..|w|] == w;
    assert w[|w|..] == [];
  }

  /** Round trip: splitting words joined by single spaces gives the words back. */
  lemma {:induction false} SplitUnwords(words: seq<string>)
    requires forall i :: 0 <= i < |words| ==> IsWord(words[i])
    ensures Split(Unwords(words)) == words
  {
    if |words| == 1 {
      WordIsItsOwnSplit(words[0]);
    } else if |words| > 1 {
      var w := words[0];
      SplitConcat(w + " ", Unwords(words[1..]));
      SplitAppendSpace(w, " ");
      WordIsItsOwnSplit(w);
      SplitUnwords(words[1..]);
    }
  }

  // ---------------------------------------------------------------- substring test

  predicate OccursAt(s: string, i: nat, p: string) {
    i + |p| <= |s| && s[i..i + |p|] == p
  }

  function ContainsFrom(s: string, sub: string, i: nat): (b: bool)
    ensures b <==> exists j: nat :: i <= j && OccursAt(s, j, sub)
    decreases |s| - i
  {
    if i + |sub| > |s| then false
    else OccursAt(s, i, sub) || ContainsFrom(s, sub, i + 1)
  }

  /** Python's `sub in s`. */
  function Contains(s: string, sub: string): (b: bool)
    ensures b <==> exists j: nat :: OccursAt(s, j, sub)
  {
    ContainsFrom(s, sub, 0)
  }

  // ---------------------------------------------------------------- integers as text

  predicate IsDigit(c: char) {
    '0' <= c <= '9'
  }

  predicate AllDigits(s: string) {
    forall k :: 0 <= k < |s| ==> IsDigit(s[k])
  }

  function DigitChar(d: nat): (c: char)
    requires d < 10
    ensures IsDigit(c) && (c == '0' <==> d == 0)
  {
    ('0' as int + d) as char
  }

  function DigitValue(c: char): nat {
    if IsDigit(c) then c as int - '0' as int else 0
  }

  /** The value of a string of decimal digits, the reference that `NatToString` is checked against. */
  function DigitsValue(s: string): nat {
    if s == [] then 0 else DigitsValue(s[..|s| - 1]) * 10 + DigitValue(s[|s| - 1])
  }

  /** Python's `str(n)` for n >= 0: decimal digits without leading zeros. */
  function NatToString(n: nat): (s: string)
    ensures s != [] && AllDigits(s)
    ensures s[0] == '0' <==> n == 0
    ensures n == 0 ==> s == "0"
  {
    if n < 10 then [DigitChar(n)] else NatToString(n / 10) + [DigitChar(n % 10)]
  }

  lemma {:induction false} NatToStringRoundTrip(n: nat)
    ensures DigitsValue(NatToString(n)) == n
  {
    if n >= 10 {
      var s := NatToString(n);
      assert s[..|s| - 1] == NatToString(n / 10);
      NatToStringRoundTrip(n / 10);
      assert DigitValue(DigitChar(n % 10)) == n % 10;
    } else {
      assert DigitValue(DigitChar(n)) == n;
      assert NatToString(n)[..0] == [];
    }
  }

  /** Decimal text of an integer: digits, or a minus sign followed by digits. */
  predicate IsIntText(s: string) {
    || (s != [] && AllDigits(s))
    || (|s| >= 2 && s[0] == '-' && AllDigits(s[1..]))
  }

  /** Python's `str(i)` (and the `{i}` f-string field) for any integer. */
  function IntToString(i: int): (s: string)
    ensures IsIntText(s)
    ensures s[0] == '-' <==> i < 0
    ensures i < 0 ==> s[1..] == NatToString(-i)
    ensures i >= 0 ==> s == NatToString(i)
  {
    if i < 0 then "-" + NatToString(-i) else NatToString(i)
  }

  function IntValue(s: string): int {
    if s != [] && s[0] == '-' then 0 - DigitsValue(s[1..]) else DigitsValue(s)
  }

  lemma IntToStringRoundTrip(i: int)
    ensures IntValue(IntToString(i)) == i
  {
    if i < 0 {
      NatToStringRoundTrip(-i);
      assert IntToString(i)[1..] == NatToString(-i);
    } else {
      NatToStringRoundTrip(i);
    }
  }

  /** Python's `f"{n:02d}"` for n >= 0: at least two digits, padded with a leading zero. */
  function ZeroPad2(n: nat): (s: string)
    ensures AllDigits(s)
    ensures n < 100 ==> |s| == 2
  {
    if n < 10 then "0" + NatToString(n)
    else
      assert n < 100 ==> |NatToString(n)| == |NatToString(n / 10)| + 1 == 2;
      NatToString(n)
  }

  lemma ZeroPad2RoundTrip(n: nat)
    ensures DigitsValue(ZeroPad2(n)) == n
  {
    NatToStringRoundTrip(n);
    if n < 10 {
      var s := ZeroPad2(n);
      assert s[..1] == "0";
      assert s[1] == NatToString(n)[0];
      assert DigitsValue("0") == 0 by {
        assert "0"[..0] == [];
      }
      assert NatToString(n) == [NatToString(n)[0]];
      assert NatToString(n)[..0] == [];
    }
  }
}
