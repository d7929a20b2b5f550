/** Character classes, trimming, tokenising and numeral parsing on ASCII text:
    the pieces of Python's `str.strip`, `str.lower`, `str.split`, `float` and
    `re.findall(r"\d+\.?\d*", …)`, SQL's `lower(trim(…))` and JavaScript's
    `Number(…)` that the backend and the frontend rely on. */
module Numerals {
  import opened Wrappers

  predicate IsDigit(c: char) { '0' <= c <= '9' }

  /** Python's `str.isspace` restricted to ASCII. */
  predicate IsSpace(c: char) { c as int in {9, 10, 11, 12, 13, 28, 29, 30, 31, 32} }

  /** The only character SQL's `trim` removes by default. */
  predicate IsBlank(c: char) { c == ' ' }

  predicate IsUpper(c: char) { 'A' <= c <= 'Z' }

  predicate AllDigits(s: string) { forall i :: 0 <= i < |s| ==> IsDigit(s[i]) }

  predicate NoneSatisfy(s: string, p: char -> bool) { forall i :: 0 <= i < |s| ==> !p(s[i]) }

  predicate NotSpace(c: char) { !IsSpace(c) }

  predicate NotDigit(c: char) { !IsDigit(c) }

  function DigitValue(c: char): (d: nat)
    requires IsDigit(c)
    ensures d < 10
  {
    c as int - '0' as int
  }

  /** The value of a string of decimal digits, most significant first. */
  function NatValue(s: string): nat
    requires AllDigits(s)
  {
    if s == [] then 0 else NatValue(s[..|s| - 1]) * 10 + DigitValue(s[|s| - 1])
  }

  function Pow10(n: nat): (r: nat)
    ensures r >= 1
  {
    if n == 0 then 1 else 10 * Pow10(n - 1)
  }

  /** ASCII lower-casing of one character. */
  function LowerChar(c: char): (d: char)
    ensures !IsUpper(d)
    ensures IsUpper(c) ==> d as int == c as int + 32
    ensures !IsUpper(c) ==> d == c
  {
    if IsUpper(c) then (c as int + 32) as char else c
  }

  /** `s.lower()` for ASCII text. */
  function Lower(s: string): (r: string)
    ensures |r| == |s|
  {
    if s == [] then [] else [LowerChar(s[0])] + Lower(s[1..])
  }

  /** `Lower` works character by character. */
  lemma {:induction false} LowerAt(s: string)
    ensures forall i :: 0 <= i < |s| ==> Lower(s)[i] == LowerChar(s[i])
  {
    if s != [] {
      LowerAt(s[1..]);
      assert forall i :: 0 < i < |s| ==> Lower(s)[i] == Lower(s[1..])[i - 1];
    }
  }

  /** Drops the leading characters that satisfy `p`: what is left is the
      suffix of `s` after its longest `p`-prefix. */
  function StripLeft(s: string, p: char -> bool): (r: string)
    ensures |r| <= |s|
    ensures |s| - |r| == PrefixLen(s, p)
    ensures r != [] ==> !p(r[0]) && !p(s[|s| - |r|])
    ensures forall i :: 0 <= i < |s| - |r| ==> p(s[i])
  {
    if s != [] && p(s[0]) then StripLeft(s[1..], p) else s
  }

  /** What `StripLeft` keeps is the suffix of `s` after its `p`-prefix,
      character for character. */
  lemma {:induction false} StripLeftIsSuffix(s: string, p: char -> bool)
    ensures StripLeft(s, p) == s[PrefixLen(s, p)..]
  {
    if s != [] && p(s[0]) {
      StripLeftIsSuffix(s[1..], p);
      assert s[1..][PrefixLen(s[1..], p)..] == s[PrefixLen(s, p)..];
    }
  }

  /** Drops the trailing characters that satisfy `p`: what is left is the
      prefix of `s` before its longest `p`-suffix. */
  function StripRight(s: string, p: char -> bool): (r: string)
    ensures |r| <= |s|
    ensures r != [] ==> r[0] == s[0] && !p(r[|r| - 1])
    ensures forall i :: |r| <= i < |s| ==> p(s[i])
  {
    if s != [] && p(s[|s| - 1]) then StripRight(s[..|s| - 1], p) else s
  }

  /** What `StripRight` keeps is a prefix of `s`, character for character. */
  lemma {:induction false} StripRightIsPrefix(s: string, p: char -> bool)
    ensures StripRight(s, p) == s[..|StripRight(s, p)|]
  {
    if s != [] && p(s[|s| - 1]) {
      var r := StripRight(s[..|s| - 1], p);
      StripRightIsPrefix(s[..|s| - 1], p);
      assert s[..|s| - 1][..|r|] == s[..|r|];
    }
  }

  /** Drops the characters satisfying `p` at both ends: Python's `strip()`
      with `p` = whitespace, SQL's `trim()` with `p` = the blank. */
  function Strip(s: string, p: char -> bool): (r: string)
    ensures |r| <= |s|
    ensures r != [] ==> !p(r[0]) && !p(r[|r| - 1])
  {
    if s != [] && p(s[0]) then Strip(s[1..], p) else StripRight(s, p)
  }

  /** `Strip` is `StripRight` after `StripLeft`. */
  lemma {:induction false} StripIsBothStrips(s: string, p: char -> bool)
    ensures Strip(s, p) == StripRight(StripLeft(s, p), p)
  {
    if s != [] && p(s[0]) {
      StripIsBothStrips(s[1..], p);
    }
  }

  /** `Strip` leaves nothing exactly when every character satisfies `p`. */
  lemma StripBlank(s: string, p: char -> bool)
    ensures Strip(s, p) == [] <==> forall k :: 0 <= k < |s| ==> p(s[k])
  {
    var l := StripLeft(s, p);
    var r := StripRight(l, p);
    StripIsBothStrips(s, p);
    StripLeftIsSuffix(s, p);
    if r == [] {
      SuffixShift(s, l, |s| - |l|, 0, p);
    } else {
      assert r[0] == l[0] == s[|s| - |l|];
      assert !p(s[|s| - |l|]);
    }
  }

  /** `Strip` keeps the slice of `s` that starts after its `p`-prefix. */
  lemma StripSlice(s: string, p: char -> bool)
    ensures var r := Strip(s, p);
      var i := PrefixLen(s, p);
      i + |r| <= |s| && r == s[i..i + |r|]
  {
    var l := StripLeft(s, p);
    var r := StripRight(l, p);
    StripIsBothStrips(s, p);
    StripLeftIsSuffix(s, p);
    StripRightIsPrefix(l, p);
    SliceOfSuffix(s, |s| - |l|, |r|);
  }

  /** Only `p`-characters lie after the slice `Strip` keeps. */
  lemma StripTail(s: string, p: char -> bool)
    ensures var r := Strip(s, p);
      forall k :: PrefixLen(s, p) + |r| <= k < |s| ==> p(s[k])
  {
    var l := StripLeft(s, p);
    StripIsBothStrips(s, p);
    StripLeftIsSuffix(s, p);
    SuffixShift(s, l, |s| - |l|, |StripRight(l, p)|, p);
  }

  lemma SuffixShift(s: string, l: string, i: nat, n: nat, p: char -> bool)
    requires i <= |s| && l == s[i..]
    requires forall j :: n <= j < |l| ==> p(l[j])
    ensures forall k :: i + n <= k < |s| ==> p(s[k])
  {
    forall k | i + n <= k < |s| ensures p(s[k]) {
      assert s[k] == l[k - i];
    }
  }

  lemma SliceOfSuffix(s: string, i: nat, n: nat)
    requires i + n <= |s|
    ensures s[i..][..n] == s[i..i + n]
  {
  }

  /** Length of the longest prefix of `s` whose characters satisfy `p`. */
  function PrefixLen(s: string, p: char -> bool): (k: nat)
    ensures k <= |s|
    ensures forall i :: 0 <= i < k ==> p(s[i])
    ensures k < |s| ==> !p(s[k])
  {
    if s != [] && p(s[0]) then 1 + PrefixLen(s[1..], p) else 0
  }

  /** `s.split()[0]`: the first maximal run of non-whitespace characters, or
      nothing when `s` is blank (Python raises IndexError there). */
  function FirstToken(s: string): (t: Option<string>)
    ensures t.None? <==> forall i :: 0 <= i < |s| ==> IsSpace(s[i])
    ensures t.Some? ==> t.value != [] && NoneSatisfy(t.value, IsSpace)
    ensures t.Some? ==>
      var i := PrefixLen(s, IsSpace);
      var j := i + |t.value|;
      j <= |s| && t.value == s[i..j] && (j < |s| ==> IsSpace(s[j]))
  {
    var i := PrefixLen(s, IsSpace);
    if i == |s| then None
    else
      var r := s[i..];
      var k := PrefixLen(r, NotSpace);
      RunOfSuffix(s, i, NotSpace);
      assert NoneSatisfy(r[..k], IsSpace) by {
        forall j | 0 <= j < k ensures !IsSpace(r[..k][j]) {
          assert NotSpace(r[j]);
        }
      }
      Some(r[..k])
  }

  /** The `p`-run at the start of a suffix of `s` is a slice of `s` that
      ends where `p` first fails or at the end of `s`. */
  lemma RunOfSuffix(s: string, i: nat, p: char -> bool)
    requires i <= |s|
    ensures var k := PrefixLen(s[i..], p);
      i + k <= |s| && s[i..][..k] == s[i..i + k] && (i + k < |s| ==> !p(s[i + k]))
  {
    var k := PrefixLen(s[i..], p);
    SliceOfSuffix(s, i, k);
    assert i + k < |s| ==> s[i..][k] == s[i + k];
  }

  /** The `p`-prefix of `a + b` is `a` when every character of `a`
      satisfies `p` and `b` does not start with one that does. */
  lemma {:induction false} PrefixLenConcat(a: string, b: string, p: char -> bool)
    requires forall i :: 0 <= i < |a| ==> p(a[i])
    requires b != [] ==> !p(b[0])
    ensures PrefixLen(a + b, p) == |a|
  {
    if a == [] {
      assert a + b == b;
    } else {
      assert (a + b)[1..] == a[1..] + b;
      PrefixLenConcat(a[1..], b, p);
    }
  }

  /** The numerals produced by the pattern `\d+\.?\d*`: digits, then
      optionally a point followed by optional digits. */
  predicate IsNumeral(t: string) {
    var k := PrefixLen(t, IsDigit);
    k > 0 && (k == |t| || (t[k] == '.' && AllDigits(t[k + 1..])))
  }

  /** The leftmost-longest match of `\d+\.?\d*` in `s`, as `re.findall(…)[0]`
      returns it, or nothing when `s` holds no digit. */
  function FirstNumber(s: string): (m: Option<string>)
    ensures m.None? <==> NoneSatisfy(s, IsDigit)
    ensures m.Some? ==> IsNumeral(m.value)
    ensures m.Some? ==>
      var i := PrefixLen(s, NotDigit);
      i < |s| && m.value == NumeralAt(s[i..])
  {
    if s == [] then None
    else if IsDigit(s[0]) then
      assert s[0..] == s;
      Some(NumeralAt(s))
    else
      var m := FirstNumber(s[1..]);
      assert m.Some? ==> s[1..][PrefixLen(s[1..], NotDigit)..] == s[PrefixLen(s, NotDigit)..];
      assert m.None? ==> NoneSatisfy(s, IsDigit) by {
        if m.None? {
          forall i | 0 <= i < |s| ensures !IsDigit(s[i]) {
            if i > 0 { assert s[i] == s[1..][i - 1]; }
          }
        }
      }
      m
  }

  /** The greedy match of `\d+\.?\d*` at the start of `s`. */
  function NumeralAt(s: string): (t: string)
    requires s != [] && IsDigit(s[0])
    ensures IsNumeral(t) && |t| <= |s| && t == s[..|t|]
    ensures |t| < |s| ==> !IsNumeral(s[..|t| + 1])
  {
    var k := PrefixLen(s, IsDigit);
    if k < |s| && s[k] == '.' then
      var f := PrefixLen(s[k + 1..], IsDigit);
      PointNumeral(s, k, f);
      s[..k + 1 + f]
    else
      DigitsNumeral(s, k);
      s[..k]
  }

  /** Digits, a point and the digits after it form the longest numeral at
      the start of `s`. */
  lemma PointNumeral(s: string, k: nat, f: nat)
    requires k == PrefixLen(s, IsDigit) && 0 < k < |s| && s[k] == '.'
    requires f == PrefixLen(s[k + 1..], IsDigit)
    ensures IsNumeral(s[..k + 1 + f])
    ensures k + 1 + f < |s| ==> !IsNumeral(s[..k + 2 + f])
  {
    var t := s[..k + 1 + f];
    PrefixLenOfPrefix(s, t, k, IsDigit);
    var frac := t[k + 1..];
    forall j | 0 <= j < f ensures IsDigit(frac[j]) {
      assert frac[j] == s[k + 1..][j];
    }
    if k + 1 + f < |s| {
      PointThenNonDigit(s, k, f);
    }
  }

  lemma PointThenNonDigit(s: string, k: nat, f: nat)
    requires k == PrefixLen(s, IsDigit) && 0 < k < |s| && s[k] == '.'
    requires f == PrefixLen(s[k + 1..], IsDigit) && k + 1 + f < |s|
    ensures !IsNumeral(s[..k + 2 + f])
  {
    var t' := s[..k + 2 + f];
    PrefixLenOfPrefix(s, t', k, IsDigit);
    assert t'[k + 1..][f] == s[k + 1..][f];
  }

  /** A run of digits not followed by a point is the longest numeral at the
      start of `s`. */
  lemma DigitsNumeral(s: string, k: nat)
    requires k == PrefixLen(s, IsDigit) && k > 0 && (k < |s| ==> s[k] != '.')
    ensures IsNumeral(s[..k])
    ensures k < |s| ==> !IsNumeral(s[..k + 1])
  {
    PrefixLenOfPrefix(s, s[..k], k, IsDigit);
    if k < |s| {
      PrefixLenOfPrefix(s, s[..k + 1], k, IsDigit);
    }
  }

  /** A prefix `t` of `s` that keeps the first character failing `p`, or ends
      exactly there, has the same `p`-prefix length. */
  lemma PrefixLenOfPrefix(s: string, t: string, k: nat, p: char -> bool)
    requires k == PrefixLen(s, p) && k <= |t| <= |s| && t == s[..|t|]
    ensures PrefixLen(t, p) == k
  {
    if s != [] && p(s[0]) {
      assert t != [];
      PrefixLenOfPrefix(s[1..], t[1..], k - 1, p);
    }
  }

  /** Unsigned decimal `digits[.digits]` or `.digits`, without sign or spaces. */
  function UnsignedValue(s: string): (r: Option<real>)
    ensures s == [] ==> r.None?
    ensures s != [] && AllDigits(s) ==> r == Some(NatValue(s) as real)
    ensures r.Some? ==> r.value >= 0.0
    ensures s != [] && NotDigit(s[0]) && s[0] != '.' ==> r.None?
  {
    var k := PrefixLen(s, IsDigit);
    var ip := s[..k];
    if k == |s| then
      assert ip == s;
      if k > 0 then Some(NatValue(ip) as real) else None
    else if s[k] == '.' && AllDigits(s[k + 1..]) && (k > 0 || k + 1 < |s|) then
      var frac := s[k + 1..];
      Some(NatValue(ip) as real + NatValue(frac) as real / Pow10(|frac|) as real)
    else None
  }

  /** The decimal forms `[+-]digits[.digits]` and `[+-].digits`, with no
      surrounding whitespace; nothing stands for any other text. */
  function SignedValue(t: string): (r: Option<real>)
    ensures t == [] ==> r.None?
    ensures t != [] && t[0] == '-' ==>
      (r.Some? <==> UnsignedValue(t[1..]).Some?) && (r.Some? ==> r.value == -UnsignedValue(t[1..]).value)
    ensures t != [] && t[0] == '+' ==> r == UnsignedValue(t[1..])
    ensures t != [] && t[0] != '+' && t[0] != '-' ==> r == UnsignedValue(t)
  {
    if t != [] && (t[0] == '+' || t[0] == '-') then
      match UnsignedValue(t[1..])
      case None => None
      case Some(v) => Some(if t[0] == '-' then -v else v)
    else UnsignedValue(t)
  }

  /** Python's `float(s)` on the decimal forms, surrounding whitespace
      allowed; nothing stands for the ValueError raised on any other text. */
  function ParseFloat(s: string): (r: Option<real>)
    ensures (forall i :: 0 <= i < |s| ==> IsSpace(s[i])) ==> r.None?
    ensures s != [] && !IsSpace(s[0]) && !IsSpace(s[|s| - 1]) ==> r == SignedValue(s)
  {
    assert s != [] && !IsSpace(s[0]) && !IsSpace(s[|s| - 1]) ==> Strip(s, IsSpace) == s by {
      if s != [] && !IsSpace(s[0]) && !IsSpace(s[|s| - 1]) {
        StripUnchanged(s, IsSpace);
      }
    }
    StripBlank(s, IsSpace);
    SignedValue(Strip(s, IsSpace))
  }

  /** Text whose end characters fail `p` is left alone by `Strip`. */
  lemma StripUnchanged(t: string, p: char -> bool)
    requires t != [] ==> !p(t[0]) && !p(t[|t| - 1])
    ensures Strip(t, p) == t
  {
    assert StripLeft(t, p) == t;
  }

  /** Stripping text padded on both sides with class characters gives back
      the text inside, when that text starts and ends outside the class. */
  lemma StripPadded(pre: string, t: string, post: string, p: char -> bool)
    requires forall i :: 0 <= i < |pre| ==> p(pre[i])
    requires forall i :: 0 <= i < |post| ==> p(post[i])
    requires t != [] && !p(t[0]) && !p(t[|t| - 1])
    ensures Strip(pre + t + post, p) == t
  {
    var s := pre + t + post;
    var n, m := |pre|, |t|;
    assert s == pre + (t + post);
    PrefixLenConcat(pre, t + post, p);
    assert s[n + m - 1] == t[m - 1];
    forall k | n + m <= k < |s| ensures p(s[k]) {
      assert s[k] == post[k - n - m];
    }
    StripBetween(s, n, m, p);
    assert s[n..n + m] == t;
  }

  /** When the leading run has length `n`, the character at `n + m - 1` is
      outside the class and everything after it inside, strip keeps exactly
      the `m` characters from `n`. */
  lemma StripBetween(s: string, n: nat, m: nat, p: char -> bool)
    requires PrefixLen(s, p) == n && 0 < m && n + m <= |s|
    requires !p(s[n + m - 1])
    requires forall k :: n + m <= k < |s| ==> p(s[k])
    ensures Strip(s, p) == s[n..n + m]
  {
    StripSlice(s, p);
    StripTail(s, p);
    StripBlank(s, p);
  }

  /** `float` ignores whitespace around a clean-ended text. */
  lemma ParseFloatPadded(pre: string, t: string, post: string)
    requires forall i :: 0 <= i < |pre| ==> IsSpace(pre[i])
    requires forall i :: 0 <= i < |post| ==> IsSpace(post[i])
    requires t != [] && !IsSpace(t[0]) && !IsSpace(t[|t| - 1])
    ensures ParseFloat(pre + t + post) == SignedValue(t)
  {
    StripPadded(pre, t, post, IsSpace);
  }

  /** Every match of `\d+\.?\d*` is accepted by `float`, and a run of digits
      parses to its decimal value. */
  lemma {:induction false} NumeralParses(t: string)
    requires IsNumeral(t)
    ensures ParseFloat(t).Some?
    ensures AllDigits(t) ==> ParseFloat(t) == Some(NatValue(t) as real)
  {
    var k := PrefixLen(t, IsDigit);
    assert IsDigit(t[0]);
    assert !IsSpace(t[|t| - 1]) by {
      if k < |t| - 1 { assert IsDigit(t[k + 1..][|t| - k - 2]); }
    }
    StripUnchanged(t, IsSpace);
    assert ParseFloat(t) == UnsignedValue(t);
    if AllDigits(t) {
      assert k == |t| by {
        if k < |t| { assert false; }
      }
      assert t[..k] == t;
    }
  }
}
