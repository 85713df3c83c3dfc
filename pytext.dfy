/**
 * The Python string operations the deck-list and version code relies on:
 * `str.isspace`/`str.strip`, finding the first occurrence of a separator
 * (`str.split(sep, 1)`, `str.split(sep)[0]`, the `in` test), `str(int)` and
 * `int(str)` in base 10.
 */
module PyText {
  import opened Wrappers

  // ---------------------------------------------------------------------------
  // Whitespace and strip
  // ---------------------------------------------------------------------------

  /** The characters for which `str.isspace()` holds. */
  predicate IsSpace(c: char) {
    ('\t' <= c <= '\r') || ('\U{1C}' <= c <= ' ') || c == '\U{85}' || c == '\U{A0}'
    || c == '\U{1680}' || ('\U{2000}' <= c <= '\U{200A}') || c == '\U{2028}' || c == '\U{2029}'
    || c == '\U{202F}' || c == '\U{205F}' || c == '\U{3000}'
  }

  /**
   * The whitespace `int()` skips around a number: `str.isspace()` except the
   * ASCII separators U+001C to U+001F, which `int()` rejects.
   */
  predicate IsIntSpace(c: char) {
    IsSpace(c) && !IsSeparatorControl(c)
  }

  /** The ASCII file, group, record and unit separators U+001C to U+001F. */
  predicate IsSeparatorControl(c: char) {
    '\U{1C}' <= c <= '\U{1F}'
  }

  predicate AllSpace(s: string) {
    forall i | 0 <= i < |s| :: IsSpace(s[i])
  }

  /** Neither the first nor the last character is whitespace. */
  predicate NoSurroundingSpace(s: string) {
    s == [] || (!IsSpace(s[0]) && !IsSpace(s[|s| - 1]))
  }

  /** The characters `space` accepts removed from the front of `s`. */
  function TrimLeft(s: string, space: char -> bool): (r: string)
    ensures r == [] || !space(r[0])
    ensures |r| <= |s| && r == s[|s| - |r|..]
    ensures forall i | 0 <= i < |s| - |r| :: space(s[i])
  {
    if s != [] && space(s[0]) then TrimLeft(s[1..], space) else s
  }

  /** The characters `space` accepts removed from the back of `s`. */
  function TrimRight(s: string, space: char -> bool): (r: string)
    ensures r == [] || !space(r[|r| - 1])
    ensures |r| <= |s| && r == s[..|r|]
    ensures forall i | |r| <= i < |s| :: space(s[i])
  {
    if s != [] && space(s[|s| - 1]) then TrimRight(s[..|s| - 1], space) else s
  }

  /**
   * `s.strip()`: whitespace removed from both ends, so none is left around
   * the result (`StripPadded` says what is kept).
   */
  function Strip(s: string): (r: string)
    ensures NoSurroundingSpace(r)
    ensures |r| <= |s|
  {
    var l := TrimLeft(s, IsSpace);
    var r := TrimRight(l, IsSpace);
    assert r != [] ==> r[0] == l[0];
    r
  }

  /** The whitespace `int()` skips, removed from both ends of `s`. */
  function IntTrim(s: string): (r: string)
    ensures r == [] || (!IsIntSpace(r[0]) && !IsIntSpace(r[|r| - 1]))
    ensures |r| <= |s|
  {
    var l := TrimLeft(s, IsIntSpace);
    var r := TrimRight(l, IsIntSpace);
    assert r != [] ==> r[0] == l[0];
    r
  }

  lemma {:induction false} TrimLeftPadded(a: string, s: string)
    requires AllSpace(a) && (s == [] || !IsSpace(s[0]))
    ensures TrimLeft(a + s, IsSpace) == s
  {
    if a != [] {
      assert (a + s)[1..] == a[1..] + s;
      TrimLeftPadded(a[1..], s);
    }
  }

  lemma {:induction false} TrimRightPadded(s: string, b: string)
    requires AllSpace(b) && (s == [] || !IsSpace(s[|s| - 1]))
    ensures TrimRight(s + b, IsSpace) == s
  {
    if b != [] {
      assert (s + b)[..|s + b| - 1] == s + b[..|b| - 1];
      TrimRightPadded(s, b[..|b| - 1]);
    } else {
      assert s + b == s;
    }
  }

  /** Stripping whitespace from around a string with no surrounding whitespace gives it back. */
  lemma StripPadded(a: string, s: string, b: string)
    requires AllSpace(a) && AllSpace(b) && NoSurroundingSpace(s)
    ensures Strip(a + s + b) == s
  {
    if s == [] {
      assert a + s + b == a + b;
      TrimLeftPadded(a + b, []);
      assert a + b + [] == a + b;
    } else {
      assert a + s + b == a + (s + b);
      TrimLeftPadded(a, s + b);
      TrimRightPadded(s, b);
    }
  }

  // ---------------------------------------------------------------------------
  // Finding a separator
  // ---------------------------------------------------------------------------

  /** `pat` occurs in `s` starting at position `i`. */
  predicate OccursAt(s: string, pat: string, i: nat) {
    i + |pat| <= |s| && s[i..i + |pat|] == pat
  }

  /** The first position at or after `from` where `pat` occurs in `s`. */
  function FindFrom(s: string, pat: string, from: nat): (r: Option<nat>)
    requires pat != []
    ensures r.Some? ==> from <= r.value && OccursAt(s, pat, r.value)
    ensures r.Some? ==> forall i | from <= i < r.value :: !OccursAt(s, pat, i)
    ensures r.None? ==> forall i | from <= i :: !OccursAt(s, pat, i)
    decreases |s| - from
  {
    if from + |pat| > |s| then None
    else if s[from..from + |pat|] == pat then Some(from)
    else FindFrom(s, pat, from + 1)
  }

  /** `s.find(pat)`: the first position where `pat` occurs, if any. */
  function Find(s: string, pat: string): (r: Option<nat>)
    requires pat != []
    ensures r.Some? ==> OccursAt(s, pat, r.value) && forall i | 0 <= i < r.value :: !OccursAt(s, pat, i)
    ensures r.None? <==> forall i :: !OccursAt(s, pat, i)
  {
    FindFrom(s, pat, 0)
  }

  /** `pat in s`. */
  predicate Contains(s: string, pat: string) {
    exists i | 0 <= i <= |s| :: OccursAt(s, pat, i)
  }

  /** A separator first found right after a prefix that does not contain it. */
  lemma FindAfterPrefix(x: string, pat: string, y: string)
    requires pat != []
    requires forall i | 0 <= i < |x| :: !OccursAt(x + pat + y, pat, i)
    ensures Find(x + pat + y, pat) == Some(|x|)
  {
    assert (x + pat + y)[|x|..|x| + |pat|] == pat;
    assert OccursAt(x + pat + y, pat, |x|);
  }

  // ---------------------------------------------------------------------------
  // Decimal integers
  // ---------------------------------------------------------------------------

  predicate IsDigit(c: char) {
    '0' <= c <= '9'
  }

  function DigitChar(d: nat): (c: char)
    requires d < 10
    ensures IsDigit(c)
  {
    ('0' as int + d) as char
  }

  function DigitValue(c: char): (d: nat)
    requires IsDigit(c)
    ensures d < 10 && DigitChar(d) == c
  {
    (c as int - '0' as int) as nat
  }

  /** The decimal digits of `n`, with no leading zero. */
  function NatToString(n: nat): (s: string)
    ensures s != [] && forall i | 0 <= i < |s| :: IsDigit(s[i])
  {
    if n < 10 then [DigitChar(n)] else NatToString(n / 10) + [DigitChar(n % 10)]
  }

  /** `str(i)`: a minus sign before the digits of a negative number. */
  function IntToString(i: int): string {
    if i < 0 then "-" + NatToString(-i) else NatToString(i)
  }

  /** `str(i)` is digits after an optional minus sign, so it has no surrounding whitespace. */
  lemma IntToStringChars(i: int)
    ensures IntToString(i) != [] && NoSurroundingSpace(IntToString(i))
    ensures forall k | 0 <= k < |IntToString(i)| :: IsDigit(IntToString(i)[k]) || IntToString(i)[k] == '-'
  {
  }

  /**
   * The body of a base-10 integer as `int()` accepts it: digits, with single
   * underscores allowed between two digits.
   */
  predicate IsDigitGroup(s: string) {
    s != [] && IsDigit(s[0]) && IsDigit(s[|s| - 1])
    && (forall i | 0 <= i < |s| :: IsDigit(s[i]) || s[i] == '_')
    && (forall i | 0 <= i < |s| - 1 :: s[i] == '_' ==> s[i + 1] != '_')
  }

  /** The number the digits of `s` spell, underscores skipped. */
  function DigitsValue(s: string): nat
    requires forall i | 0 <= i < |s| :: IsDigit(s[i]) || s[i] == '_'
  {
    if s == [] then 0
    else if s[|s| - 1] == '_' then DigitsValue(s[..|s| - 1])
    else DigitsValue(s[..|s| - 1]) * 10 + DigitValue(s[|s| - 1])
  }

  /**
   * `int(s)` in base 10: surrounding whitespace other than U+001C to U+001F
   * is ignored, then one optional sign and a digit group; anything else
   * raises `ValueError` (here `None`).
   */
  function ParseInt(s: string): (r: Option<int>)
    ensures Strip(s) == [] ==> r.None?
    ensures s != [] && (IsSeparatorControl(s[0]) || IsSeparatorControl(s[|s| - 1])) ==> r.None?
    ensures r.Some? && r.value < 0 ==> IntTrim(s)[0] == '-'
  {
    IntTrimOfBlank(s);
    IntTrimKeepsSeparators(s);
    var t := IntTrim(s);
    ParseSignedShape(t);
    ParseSigned(t)
  }

  /** A sign and digit group cannot begin or end with a separator, and only a minus sign makes it negative. */
  lemma ParseSignedShape(t: string)
    ensures t != [] && (IsSeparatorControl(t[0]) || IsSeparatorControl(t[|t| - 1])) ==> ParseSigned(t).None?
    ensures ParseSigned(t).Some? && ParseSigned(t).value < 0 ==> t != [] && t[0] == '-'
  {
  }

  /** Text that `strip()` empties holds only whitespace, and `int()` skips all of it or stops at a separator. */
  lemma IntTrimOfBlank(s: string)
    ensures Strip(s) == [] ==> IntTrim(s) == [] || IsSeparatorControl(IntTrim(s)[0])
  {
    if Strip(s) != [] {
      return;
    }
    var l := TrimLeft(s, IsSpace);
    assert AllSpace(s);
    var t := IntTrim(s);
    if t != [] {
      var il := TrimLeft(s, IsIntSpace);
      assert t[0] == il[0] == s[|s| - |il|];
    }
  }

  /** A separator at either end of the text stays at that end after `int()`'s trim. */
  lemma IntTrimKeepsSeparators(s: string)
    ensures s != [] && IsSeparatorControl(s[0]) ==> IntTrim(s) != [] && IntTrim(s)[0] == s[0]
    ensures s != [] && IsSeparatorControl(s[|s| - 1]) ==> IntTrim(s) != [] && IntTrim(s)[|IntTrim(s)| - 1] == s[|s| - 1]
  {
    if s != [] && IsSeparatorControl(s[|s| - 1]) {
      var l := TrimLeft(s, IsIntSpace);
      assert l != [] && l[|l| - 1] == s[|s| - 1];
    }
  }

  /** A sign and a digit group, nothing around them. */
  function ParseSigned(t: string): Option<int> {
    if t == [] then None
    else
      var negative := t[0] == '-';
      var body := if t[0] == '-' || t[0] == '+' then t[1..] else t;
      if !IsDigitGroup(body) then None
      else if negative then Some(-(DigitsValue(body) as int))
      else Some(DigitsValue(body) as int)
  }

  lemma {:induction false} NatToStringValue(n: nat)
    ensures DigitsValue(NatToString(n)) == n
  {
    if n >= 10 {
      var s := NatToString(n);
      assert s[..|s| - 1] == NatToString(n / 10);
      NatToStringValue(n / 10);
    }
  }

  /** `int(str(i)) == i`. */
  lemma IntToStringRoundTrip(i: int)
    ensures ParseInt(IntToString(i)) == Some(i)
  {
    StripIntToString(i);
    if i < 0 {
      ParseNegativeDigits(-i);
    } else {
      ParseUnsignedDigits(i);
    }
  }

  lemma StripIntToString(i: int)
    ensures Strip(IntToString(i)) == IntToString(i)
    ensures IntTrim(IntToString(i)) == IntToString(i)
  {
    var s := IntToString(i);
    IntToStringChars(i);
    assert [] + s + [] == s;
    StripPadded([], s, []);
    IntToStringNoSeparator(i);
    SameTrim(s);
  }

  /** `str(i)` holds no U+001C to U+001F. */
  lemma IntToStringNoSeparator(i: int)
    ensures forall k | 0 <= k < |IntToString(i)| :: !IsSeparatorControl(IntToString(i)[k])
  {
    IntToStringChars(i);
  }

  /** On text without U+001C to U+001F both trims stop at the same characters. */
  lemma SameTrim(s: string)
    requires forall i | 0 <= i < |s| :: !IsSeparatorControl(s[i])
    ensures IntTrim(s) == Strip(s)
  {
    SameTrimLeft(s);
    var l := TrimLeft(s, IsSpace);
    SuffixNoSeparator(s, |s| - |l|);
    SameTrimRight(l);
  }

  lemma SuffixNoSeparator(s: string, k: nat)
    requires k <= |s|
    requires forall i | 0 <= i < |s| :: !IsSeparatorControl(s[i])
    ensures forall i | 0 <= i < |s[k..]| :: !IsSeparatorControl(s[k..][i])
  {
    forall i | 0 <= i < |s[k..]| ensures !IsSeparatorControl(s[k..][i]) {
      assert s[k..][i] == s[k + i];
    }
  }

  lemma {:induction false} SameTrimLeft(s: string)
    requires forall i | 0 <= i < |s| :: !IsSeparatorControl(s[i])
    ensures TrimLeft(s, IsIntSpace) == TrimLeft(s, IsSpace)
  {
    if s != [] && IsSpace(s[0]) {
      SameTrimLeft(s[1..]);
    }
  }

  lemma {:induction false} SameTrimRight(s: string)
    requires forall i | 0 <= i < |s| :: !IsSeparatorControl(s[i])
    ensures TrimRight(s, IsIntSpace) == TrimRight(s, IsSpace)
  {
    if s != [] && IsSpace(s[|s| - 1]) {
      SameTrimRight(s[..|s| - 1]);
    }
  }

  /** Decimal digits form a digit group. */
  lemma DigitsAreGroup(s: string)
    requires s != [] && forall i | 0 <= i < |s| :: IsDigit(s[i])
    ensures IsDigitGroup(s)
  {
  }

  lemma ParseUnsignedDigits(n: nat)
    ensures ParseSigned(IntToString(n)) == Some(n)
  {
    var digits := NatToString(n);
    DigitsAreGroup(digits);
    assert IsDigit(digits[0]);
    NatToStringValue(n);
  }

  lemma ParseNegativeDigits(n: nat)
    requires n > 0
    ensures ParseSigned(IntToString(-(n as int))) == Some(-(n as int))
  {
    var digits := NatToString(n);
    var t := "-" + digits;
    assert t[0] == '-' && t[1..] == digits;
    DigitsAreGroup(digits);
    NatToStringValue(n);
  }

  /**
   * On text without U+001C to U+001F, `int(s.strip())` equals `int(s)`: both
   * skip the same whitespace around the number.
   */
  lemma ParseIntStripped(s: string)
    requires forall i | 0 <= i < |s| :: !IsSeparatorControl(s[i])
    ensures ParseInt(Strip(s)) == ParseInt(s)
  {
    var t := Strip(s);
    StripTwice(s);
    SameTrim(s);
    StripKeepsNoSeparator(s);
    SameTrim(t);
  }

  /** `strip()` of stripped text changes nothing. */
  lemma StripTwice(s: string)
    ensures Strip(Strip(s)) == Strip(s)
  {
    var t := Strip(s);
    assert [] + t + [] == t;
    StripPadded([], t, []);
  }

  /** `strip()` keeps only characters of the text, so it adds no separator. */
  lemma StripKeepsNoSeparator(s: string)
    requires forall i | 0 <= i < |s| :: !IsSeparatorControl(s[i])
    ensures forall i | 0 <= i < |Strip(s)| :: !IsSeparatorControl(Strip(s)[i])
  {
    var l := TrimLeft(s, IsSpace);
    var r := TrimRight(l, IsSpace);
    assert r == Strip(s);
    forall i | 0 <= i < |r| ensures !IsSeparatorControl(r[i]) {
      assert r[i] == l[i] == s[|s| - |l| + i];
    }
  }

  /**
   * `int()` does not skip the separator U+001C, which `strip()` removes:
   * `int("\x1c3")` raises while `int("\x1c3".strip())` is 3.
   */
  lemma SeparatorNotSkipped()
    ensures ParseInt("\U{1C}3") == None
    ensures ParseInt(Strip("\U{1C}3")) == Some(3)
  {
    assert "\U{1C}3" == ['\U{1C}'] + "3" + [];
    StripPadded(['\U{1C}'], "3", []);
    assert IntToString(3) == "3";
    IntToStringRoundTrip(3);
  }
}
