/** Small pieces of Python's string handling that the request handlers rely on:
    `str.strip()`, `str.isdigit()` and `int()` on a digit string, and `str()` on
    a natural number as the inverse of the latter. */
module PyText {

  /** Python's `str.isspace()`: the code points `str.strip()` removes. */
  predicate IsSpace(c: char)
    ensures IsSpace(c) ==> !IsAsciiDigit(c)
  {
    var x := c as int;
    (9 <= x <= 13) || (28 <= x <= 32) || x == 0x85 || x == 0xA0 || x == 0x1680
    || (0x2000 <= x <= 0x200A) || x == 0x2028 || x == 0x2029 || x == 0x202F
    || x == 0x205F || x == 0x3000
  }

  predicate AllSpace(s: string) {
    forall k :: 0 <= k < |s| ==> IsSpace(s[k])
  }

  /** The first index at or after `i` that does not hold whitespace (or `|s|`):
      where `str.strip()` stops scanning from the left. */
  function SkipSpaces(s: string, i: nat): (j: nat)
    requires i <= |s|
    ensures i <= j <= |s|
    ensures forall k :: i <= k < j ==> IsSpace(s[k])
    ensures j < |s| ==> !IsSpace(s[j])
    decreases |s| - i
  {
    if i < |s| && IsSpace(s[i]) then SkipSpaces(s, i + 1) else i
  }

  /** The smallest `e` in `lo..j` such that `s[e..j]` is all whitespace:
      where `str.strip()` stops scanning from the right, never passing `lo`. */
  function SkipSpacesBack(s: string, lo: nat, j: nat): (e: nat)
    requires lo <= j <= |s|
    ensures lo <= e <= j
    ensures forall k :: e <= k < j ==> IsSpace(s[k])
    ensures e > lo ==> !IsSpace(s[e - 1])
    decreases j
  {
    if j > lo && IsSpace(s[j - 1]) then SkipSpacesBack(s, lo, j - 1) else j
  }

  /** `s.strip()`: what is left once the whitespace at both ends is cut off;
      it starts and ends with a non-space character or is empty. */
  function Strip(s: string): (r: string)
    ensures |r| <= |s|
    ensures r == "" || (!IsSpace(r[0]) && !IsSpace(r[|r| - 1]))
  {
    var i := SkipSpaces(s, 0);
    s[i..SkipSpacesBack(s, i, |s|)]
  }

  /** What `Strip` cuts off is whitespace, and only at the two ends: the
      result is the infix of `s` between an all-whitespace prefix and an
      all-whitespace suffix. */
  lemma StripIsInfix(s: string) returns (i: nat)
    ensures i + |Strip(s)| <= |s| && s[i..i + |Strip(s)|] == Strip(s)
    ensures AllSpace(s[..i]) && AllSpace(s[i + |Strip(s)|..])
  {
    i := SkipSpaces(s, 0);
    var j := SkipSpacesBack(s, i, |s|);
    assert AllSpace(s[j..]) by {
      forall k | 0 <= k < |s| - j ensures IsSpace(s[j..][k]) {
        assert s[j..][k] == s[j + k];
      }
    }
  }

  /** A string strips to the empty string exactly when it is all whitespace:
      this is how the handlers' `if not name` treats a blank form field. */
  lemma StripEmptyIffBlank(s: string)
    ensures Strip(s) == "" <==> AllSpace(s)
  {
    var r := Strip(s);
    var i := StripIsInfix(s);
    if r == "" {
      forall k | 0 <= k < |s| ensures IsSpace(s[k]) {
        if k < i { assert s[..i][k] == s[k]; } else { assert s[i..][k - i] == s[k]; }
      }
    } else {
      assert s[i] == r[0];
    }
  }

  /** Stripping twice changes nothing more than stripping once. */
  lemma StripIdempotent(s: string)
    ensures Strip(Strip(s)) == Strip(s)
  {
    var r := Strip(s);
    StripPadded("", r, "");
    assert "" + r + "" == r;
  }

  /** Stripping whitespace padding around a string that neither starts nor
      ends with whitespace gives back that string. */
  lemma StripPadded(a: string, s: string, b: string)
    requires AllSpace(a) && AllSpace(b)
    requires s == "" || (!IsSpace(s[0]) && !IsSpace(s[|s| - 1]))
    ensures Strip(a + s + b) == s
  {
    var t := a + s + b;
    var m := |a| + |s|;
    assert forall k :: 0 <= k < |a| ==> t[k] == a[k];
    assert forall k :: |a| <= k < m ==> t[k] == s[k - |a|];
    assert forall k :: m <= k < |t| ==> t[k] == b[k - m];
    var i := SkipSpaces(t, 0);
    var j := SkipSpacesBack(t, i, |t|);
    if s == "" {
      assert forall k :: 0 <= k < |t| ==> IsSpace(t[k]);
      assert i == |t|;
    } else {
      assert !IsSpace(t[|a|]) && forall k :: 0 <= k < |a| ==> IsSpace(t[k]);
      assert i == |a|;
      assert !IsSpace(t[m - 1]) && forall k :: m <= k < |t| ==> IsSpace(t[k]);
      assert j == m;
    }
  }

  predicate IsAsciiDigit(c: char) {
    '0' <= c <= '9'
  }

  /** `s.isdigit()`, restricted to ASCII digits: non-empty and digits only. */
  predicate IsDigits(s: string)
    ensures IsDigits(s) ==> s != "" && !IsSpace(s[0]) && !IsSpace(s[|s| - 1])
  {
    |s| > 0 && forall k :: 0 <= k < |s| ==> IsAsciiDigit(s[k])
  }

  /** CPython's default limit on the length of a decimal string that `int()`
      converts (since 3.11 and the 3.7.14, 3.8.14, 3.9.14 and 3.10.7 security
      releases); a longer one, leading zeros included, makes `int()` raise
      `ValueError`. */
  const IntMaxStrDigits: int := 4300

  /** `int(s)` for a string of ASCII decimal digits (leading zeros allowed). */
  function DigitsValue(s: string): (v: nat)
    requires forall k :: 0 <= k < |s| ==> IsAsciiDigit(s[k])
    ensures |s| > 0 ==> v % 10 == s[|s| - 1] as int - '0' as int
  {
    if |s| == 0 then 0
    else
      assert IsAsciiDigit(s[|s| - 1]);
      10 * DigitsValue(s[..|s| - 1]) + (s[|s| - 1] as int - '0' as int)
  }

  predicate AllZeros(s: string) {
    forall k :: 0 <= k < |s| ==> s[k] == '0'
  }

  /** `int()` of a string of zeros is 0. */
  lemma {:induction false} DigitsValueOfZeros(zeros: string)
    requires AllZeros(zeros)
    ensures DigitsValue(zeros) == 0
    decreases |zeros|
  {
    if |zeros| > 0 {
      DigitsValueOfZeros(zeros[..|zeros| - 1]);
    }
  }

  /** Leading zeros do not change `int()`: `int("07") == int("7")`. */
  lemma {:induction false} DigitsValueAfterZeros(zeros: string, s: string)
    requires AllZeros(zeros)
    requires forall k :: 0 <= k < |s| ==> IsAsciiDigit(s[k])
    ensures IsDigits(s) ==> IsDigits(zeros + s)
    ensures DigitsValue(zeros + s) == DigitsValue(s)
    decreases |s|
  {
    var t := zeros + s;
    assert forall k :: 0 <= k < |t| ==> IsAsciiDigit(t[k]) by {
      forall k | 0 <= k < |t| ensures IsAsciiDigit(t[k]) {
        if k < |zeros| { assert t[k] == zeros[k]; } else { assert t[k] == s[k - |zeros|]; }
      }
    }
    if |s| == 0 {
      assert t == zeros;
      DigitsValueOfZeros(zeros);
    } else {
      assert t[..|t| - 1] == zeros + s[..|s| - 1];
      assert t[|t| - 1] == s[|s| - 1];
      DigitsValueAfterZeros(zeros, s[..|s| - 1]);
    }
  }

  /** `str(n)`: the decimal rendering of a natural number, without leading zeros. */
  function NatToDigits(n: nat): (s: string)
    ensures IsDigits(s)
    ensures |s| > 1 ==> s[0] != '0'
    decreases n
  {
    var d := ['0' + (n % 10) as char];
    if n < 10 then d
    else
      var s := NatToDigits(n / 10) + d;
      assert s[0] == NatToDigits(n / 10)[0];
      s
  }

  /** `int(str(n)) == n`. */
  lemma {:induction false} DigitsValueOfNatToDigits(n: nat)
    ensures DigitsValue(NatToDigits(n)) == n
    decreases n
  {
    var s := NatToDigits(n);
    if n >= 10 {
      DigitsValueOfNatToDigits(n / 10);
      assert s[..|s| - 1] == NatToDigits(n / 10);
    }
  }
}
