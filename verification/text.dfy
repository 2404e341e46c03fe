/** The few string operations the audit form relies on, with Python's meaning:
    `str.strip()` with no argument, `str.lower()`, the substring test `p in s`,
    and `str()` of a non-negative integer. */
module Text {

  /** Python's `str.isspace` for one character: the characters `str.strip()`
      removes when called without an argument. */
  predicate IsSpace(c: char) {
    || c == ' '
    || ('\t' <= c <= '\r')
    || ('\U{1C}' <= c <= '\U{1F}')
    || c == '\U{85}' || c == '\U{A0}' || c == '\U{1680}'
    || ('\U{2000}' <= c <= '\U{200A}')
    || c == '\U{2028}' || c == '\U{2029}' || c == '\U{202F}'
    || c == '\U{205F}' || c == '\U{3000}'
  }

  /** Neither end of `s` is whitespace: what `str.strip()` returns. */
  predicate IsStripped(s: string) {
    |s| == 0 || (!IsSpace(s[0]) && !IsSpace(s[|s| - 1]))
  }

  /** Drops leading whitespace. */
  function TrimLeft(s: string): (r: string)
    ensures |r| <= |s| && r == s[|s| - |r|..]
    ensures forall i :: 0 <= i < |s| - |r| ==> IsSpace(s[i])
    ensures |r| > 0 ==> !IsSpace(r[0])
  {
    if |s| > 0 && IsSpace(s[0]) then TrimLeft(s[1..]) else s
  }

  /** Drops trailing whitespace. */
  function TrimRight(s: string): (r: string)
    ensures |r| <= |s| && r == s[..|r|]
    ensures forall i :: |r| <= i < |s| ==> IsSpace(s[i])
    ensures |r| > 0 ==> !IsSpace(r[|r| - 1])
  {
    if |s| > 0 && IsSpace(s[|s| - 1]) then TrimRight(s[..|s| - 1]) else s
  }

  /** Every character of `s` is whitespace. */
  predicate AllSpace(s: string) {
    forall k :: 0 <= k < |s| ==> IsSpace(s[k])
  }

  /** How many whitespace characters open `s`. */
  function LeadingSpaces(s: string): (n: nat)
    ensures n <= |s|
  {
    |s| - |TrimLeft(s)|
  }

  /** `s.strip()`: `s` without its leading and trailing whitespace. The
      result neither starts nor ends with whitespace; `StripInfix`,
      `StripCutFront` and `StripCutBack` say where it lies in `s` and that
      everything cut away is whitespace. */
  function Strip(s: string): (r: string)
    ensures IsStripped(r)
    ensures LeadingSpaces(s) + |r| <= |s|
  {
    TrimRight(TrimLeft(s))
  }

  /** The stripped string is the infix of `s` that starts right after its
      leading whitespace. */
  lemma StripInfix(s: string)
    ensures Strip(s) == s[LeadingSpaces(s)..LeadingSpaces(s) + |Strip(s)|]
  {
    PrefixOfSuffix(s, TrimLeft(s), Strip(s), LeadingSpaces(s));
  }

  /** Everything `str.strip()` cuts from the front of `s` is whitespace. */
  lemma StripCutFront(s: string)
    ensures AllSpace(s[..LeadingSpaces(s)])
  {
    var i := LeadingSpaces(s);
    forall k | 0 <= k < i
      ensures IsSpace(s[..i][k])
    {
      assert s[..i][k] == s[k];
    }
  }

  /** Everything `str.strip()` cuts from the back of `s` is whitespace. */
  lemma StripCutBack(s: string)
    ensures AllSpace(s[LeadingSpaces(s) + |Strip(s)|..])
  {
    SpacesBehind(s, TrimLeft(s), |Strip(s)|, LeadingSpaces(s));
  }

  /** Whitespace behind the first `m` characters of a suffix of `s` is the
      whole tail of `s` behind them. */
  lemma SpacesBehind(s: string, l: string, m: nat, i: nat)
    requires i <= |s| && l == s[i..] && m <= |l|
    requires forall j :: m <= j < |l| ==> IsSpace(l[j])
    ensures AllSpace(s[i + m..])
  {
    forall k | i + m <= k < |s|
      ensures IsSpace(s[k])
    {
      assert s[k] == l[k - i];
    }
  }

  /** A prefix of a suffix is an infix. */
  lemma PrefixOfSuffix(s: string, l: string, r: string, i: nat)
    requires i <= |s| && l == s[i..]
    requires |r| <= |l| && r == l[..|r|]
    ensures r == s[i..i + |r|]
  {
    assert forall k :: 0 <= k < |r| ==> r[k] == s[i + k];
  }

  /** Stripping a string without whitespace at its ends changes nothing. */
  lemma {:induction false} StripStripped(s: string)
    requires IsStripped(s)
    ensures Strip(s) == s
  {
  }

  /** Stripping twice is stripping once. */
  lemma {:induction false} StripIdempotent(s: string)
    ensures Strip(Strip(s)) == Strip(s)
  {
    StripStripped(Strip(s));
  }

  /** Leading whitespace in front of a string that does not start with
      whitespace is exactly what `TrimLeft` removes. */
  lemma {:induction false} TrimLeftPadded(a: string, t: string)
    requires AllSpace(a)
    requires |t| == 0 || !IsSpace(t[0])
    ensures TrimLeft(a + t) == t
  {
    if |a| > 0 {
      assert (a + t)[1..] == a[1..] + t;
      TrimLeftPadded(a[1..], t);
    } else {
      assert a + t == t;
    }
  }

  /** Trailing whitespace behind a string that does not end with whitespace
      is exactly what `TrimRight` removes. */
  lemma {:induction false} TrimRightPadded(t: string, b: string)
    requires AllSpace(b)
    requires |t| == 0 || !IsSpace(t[|t| - 1])
    ensures TrimRight(t + b) == t
  {
    if |b| > 0 {
      assert (t + b)[..|t + b| - 1] == t + b[..|b| - 1];
      TrimRightPadded(t, b[..|b| - 1]);
    } else {
      assert t + b == t;
    }
  }

  /** A stripped string framed by whitespace strips back to itself. */
  lemma StripFramed(a: string, t: string, b: string)
    requires AllSpace(a) && AllSpace(b) && IsStripped(t)
    ensures Strip(a + t + b) == t
  {
    if |t| == 0 {
      assert a + t + b == a + b;
      assert AllSpace(a + b);
      TrimLeftPadded(a + b, "");
      assert a + b + "" == a + b;
      assert TrimLeft(a + b) == "";
    } else {
      assert a + t + b == a + (t + b);
      TrimLeftPadded(a, t + b);
      TrimRightPadded(t, b);
    }
  }

  /** A string is its three consecutive slices put back together. */
  lemma SplitThree(s: string, i: nat, j: nat)
    requires i <= j <= |s|
    ensures s == s[..i] + s[i..j] + s[j..]
  {
  }

  /** Two runs of whitespace make a run of whitespace. */
  lemma AllSpaceConcat(x: string, y: string)
    requires AllSpace(x) && AllSpace(y)
    ensures AllSpace(x + y)
  {
  }

  /** Concatenation regrouped around a middle part. */
  lemma Regroup(p: string, a: string, t: string, b: string, q: string)
    ensures p + (a + t + b) + q == (p + a) + t + (b + q)
  {
  }

  /** Whitespace added around a string does not change what it strips to. */
  lemma StripPadding(s: string, pad: string, pad': string)
    requires AllSpace(pad) && AllSpace(pad')
    ensures Strip(pad + s + pad') == Strip(s)
  {
    var t := Strip(s);
    var i := LeadingSpaces(s);
    var a := s[..i];
    var b := s[i + |t|..];
    StripInfix(s);
    StripCutFront(s);
    StripCutBack(s);
    SplitThree(s, i, i + |t|);
    AllSpaceConcat(pad, a);
    AllSpaceConcat(b, pad');
    Regroup(pad, a, t, b, pad');
    StripFramed(pad + a, t, b + pad');
  }

  /** One character of `str.lower()`: ASCII and Latin-1 capitals map to their
      small letters; every other character is kept. */
  function LowerChar(c: char): (r: char)
    ensures IsSpace(r) <==> IsSpace(c)
    ensures !('A' <= r <= 'Z')
    ensures 'a' <= c <= 'z' ==> r == c
  {
    if 'A' <= c <= 'Z' || ('\U{C0}' <= c <= '\U{DE}' && c != '\U{D7}') then
      (c as int + 32) as char
    else
      c
  }

  /** Lower-casing a lower-case character changes nothing. */
  lemma LowerCharIdempotent(c: char)
    ensures LowerChar(LowerChar(c)) == LowerChar(c)
  {
  }

  /** `s.lower()`, character by character: no ASCII capital is left. */
  function Lower(s: string): (r: string)
    ensures |r| == |s|
    ensures forall i :: 0 <= i < |s| ==> r[i] == LowerChar(s[i])
    ensures forall i :: 0 <= i < |r| ==> !('A' <= r[i] <= 'Z')
  {
    seq(|s|, i requires 0 <= i < |s| => LowerChar(s[i]))
  }

  /** Lower-casing twice is lower-casing once. */
  lemma LowerIdempotent(s: string)
    ensures Lower(Lower(s)) == Lower(s)
  {
    forall i | 0 <= i < |s|
      ensures Lower(Lower(s))[i] == Lower(s)[i]
    {
      LowerCharIdempotent(s[i]);
    }
  }

  /** Lower-casing keeps whitespace where it is, so a stripped string stays
      stripped. */
  lemma LowerKeepsStripped(s: string)
    requires IsStripped(s)
    ensures IsStripped(Lower(s))
  {
  }

  /** `pat` opens `s`. */
  predicate StartsWith(s: string, pat: string) {
    |pat| <= |s| && s[..|pat|] == pat
  }

  /** Python's `pat in s`: `pat` occurs somewhere in `s` as a contiguous run.
      The empty pattern occurs in every string, and no pattern longer than
      `s` occurs in it. */
  predicate Contains(s: string, pat: string)
    ensures |pat| == 0 ==> Contains(s, pat)
    ensures Contains(s, pat) ==> |pat| <= |s|
    decreases |s|
  {
    StartsWith(s, pat) || (|s| > 0 && Contains(s[1..], pat))
  }

  /** `Contains` holds exactly when some suffix of `s` starts with `pat`. */
  lemma {:induction false} ContainsAt(s: string, pat: string)
    ensures Contains(s, pat) <==> exists i :: 0 <= i <= |s| && StartsWith(s[i..], pat)
    decreases |s|
  {
    if |s| > 0 {
      ContainsAt(s[1..], pat);
      forall i | 1 <= i <= |s|
        ensures s[1..][i - 1..] == s[i..]
      {
      }
      if !StartsWith(s, pat) && exists i :: 0 <= i <= |s| && StartsWith(s[i..], pat) {
        var i :| 0 <= i <= |s| && StartsWith(s[i..], pat);
        assert i > 0 by { assert s[0..] == s; }
        assert StartsWith(s[1..][i - 1..], pat);
      }
    } else {
      assert s[0..] == s;
    }
  }

  /** The decimal digit for 0..9. */
  function Digit(d: nat): (c: char)
    requires d < 10
    ensures '0' <= c <= '9'
  {
    ('0' as int + d) as char
  }

  /** The value of a run of decimal digits. */
  function DigitsValue(s: string): nat
    requires forall i :: 0 <= i < |s| ==> '0' <= s[i] <= '9'
  {
    if |s| == 0 then 0 else 10 * DigitsValue(s[..|s| - 1]) + (s[|s| - 1] as int - '0' as int)
  }

  /** `str(n)` for a non-negative integer: its decimal digits, with no
      leading zero except for zero itself. */
  function Decimal(n: nat): (r: string)
    ensures |r| >= 1
    ensures forall i :: 0 <= i < |r| ==> '0' <= r[i] <= '9'
    ensures r[0] == '0' ==> n == 0
  {
    if n < 10 then [Digit(n)] else Decimal(n / 10) + [Digit(n % 10)]
  }

  /** Reading back the decimal rendering of `n` gives `n`. */
  lemma {:induction false} DecimalRoundTrip(n: nat)
    ensures DigitsValue(Decimal(n)) == n
  {
    if n >= 10 {
      var r := Decimal(n);
      assert r[..|r| - 1] == Decimal(n / 10);
      DecimalRoundTrip(n / 10);
    }
  }
}
