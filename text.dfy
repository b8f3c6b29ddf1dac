/**
 * Character classes and string helpers shared by the input normalisers:
 * Python's `str.strip()` (which removes every character for which
 * `str.isspace()` holds), ASCII decimal digits, and the decimal text of a
 * natural number as `str(n)` / an f-string writes it.
 */
module Text {

  /** Python's `str.isspace()`. */
  predicate IsSpace(c: char)
  {
    || c == ' ' || ('\t' <= c <= '\r') || ('\U{1c}' <= c <= '\U{1f}')
    || c == '\U{85}' || c == '\U{a0}' || c == '\U{1680}'
    || ('\U{2000}' <= c <= '\U{200a}') || c == '\U{2028}' || c == '\U{2029}'
    || c == '\U{202f}' || c == '\U{205f}' || c == '\U{3000}'
  }

  predicate AllSpace(s: string)
  {
    forall i :: 0 <= i < |s| ==> IsSpace(s[i])
  }

  /** `s` without its leading whitespace. */
  function TrimStart(s: string): (r: string)
    ensures |r| <= |s|
    ensures r == [] || !IsSpace(r[0])
  {
    if s != [] && IsSpace(s[0]) then TrimStart(s[1..]) else s
  }

  /** What `TrimStart` removes is a run of whitespace at the front. */
  lemma {:induction false} TrimStartSpec(s: string)
    ensures TrimStart(s) == s[|s| - |TrimStart(s)|..]
    ensures AllSpace(s[..|s| - |TrimStart(s)|])
  {
    if s != [] && IsSpace(s[0]) {
      TrimStartSpec(s[1..]);
      var k := |s| - |TrimStart(s)|;
      assert s[1..][k - 1..] == s[k..];
      forall j | 0 <= j < k ensures IsSpace(s[..k][j]) {
        if j > 0 { assert s[..k][j] == s[1..][..k - 1][j - 1]; }
      }
    }
  }

  /** `s` without its trailing whitespace. */
  function TrimEnd(s: string): (r: string)
    ensures |r| <= |s|
    ensures r == [] || !IsSpace(r[|r| - 1])
  {
    if s != [] && IsSpace(s[|s| - 1]) then TrimEnd(s[..|s| - 1]) else s
  }

  /** What `TrimEnd` removes is a run of whitespace at the back. */
  lemma {:induction false} TrimEndSpec(s: string)
    ensures TrimEnd(s) == s[..|TrimEnd(s)|]
    ensures AllSpace(s[|TrimEnd(s)|..])
  {
    if s != [] && IsSpace(s[|s| - 1]) {
      var u := s[..|s| - 1];
      TrimEndSpec(u);
      var k := |TrimEnd(s)|;
      assert u[..k] == s[..k];
      forall j | 0 <= j < |s| - k ensures IsSpace(s[k..][j]) {
        if j < |s| - 1 - k { assert s[k..][j] == u[k..][j]; }
      }
    }
  }

  /** Python's `s.strip()`. */
  function Strip(s: string): string
  {
    TrimEnd(TrimStart(s))
  }

  /**
   * The stripped string is the slice of the input that starts after the
   * leading whitespace, what was cut off at either end is whitespace, and it
   * neither starts nor ends with whitespace.
   */
  lemma StripSpec(s: string)
    ensures var r, i := Strip(s), |s| - |TrimStart(s)|;
      && i + |r| <= |s| && r == s[i..i + |r|]
      && AllSpace(s[..i]) && AllSpace(s[i + |r|..])
      && (r == [] || (!IsSpace(r[0]) && !IsSpace(r[|r| - 1])))
  {
    hide TrimStart;
    hide TrimEnd;
    var t := TrimStart(s);
    var r := TrimEnd(t);
    var i := |s| - |t|;
    TrimStartSpec(s);
    TrimEndSpec(t);
    assert s[i + |r|..] == t[|r|..];
    if r != [] {
      assert r[0] == t[0];
    }
  }

  /** A string that neither starts nor ends with whitespace is its own strip. */
  lemma StripUnchanged(s: string)
    requires s == [] || (!IsSpace(s[0]) && !IsSpace(s[|s| - 1]))
    ensures Strip(s) == s
  {
  }

  lemma DigitNotSpace(c: char)
    requires IsDigit(c)
    ensures !IsSpace(c)
  {
  }

  lemma StripIdempotent(s: string)
    ensures Strip(Strip(s)) == Strip(s)
  {
    StripSpec(s);
    StripUnchanged(Strip(s));
  }

  /** Stripping leaves nothing exactly when the input is all whitespace. */
  lemma StripEmpty(s: string)
    ensures Strip(s) == [] <==> AllSpace(s)
  {
    var t := TrimStart(s);
    var i := |s| - |t|;
    TrimStartSpec(s);
    TrimEndSpec(t);
    if Strip(s) == [] {
      forall j | 0 <= j < |s|
        ensures IsSpace(s[j])
      {
        if j < i {
          assert s[..i][j] == s[j];
        }
      }
    }
  }

  /** The first position of `ch` in `u`, or `|u|`. */
  function IndexOf(u: string, ch: char): (i: nat)
    ensures i <= |u| && (i < |u| ==> u[i] == ch) && ch !in u[..i]
  {
    if u == [] then 0
    else if u[0] == ch then 0
    else
      var j := IndexOf(u[1..], ch);
      assert u[..j + 1] == [u[0]] + u[1..][..j];
      j + 1
  }

  /** A position holding `ch` with no `ch` before it is the first position of `ch`. */
  lemma IndexOfAt(u: string, ch: char, j: nat)
    requires j < |u| && u[j] == ch && ch !in u[..j]
    ensures IndexOf(u, ch) == j
  {
  }

  predicate IsDigit(c: char)
  {
    '0' <= c <= '9'
  }

  predicate AllDigits(s: string)
  {
    forall i :: 0 <= i < |s| ==> IsDigit(s[i])
  }

  function DigitValue(c: char): nat
    requires IsDigit(c)
  {
    (c - '0') as nat
  }

  function DigitChar(d: nat): (c: char)
    requires d < 10
    ensures IsDigit(c) && DigitValue(c) == d
  {
    ('0' as int + d) as char
  }

  /** The number an all-digit string denotes, most significant digit first. */
  function NatValue(s: string): nat
    requires AllDigits(s)
  {
    if s == [] then 0 else NatValue(s[..|s| - 1]) * 10 + DigitValue(s[|s| - 1])
  }

  /** `str(n)`: decimal digits without leading zeros. */
  function ShowNat(n: nat): (s: string)
    ensures AllDigits(s) && |s| >= 1
    ensures s[0] == '0' ==> n == 0
  {
    if n < 10 then [DigitChar(n)] else ShowNat(n / 10) + [DigitChar(n % 10)]
  }

  /** Reading back the text of a number gives the number. */
  lemma {:induction false} NatValueShowNat(n: nat)
    ensures NatValue(ShowNat(n)) == n
  {
    if n >= 10 {
      NatValueShowNat(n / 10);
      var s := ShowNat(n);
      assert s[..|s| - 1] == ShowNat(n / 10);
    }
  }

  /** Writing the value of a digit string without leading zeros gives it back. */
  lemma {:induction false} ShowNatNatValue(s: string)
    requires AllDigits(s) && |s| >= 1 && (s[0] == '0' ==> |s| == 1)
    ensures ShowNat(NatValue(s)) == s
    decreases |s|
  {
    if |s| > 1 {
      var p := s[..|s| - 1];
      assert p[0] == s[0];
      ShowNatNatValue(p);
      NatValuePositive(p);
      assert s == p + [s[|s| - 1]];
    }
  }

  lemma {:induction false} NatValuePositive(s: string)
    requires AllDigits(s) && |s| >= 1 && s[0] != '0'
    ensures NatValue(s) >= 1
    decreases |s|
  {
    if |s| > 1 {
      NatValuePositive(s[..|s| - 1]);
    }
  }

  function Pow10(k: nat): (r: nat)
    ensures r >= 1
  {
    if k == 0 then 1 else 10 * Pow10(k - 1)
  }

  lemma {:induction false} Pow10AtLeastTen(k: nat)
    requires k >= 1
    ensures Pow10(k) >= 10
  {
    if k > 1 {
      Pow10AtLeastTen(k - 1);
    }
  }

  /** The text of `n` has at most `k` digits exactly when `n < 10^k`. */
  lemma {:induction false} ShowNatLength(n: nat, k: nat)
    requires k >= 1
    ensures |ShowNat(n)| <= k <==> n < Pow10(k)
    decreases k
  {
    Pow10AtLeastTen(k);
    if n >= 10 {
      assert |ShowNat(n)| == |ShowNat(n / 10)| + 1;
      if k > 1 {
        ShowNatLength(n / 10, k - 1);
        assert n / 10 < Pow10(k - 1) <==> n < 10 * Pow10(k - 1);
      }
    }
  }

  /** The text of `n` has exactly four digits for the four-digit numbers. */
  lemma ShowNatFour(n: nat)
    ensures |ShowNat(n)| == 4 <==> 1000 <= n <= 9999
  {
    ShowNatLength(n, 3);
    ShowNatLength(n, 4);
  }

  /** Numbers below 100 are written with one or two digits. */
  lemma ShowNatSmall(n: nat)
    requires n < 100
    ensures |ShowNat(n)| == if n < 10 then 1 else 2
  {
  }
}
