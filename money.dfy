/**
 * `parse_money(s)`: reads a user-typed amount. The input is stripped; blank
 * input is an error; an amount wrapped in parentheses is negated
 * (accounting style); every `$`, `,` and space is removed; what is left must
 * match `^-?\d+(\.\d+)?$` and is then read as a decimal number.
 *
 * Python's `$` also matches just before a final newline, so a cleaned text
 * such as "5\n" (reachable from the input "5\n$") is accepted; `float()`
 * ignores that newline.
 */
module Money {
  import opened Wrappers
  import opened Text
  import opened Sequences

  datatype MoneyError =
    | EmptyInput            // `ValueError("Empty input")`
    | NotANumber(text: string)  // `ValueError("Not a valid number: ...")`, with the cleaned text

  /**
   * `re.match(r"^\((.*)\)$", s)` and its group: `.` does not match a newline,
   * and `$` matches at the end or just before a final newline.
   */
  function ParenInner(s: string): (r: Option<string>)
    ensures r.Some? ==> |r.value| + 2 <= |s| && s[0] == '(' && '\n' !in r.value
    ensures r.Some? ==> s == "(" + r.value + ")" || s == "(" + r.value + ")\n"
  {
    if |s| >= 2 && s[0] == '(' && s[|s| - 1] == ')' && '\n' !in s[1..|s| - 1] then
      Some(s[1..|s| - 1])
    else if |s| >= 3 && s[0] == '(' && s[|s| - 1] == '\n' && s[|s| - 2] == ')' && '\n' !in s[1..|s| - 2] then
      Some(s[1..|s| - 2])
    else
      None
  }

  predicate IsSeparator(c: char)
  {
    c == '$' || c == ',' || c == ' '
  }

  /** `re.sub(r"[\$, ]", "", s)`: the other characters, in order. */
  function Clean(s: string): (r: string)
    ensures |r| <= |s|
    ensures forall i :: 0 <= i < |r| ==> !IsSeparator(r[i]) && r[i] in s
  {
    if s == [] then []
    else
      var rest := Clean(s[1..]);
      assert forall c :: c in s[1..] ==> c in s;
      if IsSeparator(s[0]) then rest else [s[0]] + rest
  }

  /** A text without separators is left as it is. */
  lemma {:induction false} CleanKeeps(s: string)
    requires forall i :: 0 <= i < |s| ==> !IsSeparator(s[i])
    ensures Clean(s) == s
  {
    if s != [] {
      CleanKeeps(s[1..]);
    }
  }

  lemma {:induction false} CleanAppend(a: string, b: string)
    ensures Clean(a + b) == Clean(a) + Clean(b)
    decreases |a|
  {
    hide Clean;
    CleanUnfold(a);
    if a != [] {
      CleanUnfold(a + b);
      assert (a + b)[0] == a[0] && (a + b)[1..] == a[1..] + b;
      CleanAppend(a[1..], b);
      if !IsSeparator(a[0]) {
        assert [a[0]] + (Clean(a[1..]) + Clean(b)) == ([a[0]] + Clean(a[1..])) + Clean(b);
      }
    } else {
      assert a + b == b;
    }
  }

  lemma CleanUnfold(s: string)
    ensures Clean(s) == if s == [] then [] else if IsSeparator(s[0]) then Clean(s[1..]) else [s[0]] + Clean(s[1..])
  {
  }

  /** The text the anchored pattern is applied to: one final newline may follow the match. */
  function DropNewline(c: string): string
  {
    if |c| > 0 && c[|c| - 1] == '\n' then c[..|c| - 1] else c
  }

  /** `\d+(\.\d+)?`, written as a grammar. */
  predicate IsUnsigned(u: string)
  {
    || (|u| > 0 && AllDigits(u))
    || exists i :: 0 < i < |u| - 1 && u[i] == '.' && AllDigits(u[..i]) && AllDigits(u[i + 1..])
  }

  /** `re.match(r"^-?\d+(\.\d+)?$", c)` succeeds. */
  predicate MatchesNumber(c: string)
  {
    var b := DropNewline(c);
    IsUnsigned(b) || (|b| > 0 && b[0] == '-' && IsUnsigned(b[1..]))
  }

  /**
   * The pattern check followed by `float(c)`: an optional sign before an
   * unsigned number, one final newline allowed. The value is exact.
   */
  function ParseDecimal(c: string): Option<real>
  {
    ParseSigned(DropNewline(c))
  }

  function ParseSigned(b: string): Option<real>
  {
    if |b| > 0 && b[0] == '-' then
      match ParseUnsigned(b[1..])
      case Some(v) => Some(-v)
      case None => None
    else
      ParseUnsigned(b)
  }

  /** `\d+(\.\d+)?` and its value, as one left-to-right scan up to the first dot. */
  function ParseUnsigned(u: string): Option<real>
  {
    var i := IndexOf(u, '.');
    var ip := u[..i];
    var fp := if i < |u| then u[i + 1..] else "";
    if |ip| > 0 && AllDigits(ip) && (i == |u| || (|fp| > 0 && AllDigits(fp))) then
      Some(Magnitude(ip, fp))
    else
      None
  }

  /** The value of the digits `ip.fp`. */
  function Magnitude(ip: string, fp: string): real
    requires AllDigits(ip) && AllDigits(fp)
  {
    NatValue(ip) as real + NatValue(fp) as real / Pow10(|fp|) as real
  }

  /** The accounting-style rewrite: `(x)` becomes `-x`. */
  function Unparen(t: string): string
  {
    match ParenInner(t)
    case Some(inner) => "-" + inner
    case None => t
  }

  /** The pattern check and conversion of the cleaned text. */
  function ReadCleaned(c: string): Result<real, MoneyError>
  {
    match ParseDecimal(c)
    case Some(v) => Success(v)
    case None => Failure(NotANumber(c))
  }

  /** `parse_money`. */
  function ParseMoney(s: string): Result<real, MoneyError>
  {
    var t := Strip(s);
    if t == [] then Failure(EmptyInput) else ReadCleaned(Clean(Unparen(t)))
  }

  /** The dot after a run of digits is the first dot. */
  lemma DotAfterDigits(u: string, j: nat)
    requires j < |u| && u[j] == '.' && AllDigits(u[..j])
    ensures IndexOf(u, '.') == j
  {
  }

  /** A run of digits has no dot. */
  lemma NoDot(s: string)
    requires AllDigits(s)
    ensures IndexOf(s, '.') == |s|
  {
  }

  lemma UnsignedScan(u: string)
    ensures var i := IndexOf(u, '.');
      var fp := if i < |u| then u[i + 1..] else "";
      IsUnsigned(u) <==> |u[..i]| > 0 && AllDigits(u[..i]) && (i == |u| || (|fp| > 0 && AllDigits(fp)))
  {
    var i := IndexOf(u, '.');
    if |u| > 0 && AllDigits(u) {
      NoDot(u);
      assert u[..i] == u;
    } else if exists j :: 0 < j < |u| - 1 && u[j] == '.' && AllDigits(u[..j]) && AllDigits(u[j + 1..]) {
      var j :| 0 < j < |u| - 1 && u[j] == '.' && AllDigits(u[..j]) && AllDigits(u[j + 1..]);
      DotAfterDigits(u, j);
    } else if i == |u| {
      assert u[..i] == u;
    }
  }

  /** The scan accepts exactly the texts the pattern matches. */
  lemma ParseDecimalMatches(c: string)
    ensures ParseDecimal(c).Some? <==> MatchesNumber(c)
  {
    var b := DropNewline(c);
    UnsignedScan(b);
    if |b| > 0 && b[0] == '-' {
      UnsignedScan(b[1..]);
      assert !IsUnsigned(b) by {
        forall j | 0 < j < |b| - 1 && b[j] == '.' && AllDigits(b[j + 1..])
          ensures !AllDigits(b[..j])
        {
          assert b[..j][0] == '-';
        }
      }
    }
  }

  /** A run of digits, with or without a leading minus sign, reads as its value. */
  lemma ParseDigits(s: string)
    requires |s| > 0 && AllDigits(s)
    ensures ParseDecimal(s) == Some(NatValue(s) as real)
    ensures ParseDecimal("-" + s) == Some(-(NatValue(s) as real))
  {
    hide NatValue;
    hide ParseUnsigned;
    UnsignedDigits(s);
    assert IsDigit(s[0]);
    assert DropNewline(s) == s;
    var b := "-" + s;
    assert b[|b| - 1] == s[|s| - 1];
    assert DropNewline(b) == b;
    assert b[1..] == s;
  }

  lemma UnsignedDigits(s: string)
    requires |s| > 0 && AllDigits(s)
    ensures ParseUnsigned(s) == Some(NatValue(s) as real)
  {
    NoDot(s);
    assert s[..|s|] == s;
    MagnitudeWhole(s);
  }

  /** Digits with no fraction part have their integer value. */
  lemma MagnitudeWhole(ip: string)
    requires AllDigits(ip)
    ensures Magnitude(ip, "") == NatValue(ip) as real
  {
    hide NatValue;
    NatValueEmpty("");
  }

  lemma NatValueEmpty(s: string)
    requires s == []
    ensures NatValue(s) == 0 && Pow10(|s|) == 1
  {
  }

  /** The text of a natural number reads back as that number, and with a minus sign as its negation. */
  lemma ParseShowNat(n: nat)
    ensures ParseDecimal(ShowNat(n)) == Some(n as real)
    ensures ParseDecimal("-" + ShowNat(n)) == Some(-(n as real))
  {
    ParseDigits(ShowNat(n));
    NatValueShowNat(n);
  }

  /** Blank or whitespace-only input, and only that, is `EmptyInput`. */
  lemma RejectsBlank(s: string)
    ensures ParseMoney(s) == Failure(EmptyInput) <==> AllSpace(s)
  {
    StripEmpty(s);
  }

  /**
   * An input is accepted exactly when it is not blank and its cleaned text,
   * after the parentheses rewrite, matches the number pattern.
   */
  lemma AcceptsExactly(s: string)
    ensures ParseMoney(s).Success? <==>
      var t := Strip(s);
      var u := if ParenInner(t).Some? then "-" + ParenInner(t).value else t;
      t != [] && MatchesNumber(Clean(u))
  {
    var t := Strip(s);
    var u := if ParenInner(t).Some? then "-" + ParenInner(t).value else t;
    ParseDecimalMatches(Clean(u));
  }

  /**
   * Wrapping an amount in parentheses negates it: for an input that is its
   * own strip, does not start with a parenthesis and has no minus sign or
   * newline, `(t)` reads as minus what `t` reads as.
   */
  lemma ParenNegates(t: string, v: real)
    requires ParseMoney(t) == Success(v)
    requires Strip(t) == t && t != [] && t[0] != '('
    requires '\n' !in t && '-' !in t
    ensures ParseMoney("(" + t + ")") == Success(-v)
  {
    hide NatValue;
    hide Magnitude;
    hide ParseUnsigned;
    hide Clean;
    hide Strip;
    var c := Clean(t);
    PlainRead(t);
    assert ParseDecimal(c) == Some(v);
    NegatedText(c);
    assert ParseDecimal("-" + c) == Some(-v);
    MinusClean(t);
    ParenRewrite(t);
    assert ReadCleaned("-" + c) == Success(-v);
  }

  /** A stripped input that does not start with a parenthesis is read as its cleaned text. */
  lemma PlainRead(t: string)
    requires Strip(t) == t && t != [] && t[0] != '('
    ensures ParseMoney(t) == ReadCleaned(Clean(t))
  {
    assert Unparen(t) == t;
  }

  lemma MinusClean(t: string)
    requires '-' !in t
    ensures Clean("-" + t) == "-" + Clean(t)
    ensures Clean(t) == [] || Clean(t)[0] != '-'
  {
    assert Clean("-") == "-";
    CleanAppend("-", t);
  }

  /** The parenthesised form is read as a minus sign before the inside. */
  lemma ParenRewrite(t: string)
    requires '\n' !in t
    ensures ParseMoney("(" + t + ")") == ReadCleaned(Clean("-" + t))
  {
    WrappedStrip(t);
    WrappedInner(t);
  }

  lemma WrappedStrip(t: string)
    ensures Strip("(" + t + ")") == "(" + t + ")"
  {
    StripUnchanged("(" + t + ")");
  }

  lemma WrappedInner(t: string)
    requires '\n' !in t
    ensures ParenInner("(" + t + ")") == Some(t)
  {
    var p := "(" + t + ")";
    assert p[1..|p| - 1] == t;
  }

  /** A minus sign before a text that does not start with one negates its reading. */
  lemma NegatedText(c: string)
    requires c == [] || c[0] != '-'
    ensures ParseDecimal("-" + c) == match ParseDecimal(c) case Some(v) => Some(-v) case None => None
  {
    var d := DropNewline(c);
    var m := "-" + c;
    if |c| > 0 && c[|c| - 1] == '\n' {
      assert m[|m| - 1] == '\n';
      assert DropNewline(m) == "-" + d;
    } else {
      assert DropNewline(m) == m;
    }
    assert ("-" + d)[1..] == d;
    assert d == [] || d[0] == c[0];
  }

  /**
   * `$`, `,` and space are ignored inside an amount: inserting one between
   * two non-empty parts that do not start or end the input with whitespace
   * changes nothing.
   */
  lemma SeparatorIgnored(a: string, sep: char, b: string)
    requires IsSeparator(sep)
    requires a != [] && b != [] && !IsSpace(a[0]) && !IsSpace(b[|b| - 1])
    ensures ParseMoney(a + [sep] + b) == ParseMoney(a + b)
  {
    var s1, s2 := a + [sep] + b, a + b;
    assert s1[0] == a[0] && s1[|s1| - 1] == b[|b| - 1];
    assert s2[0] == a[0] && s2[|s2| - 1] == b[|b| - 1];
    StripUnchanged(s1);
    StripUnchanged(s2);
    UnparenInsert(a, sep, b);
  }

  /** Removing separators forgets where a separator was. */
  lemma CleanInsert(x: string, sep: char, y: string)
    requires IsSeparator(sep)
    ensures Clean(x + [sep] + y) == Clean(x + y)
  {
    CleanAppend(x + [sep], y);
    CleanAppend(x, [sep]);
    CleanAppend(x, y);
    assert Clean([sep]) == [];
  }

  lemma UnparenInsert(a: string, sep: char, b: string)
    requires IsSeparator(sep)
    requires a != [] && b != [] && !IsSpace(b[|b| - 1])
    ensures Clean(Unparen(a + [sep] + b)) == Clean(Unparen(a + b))
  {
    hide Clean;
    hide ParenInner;
    var s1, s2 := a + [sep] + b, a + b;
    var x, y := a[1..], b[..|b| - 1];
    InsertEnds(a, sep, b);
    ParenInnerNoNewline(s1);
    ParenInnerNoNewline(s2);
    assert ('\n' in x + [sep] + y) == ('\n' in x + y);
    if ParenInner(s2).Some? {
      assert Unparen(s1) == "-" + (x + [sep] + y);
      assert Unparen(s2) == "-" + (x + y);
      Associate("-", x + [sep], y);
      Associate("-", x, [sep]);
      Associate("-", x, y);
      CleanInsert("-" + x, sep, y);
    } else {
      assert Unparen(s1) == s1;
      CleanInsert(a, sep, b);
    }
  }

  /** The ends and the inner slices of `a + [sep] + b` and `a + b`. */
  lemma InsertEnds(a: string, sep: char, b: string)
    requires a != [] && b != []
    ensures var s1, s2 := a + [sep] + b, a + b;
      && s1[0] == a[0] && s1[|s1| - 1] == b[|b| - 1]
      && s2[0] == a[0] && s2[|s2| - 1] == b[|b| - 1]
      && s1[1..|s1| - 1] == a[1..] + [sep] + b[..|b| - 1]
      && s2[1..|s2| - 1] == a[1..] + b[..|b| - 1]
  {
    var s1, s2 := a + [sep] + b, a + b;
    assert s1 == [a[0]] + (a[1..] + [sep] + b[..|b| - 1]) + [b[|b| - 1]];
    assert s2 == [a[0]] + (a[1..] + b[..|b| - 1]) + [b[|b| - 1]];
  }

  /** Without a final newline only the plain `(...)` form can match. */
  lemma ParenInnerNoNewline(s: string)
    requires s != [] && s[|s| - 1] != '\n'
    ensures ParenInner(s)
      == if |s| >= 2 && s[0] == '(' && s[|s| - 1] == ')' && '\n' !in s[1..|s| - 1] then Some(s[1..|s| - 1]) else None
  {
  }

  /** `digits.digits`, with or without a leading minus sign, reads as its value. */
  lemma ParseFraction(ip: string, fp: string)
    requires |ip| > 0 && AllDigits(ip) && |fp| > 0 && AllDigits(fp)
    ensures ParseDecimal(ip + "." + fp) == Some(Magnitude(ip, fp))
    ensures ParseDecimal("-" + ip + "." + fp) == Some(-Magnitude(ip, fp))
  {
    hide NatValue;
    hide Magnitude;
    hide ParseUnsigned;
    var u := ip + "." + fp;
    UnsignedFraction(ip, fp);
    assert u[0] == ip[0] && IsDigit(ip[0]);
    assert u[|u| - 1] == fp[|fp| - 1];
    assert DropNewline(u) == u;
    NegatedText(u);
    assert "-" + ip + "." + fp == "-" + u;
  }

  lemma UnsignedFraction(ip: string, fp: string)
    requires |ip| > 0 && AllDigits(ip) && |fp| > 0 && AllDigits(fp)
    ensures ParseUnsigned(ip + "." + fp) == Some(Magnitude(ip, fp))
  {
    var u := ip + "." + fp;
    assert u[..|ip|] == ip && u[|ip| + 1..] == fp && u[|ip|] == '.';
    DotAfterDigits(u, |ip|);
  }

  /** A dot needs digits before it: `.5` is rejected. */
  lemma RejectsLeadingDot(d: string)
    ensures ParseDecimal("." + d) == None
  {
    var c := "." + d;
    var b := DropNewline(c);
    if |c| > 1 {
      assert b[0] == '.';
    }
  }

  /** A dot needs digits after it: `1.` is rejected. */
  lemma RejectsTrailingDot(ip: string)
    requires AllDigits(ip)
    ensures ParseDecimal(ip + ".") == None
  {
    var u := ip + ".";
    assert u[..|ip|] == ip && u[|ip|] == '.';
    DotAfterDigits(u, |ip|);
    NegatedText(u);
  }

  /**
   * An accepted text holds nothing but digits, dots, minus signs and one
   * final newline: `1e3` is rejected.
   */
  lemma AcceptedCharacters(c: string)
    requires ParseDecimal(c).Some?
    ensures forall i :: 0 <= i < |c| ==>
      IsDigit(c[i]) || c[i] == '.' || c[i] == '-' || (i == |c| - 1 && c[i] == '\n')
  {
    ParseDecimalMatches(c);
    var b := DropNewline(c);
    SignedCharacters(b);
    forall i | 0 <= i < |c|
      ensures IsDigit(c[i]) || c[i] == '.' || c[i] == '-' || (i == |c| - 1 && c[i] == '\n')
    {
      if i < |b| {
        assert c[i] == b[i];
      }
    }
  }

  lemma SignedCharacters(b: string)
    requires IsUnsigned(b) || (|b| > 0 && b[0] == '-' && IsUnsigned(b[1..]))
    ensures forall i :: 0 <= i < |b| ==> IsDigit(b[i]) || b[i] == '.' || b[i] == '-'
  {
    if IsUnsigned(b) {
      UnsignedCharacters(b);
    } else {
      UnsignedCharacters(b[1..]);
      forall i | 1 <= i < |b|
        ensures IsDigit(b[i]) || b[i] == '.'
      {
        assert b[i] == b[1..][i - 1];
      }
    }
  }

  lemma UnsignedCharacters(u: string)
    requires IsUnsigned(u)
    ensures forall i :: 0 <= i < |u| ==> IsDigit(u[i]) || u[i] == '.'
  {
    if !(|u| > 0 && AllDigits(u)) {
      var j :| 0 < j < |u| - 1 && u[j] == '.' && AllDigits(u[..j]) && AllDigits(u[j + 1..]);
      forall i | 0 <= i < |u|
        ensures IsDigit(u[i]) || u[i] == '.'
      {
        if i < j {
          assert u[..j][i] == u[i];
        } else if i > j {
          assert u[j + 1..][i - j - 1] == u[i];
        }
      }
    }
  }

  /** A negative amount inside parentheses is rejected: `(-5)` reads as `--5`. */
  lemma RejectsParenNegative(t: string)
    requires '\n' !in t
    requires Clean(t) != [] && Clean(t)[0] == '-'
    ensures ParseMoney("(" + t + ")") == Failure(NotANumber("-" + Clean(t)))
  {
    var c := Clean(t);
    ParenRewrite(t);
    assert Clean("-") == "-";
    CleanAppend("-", t);
    var m := "-" + c;
    var b := DropNewline(m);
    assert b[0] == '-' && b[1] == '-';
    assert b[1..][0] == '-';
    var i := IndexOf(b[1..], '.');
    if i > 0 {
      assert b[1..][..i][0] == '-';
    }
  }
}
