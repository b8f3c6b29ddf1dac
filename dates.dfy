/**
 * The month-start date normalisers of the balance entry script:
 * `prompt_date`, minus the console prompt (the typed text and today's date
 * are parameters), and `_normalize_date_str` from `read_existing_dates`.
 * Both accept `%Y-%m-%d` and `%m/%d/%Y` as `datetime.strptime` reads them,
 * try them in that order, and write the first of the month as `M/1/YYYY`
 * without zero padding.
 *
 * `strptime` is modelled on its pattern: `%Y` is exactly four digits, `%m`
 * one or two digits from 1 to 12, `%d` one or two digits from 1 to 31 or a
 * space and one digit; the whole text must be consumed, and the date must
 * exist (years 1..9999, the month's length with Gregorian leap years).
 */
module Dates {
  import opened Wrappers
  import opened Text
  import opened Calendar
  import opened Sequences

  predicate IsLeapYear(y: int)
  {
    y % 4 == 0 && (y % 100 != 0 || y % 400 == 0)
  }

  function DaysInMonth(y: int, m: int): int
  {
    if m == 2 then (if IsLeapYear(y) then 29 else 28)
    else if m == 4 || m == 6 || m == 9 || m == 11 then 30
    else 31
  }

  /** `datetime.date(year, month, day)` does not raise. */
  predicate IsValidDate(d: Date)
  {
    1 <= d.year <= 9999 && 1 <= d.month <= 12 && 1 <= d.day <= DaysInMonth(d.year, d.month)
  }

  /** `%Y`: `\d\d\d\d`. */
  predicate YearToken(t: string)
  {
    |t| == 4 && AllDigits(t)
  }

  /** `%m`: `1[0-2]|0[1-9]|[1-9]`. */
  predicate MonthToken(t: string)
  {
    1 <= |t| <= 2 && AllDigits(t) && 1 <= NatValue(t) <= 12
  }

  /** `%d`: `3[01]|[12]\d|0[1-9]|[1-9]| [1-9]`. */
  predicate DayToken(t: string)
  {
    || (1 <= |t| <= 2 && AllDigits(t) && 1 <= NatValue(t) <= 31)
    || (|t| == 2 && t[0] == ' ' && '1' <= t[1] <= '9')
  }

  function DayValue(t: string): nat
    requires DayToken(t)
  {
    if t[0] == ' ' then DigitValue(t[1]) else NatValue(t)
  }

  /** The date the three tokens stand for, when it exists. */
  function MakeDate(y: string, m: string, d: string): Option<Date>
    requires YearToken(y) && MonthToken(m) && DayToken(d)
  {
    var date := Date(NatValue(y), NatValue(m), DayValue(d));
    if IsValidDate(date) then Some(date) else None
  }

  /** `datetime.strptime(s, "%Y-%m-%d").date()`, `None` where it raises. */
  function ParseIso(s: string): Option<Date>
  {
    if |s| >= 5 && YearToken(s[..4]) && s[4] == '-' then
      var rest := s[5..];
      var i := IndexOf(rest, '-');
      if i < |rest| && MonthToken(rest[..i]) && DayToken(rest[i + 1..]) then
        MakeDate(s[..4], rest[..i], rest[i + 1..])
      else None
    else None
  }

  /** `datetime.strptime(s, "%m/%d/%Y").date()`, `None` where it raises. */
  function ParseUs(s: string): Option<Date>
  {
    var i := IndexOf(s, '/');
    if i < |s| && MonthToken(s[..i]) then
      var rest := s[i + 1..];
      var j := IndexOf(rest, '/');
      if j < |rest| && DayToken(rest[..j]) && YearToken(rest[j + 1..]) then
        MakeDate(rest[j + 1..], s[..i], rest[..j])
      else None
    else None
  }

  /** The loop over `("%Y-%m-%d", "%m/%d/%Y")`: the first format that parses wins. */
  function ParseEither(s: string): (r: Option<Date>)
    ensures r.Some? ==> IsValidDate(r.value)
  {
    match ParseIso(s)
    case Some(d) => Some(d)
    case None => ParseUs(s)
  }

  /** `f"{dt.month}/{dt.day}/{dt.year}"` for the first of the month. */
  function Render(year: nat, month: nat): string
  {
    ShowNat(month) + "/1/" + ShowNat(year)
  }

  /**
   * `re.match(r"^\d{4}-\d{2}$", raw)` on the stripped text (which cannot end
   * with the newline that `$` would also accept).
   */
  predicate IsYearMonth(raw: string)
  {
    |raw| == 7 && AllDigits(raw[..4]) && raw[4] == '-' && AllDigits(raw[5..])
  }

  /** `YYYY-MM` is read as `YYYY-MM-01`. */
  function Extend(raw: string): string
  {
    if IsYearMonth(raw) then raw + "-01" else raw
  }

  datatype DateError = UnsupportedFormat  // "Date must be YYYY-MM, YYYY-MM-DD, or M/D/YYYY ..."

  /** `prompt_date` on the typed text `input`; `today` gives the blank-input default. */
  function PromptDate(input: string, today: Date): Result<string, DateError>
    requires IsValidDate(today)
  {
    var raw := Strip(input);
    if raw == [] then Success(Render(today.year, today.month))
    else
      match ParseEither(Extend(raw))
      case Some(d) => Success(Render(d.year, d.month))
      case None => Failure(UnsupportedFormat)
  }

  /** `_normalize_date_str`; `None` and `""` are both blank (`s or ""`). */
  function NormalizeDateStr(s: Option<string>): string
  {
    var t := Strip(if s.Some? then s.value else "");
    if t == [] then ""
    else
      match ParseEither(t)
      case Some(d) => Render(d.year, d.month)
      case None => t
  }

  /** Three tokens joined by `-` read as `%Y-%m-%d` give the date they name. */
  lemma IsoReads(y: string, mo: string, d: string)
    requires YearToken(y) && MonthToken(mo) && DayToken(d)
    ensures ParseIso(y + "-" + mo + "-" + d) == MakeDate(y, mo, d)
  {
    var s := y + "-" + mo + "-" + d;
    var rest := s[5..];
    assert s[..4] == y && s[4] == '-';
    assert rest == mo + "-" + d;
    assert rest[..|mo|] == mo && rest[|mo|] == '-' && rest[|mo| + 1..] == d;
    NoDigitIsSeparator(mo, '-');
    IndexOfAt(rest, '-', |mo|);
  }

  /** Three tokens joined by `/` read as `%m/%d/%Y` give the date they name. */
  lemma UsReads(mo: string, d: string, y: string)
    requires MonthToken(mo) && DayToken(d) && YearToken(y)
    ensures ParseUs(mo + "/" + d + "/" + y) == MakeDate(y, mo, d)
  {
    var s := mo + "/" + d + "/" + y;
    assert s[..|mo|] == mo && s[|mo|] == '/';
    NoDigitIsSeparator(mo, '/');
    IndexOfAt(s, '/', |mo|);
    var rest := s[|mo| + 1..];
    assert rest == d + "/" + y;
    assert rest[..|d|] == d && rest[|d|] == '/' && rest[|d| + 1..] == y;
    assert '/' !in d;
    IndexOfAt(rest, '/', |d|);
  }

  /**
   * Conversely, `%Y-%m-%d` reads nothing else: every text it accepts is a
   * year, a month and a day token joined by `-`, read as the date they name.
   */
  lemma IsoShape(s: string)
    requires ParseIso(s).Some?
    ensures exists y, mo, d :: (
      && YearToken(y) && MonthToken(mo) && DayToken(d)
      && s == y + "-" + mo + "-" + d && ParseIso(s) == MakeDate(y, mo, d))
  {
    hide NatValue;
    hide MakeDate;
    var y, rest := s[..4], s[5..];
    var i := IndexOf(rest, '-');
    var mo, d := rest[..i], rest[i + 1..];
    assert rest == mo + "-" + d;
    assert s == y + "-" + rest;
    assert s == y + "-" + mo + "-" + d;
  }

  /**
   * Conversely, `%m/%d/%Y` reads nothing else: every text it accepts is a
   * month, a day and a year token joined by `/`, read as the date they name.
   */
  lemma UsShape(s: string)
    requires ParseUs(s).Some?
    ensures exists mo, d, y :: (
      && MonthToken(mo) && DayToken(d) && YearToken(y)
      && s == mo + "/" + d + "/" + y && ParseUs(s) == MakeDate(y, mo, d))
  {
    hide NatValue;
    hide MakeDate;
    var i := IndexOf(s, '/');
    var mo, rest := s[..i], s[i + 1..];
    var j := IndexOf(rest, '/');
    var d, y := rest[..j], rest[j + 1..];
    SplitAround(s, i);
    SplitAround(rest, j);
    Associate(mo + "/", d + "/", y);
    Associate(mo + "/", d, "/");
  }

  lemma NoDigitIsSeparator(t: string, ch: char)
    requires AllDigits(t) && !IsDigit(ch)
    ensures ch !in t
  {
  }

  /** A day-1 date exists in every month of every year from 1 to 9999. */
  lemma FirstOfMonthValid(y: int, m: int)
    requires 1 <= y <= 9999 && 1 <= m <= 12
    ensures IsValidDate(Date(y, m, 1))
  {
  }

  /** A month written with one or two digits is a `%m` token for that month. */
  lemma ShowMonthToken(m: nat)
    requires 1 <= m <= 12
    ensures MonthToken(ShowNat(m)) && NatValue(ShowNat(m)) == m
  {
    ShowNatSmall(m);
    NatValueShowNat(m);
  }

  /**
   * The text written for a month start never looks like `%Y-%m-%d` or
   * `YYYY-MM`, reads back through `%m/%d/%Y` as the first of that month when
   * the year has four digits, and is not read at all otherwise.
   */
  lemma RenderReadsBack(y: nat, m: nat)
    requires 1 <= y && 1 <= m <= 12
    ensures Strip(Render(y, m)) == Render(y, m)
    ensures !IsYearMonth(Render(y, m))
    ensures ParseEither(Render(y, m)) == if y <= 9999 && 1000 <= y then Some(Date(y, m, 1)) else None
  {
    RenderNotIso(y, m);
    RenderUs(y, m);
  }

  lemma RenderNotIso(y: nat, m: nat)
    requires 1 <= y && 1 <= m <= 12
    ensures Strip(Render(y, m)) == Render(y, m)
    ensures !IsYearMonth(Render(y, m))
    ensures ParseIso(Render(y, m)) == None
  {
    var ms, ys := ShowNat(m), ShowNat(y);
    var r := Render(y, m);
    ShowNatSmall(m);
    assert r[|ms|] == '/';
    assert r[0] == ms[0] && r[|r| - 1] == ys[|ys| - 1];
    StripUnchanged(r);
    if |r| >= 5 {
      assert r[..4][|ms|] == '/';
    }
  }

  lemma RenderUs(y: nat, m: nat)
    requires 1 <= y && 1 <= m <= 12
    ensures ParseUs(Render(y, m)) == if y <= 9999 && 1000 <= y then Some(Date(y, m, 1)) else None
  {
    var ms, ys := ShowNat(m), ShowNat(y);
    var r := Render(y, m);
    ShowMonthToken(m);
    assert r[|ms|] == '/' && r[..|ms|] == ms;
    IndexOfAt(r, '/', |ms|);
    var rest := r[|ms| + 1..];
    assert rest == "1/" + ys;
    IndexOfAt(rest, '/', 1);
    assert rest[..1] == "1" && rest[2..] == ys;
    assert DayToken("1") && DayValue("1") == 1;
    ShowNatFour(y);
    NatValueShowNat(y);
    if 1000 <= y <= 9999 {
      FirstOfMonthValid(y, m);
    }
  }

  /** A written month start is a fixed point of the normaliser. */
  lemma NormalizeKeepsRender(y: nat, m: nat)
    requires 1 <= y && 1 <= m <= 12
    ensures NormalizeDateStr(Some(Render(y, m))) == Render(y, m)
  {
    RenderReadsBack(y, m);
  }

  /** Normalising twice is normalising once. */
  lemma NormalizeIdempotent(s: Option<string>)
    ensures NormalizeDateStr(Some(NormalizeDateStr(s))) == NormalizeDateStr(s)
  {
    var t := Strip(if s.Some? then s.value else "");
    if t != [] {
      match ParseEither(t)
      case Some(d) =>
        NormalizeKeepsRender(d.year, d.month);
      case None =>
        StripIdempotent(if s.Some? then s.value else "");
    }
  }

  /** The result is blank exactly when the input is missing or whitespace only. */
  lemma NormalizeBlank(s: Option<string>)
    ensures NormalizeDateStr(s) == "" <==> s.None? || AllSpace(s.value)
  {
    var x := if s.Some? then s.value else "";
    StripEmpty(x);
    var t := Strip(x);
    if t != [] && ParseEither(t).Some? {
      var d := ParseEither(t).value;
      assert |Render(d.year, d.month)| >= 1;
    }
  }

  /** A text neither format reads is returned stripped and otherwise unchanged. */
  lemma NormalizeUnknown(s: string)
    requires ParseEither(Strip(s)) == None
    ensures NormalizeDateStr(Some(s)) == Strip(s)
  {
  }

  /** Blank input gives the first of the current month. */
  lemma PromptDateBlank(input: string, today: Date)
    requires IsValidDate(today) && AllSpace(input)
    ensures PromptDate(input, today) == Success(Render(today.year, today.month))
  {
    StripEmpty(input);
  }

  /**
   * `prompt_date` raises exactly when the input is not blank and neither
   * format reads it (after the `YYYY-MM` extension).
   */
  lemma PromptDateRejects(input: string, today: Date)
    requires IsValidDate(today)
    ensures PromptDate(input, today).Failure? <==>
      !AllSpace(input) && ParseEither(Extend(Strip(input))) == None
  {
    StripEmpty(input);
  }

  /**
   * What `prompt_date` returns is a month-start text: the normaliser keeps
   * it, and when it has a four-digit year it reads back as day 1 and is
   * returned unchanged when typed in again.
   */
  lemma PromptDateOutput(input: string, today: Date, r: string)
    requires IsValidDate(today)
    requires PromptDate(input, today) == Success(r)
    ensures NormalizeDateStr(Some(r)) == r
    ensures ParseEither(r).Some? ==> ParseEither(r).value.day == 1 && PromptDate(r, today) == Success(r)
  {
    var raw := Strip(input);
    var d := if raw == [] then today else ParseEither(Extend(raw)).value;
    RenderReadsBack(d.year, d.month);
  }

  /** `YYYY-MM` is read as the first day of that month: the same as `YYYY-MM-01`. */
  lemma YearMonthIsFirstDay(ym: string, today: Date)
    requires IsValidDate(today) && IsYearMonth(ym)
    ensures PromptDate(ym, today) == PromptDate(ym + "-01", today)
  {
    var b := ym + "-01";
    assert ym[..4][0] == ym[0] && ym[5..][1] == ym[6];
    assert |b| == 10 && b[0] == ym[0] && b[9] == '1';
    DigitNotSpace(ym[0]);
    DigitNotSpace(ym[6]);
    StripUnchanged(ym);
    StripUnchanged(b);
  }

  /**
   * On a non-blank text that is not `YYYY-MM` and that one of the formats
   * reads, `prompt_date` returns what `_normalize_date_str` returns.
   */
  lemma PromptAgreesWithNormalize(input: string, today: Date)
    requires IsValidDate(today)
    requires Strip(input) != [] && !IsYearMonth(Strip(input)) && ParseEither(Strip(input)).Some?
    ensures PromptDate(input, today) == Success(NormalizeDateStr(Some(input)))
  {
  }
}
