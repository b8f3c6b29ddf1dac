/**
 * The top-level script projections.py: it takes the latest row of the
 * balance history, normalises the cashflow schedule, chooses the range of
 * months to project and runs the monthly loop with its own constants
 * (growth `1 + 0.10/12`, withdrawals of 4% a year from November 2035 on)
 * and its own withdrawal rule, `balances *= 1 - rate/12`.
 *
 * The month transition is `ProjectionEngine.Advance` under the script's
 * policy; the rows carry no inflation-adjusted columns.
 */
module ProjectionScript {
  import opened Wrappers
  import opened Ledger
  import opened Cashflow
  import opened Calendar
  import opened Text
  import opened ProjectionEngine
  import opened Sequences

  /** `1 + 0.10/12`: the monthly growth factor. */
  const Growth: real := 1.0 + 0.10 / 12.0

  /** `withdrawal_rate = .04`. */
  const Rate: real := 0.04

  /** `pd.Timestamp("2035-11-01")`: the first withdrawal month. */
  const FirstWithdrawal: int := MonthIndex(2035, 11)

  /** `pd.DateOffset(years = 30)` from a month start, in months. */
  const Horizon: int := 360

  /** The script's policy: the `1 - rate/12` withdrawal rule. */
  function ScriptPolicy(): Policy
  {
    Policy(Growth, FirstWithdrawal, Rate, MonthlySlice)
  }

  /* ---------------------------------------------------------------- */
  /* The starting point: the latest balance row                       */
  /* ---------------------------------------------------------------- */

  /**
   * A row of the balance history: its date, `None` when the cell is blank
   * (`NaT` after `pd.to_datetime`), and the account cells that are filled.
   */
  datatype BalanceRow = BalanceRow(date: Option<Date>, amounts: map<string, real>)

  /** `a` comes no later than `b` in calendar order. */
  predicate NotLater(a: Date, b: Date)
  {
    || a.year < b.year
    || (a.year == b.year && (a.month < b.month || (a.month == b.month && a.day <= b.day)))
  }

  /**
   * The order of `sort_values("Date")`: dates in calendar order, `NaT`
   * after every date (`na_position="last"`).
   */
  predicate SortsNoLater(a: Option<Date>, b: Option<Date>)
  {
    b.None? || (a.Some? && NotLater(a.value, b.value))
  }

  /**
   * `bal.sort_values("Date").iloc[-1]`: a row that sorts last, the last
   * such row in file order; `None` for an empty history, where `iloc[-1]`
   * raises.
   */
  function Latest(rows: seq<BalanceRow>): (r: Option<BalanceRow>)
    ensures r.None? <==> rows == []
    ensures r.Some? ==> r.value in rows && forall x :: x in rows ==> SortsNoLater(x.date, r.value.date)
  {
    if rows == [] then None
    else
      var last := rows[|rows| - 1];
      var init := rows[..|rows| - 1];
      assert rows == init + [last];
      match Latest(init)
      case None => Some(last)
      case Some(l) =>
        if SortsNoLater(l.date, last.date) then
          assert forall x :: x in init ==> SortsNoLater(x.date, last.date) by {
            forall x | x in init ensures SortsNoLater(x.date, last.date) {
              SortsNoLaterTransitive(x.date, l.date, last.date);
            }
          }
          Some(last)
        else
          Some(l)
  }

  lemma SortsNoLaterTransitive(a: Option<Date>, b: Option<Date>, c: Option<Date>)
    requires SortsNoLater(a, b) && SortsNoLater(b, c)
    ensures SortsNoLater(a, c)
  {
  }

  /** Some row of the history has a blank date. */
  predicate Undated(rows: seq<BalanceRow>)
  {
    exists x :: x in rows && x.date.None?
  }

  /** The row that sorts last has a blank date exactly when some row has one. */
  lemma LatestUndated(rows: seq<BalanceRow>)
    requires rows != []
    ensures Latest(rows).value.date.None? <==> Undated(rows)
  {
    var l := Latest(rows).value;
    if Undated(rows) {
      var x :| x in rows && x.date.None?;
      assert SortsNoLater(x.date, l.date);
    }
  }

  /** `latest["Date"].to_period("M").to_timestamp() + pd.DateOffset(months=1)`. */
  function StartMonth(latest: BalanceRow): int
    requires latest.date.Some?
  {
    MonthStart(latest.date.value) + 1
  }

  /**
   * The first projected month is the calendar month after the latest
   * balance month: later than the month of every row of the history, and
   * right after the month of one of them.
   */
  lemma StartAfterHistory(rows: seq<BalanceRow>)
    requires rows != []
    requires forall x :: x in rows ==> x.date.Some? && 1 <= x.date.value.month <= 12
    ensures var l := Latest(rows).value;
      && l.date.Some?
      && (forall x :: x in rows ==> MonthStart(x.date.value) < StartMonth(l))
      && (exists x :: x in rows && MonthStart(x.date.value) + 1 == StartMonth(l))
  {
    var l := Latest(rows).value;
    forall x | x in rows ensures MonthStart(x.date.value) < StartMonth(l) {
      NotLaterMonth(x.date.value, l.date.value);
    }
  }

  lemma NotLaterMonth(a: Date, b: Date)
    requires NotLater(a, b)
    requires 1 <= a.month <= 12 && 1 <= b.month <= 12
    ensures MonthStart(a) <= MonthStart(b)
  {
  }

  /**
   * `latest[accounts].fillna(0).astype(float)`: one balance per account
   * column, an empty cell counting as zero.
   */
  function StartBalances(accounts: set<string>, latest: BalanceRow): (b: Balances)
    ensures b.Keys == accounts
    ensures forall a :: a in accounts && a !in latest.amounts ==> b[a] == 0.0
    ensures forall a :: a in accounts && a in latest.amounts ==> b[a] == latest.amounts[a]
  {
    map a | a in accounts :: Get(latest.amounts, a)
  }

  /* ---------------------------------------------------------------- */
  /* The cashflow schedule                                            */
  /* ---------------------------------------------------------------- */

  /**
   * A schedule row as read: the amount is `None` when the cell is empty, the
   * start date is `None` when the cell is empty (`NaT`), the end date is
   * `None` when it is empty or not a date (`errors="coerce"`).
   */
  datatype RawEntry = RawEntry(account: string, monthlyAmount: Option<real>, start: Option<Date>, end: Option<Date>)

  /**
   * src/projections.py:46-49: the start moves to the month after the start
   * date's month, the end is truncated to its month, an empty amount is zero
   * and the account name is stripped.
   */
  function NormalizeEntry(r: RawEntry): Entry
  {
    Entry(
      Strip(r.account),
      if r.monthlyAmount.Some? then r.monthlyAmount.value else 0.0,
      if r.start.Some? then Some(MonthStart(r.start.value) + 1) else None,
      if r.end.Some? then Some(MonthStart(r.end.value)) else None)
  }

  function NormalizeSchedule(raw: seq<RawEntry>): (cf: seq<Entry>)
    ensures |cf| == |raw|
    ensures forall i :: 0 <= i < |raw| ==> cf[i] == NormalizeEntry(raw[i])
  {
    seq(|raw|, i requires 0 <= i < |raw| => NormalizeEntry(raw[i]))
  }

  /**
   * A normalised entry is active from the month after its start date's
   * month up to and including its end date's month, forever when it has
   * no end date, and never when it has no start date.
   */
  lemma EntryWindow(r: RawEntry, m: int)
    ensures IsActive(NormalizeEntry(r), m) <==>
      r.start.Some? && MonthStart(r.start.value) < m && (r.end.None? || m <= MonthStart(r.end.value))
  {
  }

  /** So an entry that starts and ends in the same month never contributes. */
  lemma SameMonthEntryInactive(r: RawEntry, m: int)
    requires r.start.Some? && r.end.Some? && MonthStart(r.end.value) == MonthStart(r.start.value)
    ensures !IsActive(NormalizeEntry(r), m)
  {
    EntryWindow(r, m);
  }

  /* ---------------------------------------------------------------- */
  /* The range of months                                              */
  /* ---------------------------------------------------------------- */

  predicate OpenEnded(cf: seq<Entry>)
  {
    exists i :: 0 <= i < |cf| && cf[i].end.None?
  }

  /** `cf["end_date"].dropna().max()` when no end date is missing. */
  function MaxEnd(cf: seq<Entry>): (r: int)
    requires cf != [] && !OpenEnded(cf)
    ensures forall i :: 0 <= i < |cf| ==> cf[i].end.value <= r
    ensures exists i :: 0 <= i < |cf| && cf[i].end.value == r
  {
    var e := cf[0].end.value;
    if |cf| == 1 then e
    else
      assert !OpenEnded(cf[1..]) by {
        forall i | 0 <= i < |cf| - 1 ensures cf[1..][i].end.Some? {
          assert cf[1..][i] == cf[i + 1];
        }
      }
      var rest := MaxEnd(cf[1..]);
      assert forall i :: 1 <= i < |cf| ==> cf[i] == cf[1..][i - 1];
      if e >= rest then e else rest
  }

  /**
   * src/projections.py:51-59: thirty years after the start month when some
   * entry has no end date, otherwise the latest end month. `None` for an empty schedule:
   * both tests are false, the end is `NaT` and `pd.date_range` raises.
   */
  function EndMonth(cf: seq<Entry>, start: int): (r: Option<int>)
    ensures r.None? <==> cf == []
    ensures OpenEnded(cf) ==> r == Some(start + Horizon)
    ensures cf != [] && !OpenEnded(cf) ==>
      r.Some? && (forall i :: 0 <= i < |cf| ==> cf[i].end.value <= r.value)
             && (exists i :: 0 <= i < |cf| && cf[i].end.value == r.value)
  {
    if OpenEnded(cf) then Some(start + Horizon)
    else if cf == [] then None
    else Some(MaxEnd(cf))
  }

  /** `pd.date_range(start, end, freq="MS")`: every month from `start` to `end`. */
  function MonthRange(start: int, end: int): (r: seq<int>)
    ensures |r| == if end < start then 0 else end - start + 1
    ensures forall i :: 0 <= i < |r| ==> r[i] == start + i
    decreases end - start
  {
    if end < start then [] else [start] + MonthRange(start + 1, end)
  }

  /**
   * The range is strictly ascending and holds exactly the months from
   * `start` to `end`; it is empty, so no row is produced, when `end < start`.
   */
  lemma MonthRangeMembers(start: int, end: int)
    ensures forall j, k :: 0 <= j < k < |MonthRange(start, end)| ==>
      MonthRange(start, end)[j] < MonthRange(start, end)[k]
    ensures forall m :: m in MonthRange(start, end) <==> start <= m <= end
  {
    var r := MonthRange(start, end);
    forall m | start <= m <= end ensures m in r {
      assert r[m - start] == m;
    }
  }

  /** What the script computes before its loop. */
  datatype Setup = Setup(start: int, startBalances: Balances, schedule: seq<Entry>, months: seq<int>)

  datatype SetupError =
    | NoBalances  // `bal.iloc[-1]` on an empty history
    | UndatedBalance  // `pd.date_range` with a start of `NaT`, from a blank history date
    | NoSchedule  // `pd.date_range` with an end of `NaT`

  /** src/projections.py:31-61, from the parsed balance history and schedule. */
  function Prepare(accounts: set<string>, history: seq<BalanceRow>, raw: seq<RawEntry>): Result<Setup, SetupError>
  {
    match Latest(history)
    case None => Failure(NoBalances)
    case Some(l) =>
      if l.date.None? then Failure(UndatedBalance) else
      var start := StartMonth(l);
      var cf := NormalizeSchedule(raw);
      match EndMonth(cf, start)
      case None => Failure(NoSchedule)
      case Some(end) => Success(Setup(start, StartBalances(accounts, l), cf, MonthRange(start, end)))
  }

  /**
   * The setup fails exactly when the history is empty, a history date is
   * blank or the schedule is empty, with the first of these errors; otherwise
   * the months run from the month after the latest balance month for 361
   * months when some end date is missing and up to the latest end month
   * otherwise, and the start balances are the latest row's account cells.
   */
  lemma PrepareRange(accounts: set<string>, history: seq<BalanceRow>, raw: seq<RawEntry>)
    ensures Prepare(accounts, history, raw).Failure? <==> history == [] || Undated(history) || raw == []
    ensures history == [] ==> Prepare(accounts, history, raw) == Failure(NoBalances)
    ensures history != [] && Undated(history) ==> Prepare(accounts, history, raw) == Failure(UndatedBalance)
    ensures history != [] && !Undated(history) && raw == [] ==> Prepare(accounts, history, raw) == Failure(NoSchedule)
    ensures history != [] && !Undated(history) && raw != [] ==>
      var s := Prepare(accounts, history, raw).value;
      var l := Latest(history).value;
      && l.date.Some?
      && s.start == StartMonth(l)
      && s.startBalances == StartBalances(accounts, l)
      && s.schedule == NormalizeSchedule(raw)
      && (OpenEnded(s.schedule) ==> s.months == MonthRange(s.start, s.start + Horizon) && |s.months| == Horizon + 1)
      && (!OpenEnded(s.schedule) ==>
            exists i :: (
              && 0 <= i < |raw| && raw[i].end.Some?
              && s.months == MonthRange(s.start, MonthStart(raw[i].end.value))
              && forall j :: 0 <= j < |raw| ==>
                   raw[j].end.Some? && MonthStart(raw[j].end.value) <= MonthStart(raw[i].end.value)))
  {
    hide Sum;
    hide Latest;
    hide NormalizeSchedule;
    hide StartBalances;
    hide MonthRange;
    hide EndMonth;
    if history != [] {
      LatestUndated(history);
    }
    if history != [] && !Undated(history) && raw != [] {
      var l := Latest(history).value;
      var cf := NormalizeSchedule(raw);
      if !OpenEnded(cf) {
        var end := EndMonth(cf, StartMonth(l)).value;
        var i :| 0 <= i < |cf| && cf[i].end.value == end;
        assert cf[i] == NormalizeEntry(raw[i]);
        forall j | 0 <= j < |raw|
          ensures raw[j].end.Some? && MonthStart(raw[j].end.value) <= MonthStart(raw[i].end.value)
        {
          assert cf[j] == NormalizeEntry(raw[j]);
          assert cf[j].end.Some?;
          assert cf[j].end.value <= end;
        }
      }
    }
  }

  /* ---------------------------------------------------------------- */
  /* The loop                                                         */
  /* ---------------------------------------------------------------- */

  /** A row of projection_nominal.csv. */
  datatype ScriptRow = ScriptRow(date: int, balances: Balances, netWorth: real, withdrawal: real)

  /** The rows of the loop over `months` from state `s`. */
  ghost function ScriptRun(cf: seq<Entry>, s: State, months: seq<int>): seq<ScriptRow>
    decreases |months|
  {
    if months == [] then []
    else
      var next := Advance(ScriptPolicy(), cf, s, months[0]);
      [ScriptRow(months[0], next.balances, Sum(next.balances), next.withdrawal)]
        + ScriptRun(cf, next, months[1..])
  }

  /** src/projections.py:63-94: one row per month of `months`. */
  method ProjectNominal(startBal: Balances, cf: seq<Entry>, months: seq<int>) returns (rows: seq<ScriptRow>)
    ensures rows == ScriptRun(cf, State(startBal, 0.0), months)
    ensures |rows| == |months|
    ensures forall i :: 0 <= i < |rows| ==> rows[i].date == months[i] && rows[i].netWorth == Sum(rows[i].balances)
  {
    hide *;
    var balances := startBal;
    var withdrawal := 0.0;
    rows := [];
    for i := 0 to |months|
      invariant rows + ScriptRun(cf, State(balances, withdrawal), months[i..])
             == ScriptRun(cf, State(startBal, 0.0), months)
    {
      var m := months[i];
      ghost var next := Advance(ScriptPolicy(), cf, State(balances, withdrawal), m);
      ScriptRunCons(cf, State(balances, withdrawal), months[i..]);
      ScriptAdvance(cf, State(balances, withdrawal), m);
      assert months[i..][1..] == months[i + 1..];
      balances := Scale(balances, Growth);
      var flows := Flows(cf, m);
      if m >= FirstWithdrawal {
        var total := Total(balances);
        withdrawal := MonthlyDraw(total, Rate);
        balances := Scale(balances, 1.0 - Rate / 12.0);
      }
      balances := Merge(balances, flows);
      var netWorth := Total(balances);
      var row := ScriptRow(m, balances, netWorth, withdrawal);
      assert next == State(balances, withdrawal);
      Associate(rows, [row], ScriptRun(cf, State(balances, withdrawal), months[i + 1..]));
      rows := rows + [row];
    }
    assert months[|months|..] == [];
    ScriptRunLength(cf, State(balances, withdrawal), []);
    ScriptRunShape(cf, State(startBal, 0.0), months);
  }

  /** The rows are the first month's row followed by the rows from the state after it. */
  lemma ScriptRunCons(cf: seq<Entry>, s: State, months: seq<int>)
    requires months != []
    ensures var next := Advance(ScriptPolicy(), cf, s, months[0]);
      ScriptRun(cf, s, months)
      == [ScriptRow(months[0], next.balances, Sum(next.balances), next.withdrawal)] + ScriptRun(cf, next, months[1..])
  {
    hide Sum;
    hide Advance;
  }

  /** One month of the script, the policy's fields written out. */
  lemma ScriptAdvance(cf: seq<Entry>, s: State, m: int)
    ensures var grown := Scale(s.balances, Growth);
      Advance(ScriptPolicy(), cf, s, m)
      == if m >= FirstWithdrawal
         then State(Merge(Scale(grown, 1.0 - Rate / 12.0), Flows(cf, m)), MonthlyDraw(Sum(grown), Rate))
         else State(Merge(grown, Flows(cf, m)), s.withdrawal)
  {
    hide Sum;
    hide Scale;
    hide Merge;
    hide Flows;
  }

  /** Row `i` holds the state after month `i` has been applied. */
  lemma {:induction false} ScriptRunAt(cf: seq<Entry>, s: State, months: seq<int>, i: nat)
    requires i < |months|
    ensures |ScriptRun(cf, s, months)| == |months|
    ensures var st := StateAfter(ScriptPolicy(), cf, s, months, i + 1);
      ScriptRun(cf, s, months)[i] == ScriptRow(months[i], st.balances, Sum(st.balances), st.withdrawal)
    decreases i
  {
    hide Sum;
    var next := Advance(ScriptPolicy(), cf, s, months[0]);
    ScriptRunLength(cf, s, months);
    if i > 0 {
      ScriptRunAt(cf, next, months[1..], i - 1);
    }
  }

  lemma {:induction false} ScriptRunLength(cf: seq<Entry>, s: State, months: seq<int>)
    ensures |ScriptRun(cf, s, months)| == |months|
    decreases |months|
  {
    hide Sum;
    if months != [] {
      ScriptRunLength(cf, Advance(ScriptPolicy(), cf, s, months[0]), months[1..]);
    }
  }

  /** One row per month, in order and dated with it; net worth is the sum of the row's balances. */
  lemma ScriptRunShape(cf: seq<Entry>, s: State, months: seq<int>)
    ensures |ScriptRun(cf, s, months)| == |months|
    ensures forall i :: 0 <= i < |months| ==>
      ScriptRun(cf, s, months)[i].date == months[i]
      && ScriptRun(cf, s, months)[i].netWorth == Sum(ScriptRun(cf, s, months)[i].balances)
  {
    hide Sum;
    ScriptRunLength(cf, s, months);
    forall i | 0 <= i < |months|
      ensures ScriptRun(cf, s, months)[i].date == months[i]
      ensures ScriptRun(cf, s, months)[i].netWorth == Sum(ScriptRun(cf, s, months)[i].balances)
    {
      ScriptRunAt(cf, s, months, i);
    }
  }

  /** Each row is the previous row's state (the start state for the first) advanced by the row's month. */
  lemma ScriptRunStep(cf: seq<Entry>, s: State, months: seq<int>, i: nat)
    requires i < |months|
    ensures |ScriptRun(cf, s, months)| == |months|
    ensures var rows := ScriptRun(cf, s, months);
      var prev := if i == 0 then s else State(rows[i - 1].balances, rows[i - 1].withdrawal);
      var next := Advance(ScriptPolicy(), cf, prev, months[i]);
      rows[i] == ScriptRow(months[i], next.balances, Sum(next.balances), next.withdrawal)
  {
    hide Sum;
    ScriptRunAt(cf, s, months, i);
    StateAfterStep(ScriptPolicy(), cf, s, months, i);
    if i > 0 {
      ScriptRunAt(cf, s, months, i - 1);
    }
  }

  /**
   * With ascending months and `withdrawal = 0` before the loop, every row
   * dated before November 2035 records a zero withdrawal.
   */
  lemma NoWithdrawalBeforeTrigger(cf: seq<Entry>, b: Balances, months: seq<int>, i: nat)
    requires forall j, k :: 0 <= j < k < |months| ==> months[j] <= months[k]
    requires i < |months| && months[i] < FirstWithdrawal
    ensures |ScriptRun(cf, State(b, 0.0), months)| == |months|
    ensures ScriptRun(cf, State(b, 0.0), months)[i].withdrawal == 0.0
  {
    hide Sum;
    hide ScriptRun;
    hide Advance;
    hide StateAfter;
    ScriptRunAt(cf, State(b, 0.0), months, i);
    StateAfterBeforeStart(ScriptPolicy(), cf, State(b, 0.0), months, i + 1);
  }

  /**
   * In a month from November 2035 on, the recorded withdrawal is the grown
   * total times 0.04/12, the balances are the grown ones scaled by
   * `1 - 0.04/12` plus the flows, and that scaling lowers the total by
   * exactly the recorded withdrawal: net worth is the grown net worth minus
   * the withdrawal plus the month's flows.
   */
  lemma WithdrawalMonthDrop(cf: seq<Entry>, s: State, months: seq<int>, i: nat)
    requires i < |months| && months[i] >= FirstWithdrawal
    ensures |ScriptRun(cf, s, months)| == |months|
    ensures var rows := ScriptRun(cf, s, months);
      var grown := Scale(if i == 0 then s.balances else rows[i - 1].balances, Growth);
      && rows[i].withdrawal == Sum(grown) * 0.04 / 12.0
      && rows[i].balances == Merge(Scale(grown, 1.0 - 0.04 / 12.0), Flows(cf, months[i]))
      && Sum(Scale(grown, 1.0 - 0.04 / 12.0)) == Sum(grown) - rows[i].withdrawal
      && rows[i].netWorth == Sum(grown) - rows[i].withdrawal + Sum(Flows(cf, months[i]))
  {
    hide Sum;
    var rows := ScriptRun(cf, s, months);
    ScriptRunStep(cf, s, months, i);
    var prev := if i == 0 then s else State(rows[i - 1].balances, rows[i - 1].withdrawal);
    AdvanceBalances(ScriptPolicy(), cf, prev, months[i]);
    SliceTotal(Rate, Scale(prev.balances, Growth));
    SumMerge(Scale(Scale(prev.balances, Growth), 1.0 - 0.04 / 12.0), Flows(cf, months[i]));
  }

  /** Before November 2035 the month only grows the balances and adds the flows. */
  lemma GrowthMonth(cf: seq<Entry>, s: State, months: seq<int>, i: nat)
    requires i < |months| && months[i] < FirstWithdrawal
    ensures |ScriptRun(cf, s, months)| == |months|
    ensures var rows := ScriptRun(cf, s, months);
      var prev := if i == 0 then s else State(rows[i - 1].balances, rows[i - 1].withdrawal);
      && rows[i].balances == Merge(Scale(prev.balances, Growth), Flows(cf, months[i]))
      && rows[i].withdrawal == prev.withdrawal
      && rows[i].netWorth == Sum(prev.balances) * Growth + Sum(Flows(cf, months[i]))
  {
    hide Sum;
    var rows := ScriptRun(cf, s, months);
    ScriptRunStep(cf, s, months, i);
    var prev := if i == 0 then s else State(rows[i - 1].balances, rows[i - 1].withdrawal);
    GrowthOnly(cf, prev, months[i]);
  }

  lemma GrowthOnly(cf: seq<Entry>, s: State, m: int)
    requires m < FirstWithdrawal
    ensures var next := Advance(ScriptPolicy(), cf, s, m);
      && next.balances == Merge(Scale(s.balances, Growth), Flows(cf, m))
      && next.withdrawal == s.withdrawal
      && Sum(next.balances) == Sum(s.balances) * Growth + Sum(Flows(cf, m))
  {
    hide Sum;
    ScriptAdvance(cf, s, m);
    SumMerge(Scale(s.balances, Growth), Flows(cf, m));
    SumScale(s.balances, Growth);
  }

  /**
   * The whole script: over the prepared range, row `i` is dated with the
   * `i`-th month after the start, and the withdrawal is zero in every row
   * before November 2035.
   */
  lemma ScriptOverRange(accounts: set<string>, history: seq<BalanceRow>, raw: seq<RawEntry>, i: nat)
    requires Prepare(accounts, history, raw).Success?
    requires var s := Prepare(accounts, history, raw).value; i < |s.months|
    ensures var s := Prepare(accounts, history, raw).value;
      var rows := ScriptRun(s.schedule, State(s.startBalances, 0.0), s.months);
      && |rows| == |s.months|
      && rows[i].date == s.start + i
      && (s.start + i < FirstWithdrawal ==> rows[i].withdrawal == 0.0)
  {
    hide Sum;
    var s := Prepare(accounts, history, raw).value;
    var l := Latest(history).value;
    var end := EndMonth(NormalizeSchedule(raw), StartMonth(l)).value;
    assert s.months == MonthRange(s.start, end);
    MonthRangeMembers(s.start, end);
    ScriptRunShape(s.schedule, State(s.startBalances, 0.0), s.months);
    if s.start + i < FirstWithdrawal {
      NoWithdrawalBeforeTrigger(s.schedule, s.startBalances, s.months, i);
    }
  }
}
