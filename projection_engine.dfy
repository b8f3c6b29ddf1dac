/**
 * `projection_engine(start_bal, cf, months, assumptions)`: the monthly
 * simulation. For each month it grows every balance by one factor, selects
 * and sums the active cashflows, from the withdrawal start month on records
 * a withdrawal and scales every balance down by one factor, adds the flows,
 * and emits a row with the balances, their sum, the withdrawal and their
 * inflation-adjusted companions.
 *
 * The month transition (`Advance`) and the withdrawal rule are shared with
 * the script version of the loop (module ProjectionScript), which uses a
 * different growth factor and a different withdrawal rule.
 */
module ProjectionEngine {
  import opened Ledger
  import opened Cashflow
  import opened Sequences

  /**
   * The entries of `assumptions` the function reads, plus `annualReturn`,
   * which it never reads (growth is hard-coded). The birthday is left out
   * with the `Age` column. `withdrawalStart` is the first month whose first
   * day is on or after `withdrawal_start_date`, which is what the test
   * `m >= withdrawal_start_date` on month starts selects.
   */
  datatype Assumptions = Assumptions(
    annualReturn: real,
    inflation: real,
    withdrawalStart: int,
    withdrawalRate: real,
    basis: int)

  /**
   * The fractional powers the source evaluates in floating point, given as
   * values: `growth` stands for `(1 + 0.10) ** (1/12)`, `retained` for
   * `(1 - withdrawal_rate) ** (1/12)` and `realValue(d)` for
   * `(1 + inflation) ** (d / 12)`.
   */
  datatype Powers = Powers(growth: real, retained: real, realValue: int -> real)

  /**
   * The two withdrawal rules of the repository: scaling by a given factor
   * (`(1 - rate) ** (1/12)` in projection_engine.py) and scaling by
   * `1 - rate / 12` (projections.py). They are kept apart on purpose.
   */
  datatype WithdrawalRule = AnnualRoot(factor: real) | MonthlySlice

  /** The factor every balance is multiplied by in a withdrawal month. */
  function Retained(rule: WithdrawalRule, rate: real): real
  {
    match rule
    case AnnualRoot(f) => f
    case MonthlySlice => 1.0 - rate / 12.0
  }

  /** The recorded withdrawal: the grown total times the annual rate over twelve. */
  function MonthlyDraw(total: real, rate: real): real
  {
    total * rate / 12.0
  }

  /** Growth factor, first withdrawal month, annual rate and rule. */
  datatype Policy = Policy(growth: real, start: int, rate: real, rule: WithdrawalRule)

  /** What the loop carries from one month to the next. */
  datatype State = State(balances: Balances, withdrawal: real)

  /** The withdrawal policy on grown balances: the balances after it and the amount. */
  ghost function Withdraw(rule: WithdrawalRule, rate: real, grown: Balances): (Balances, real)
  {
    (Scale(grown, Retained(rule, rate)), MonthlyDraw(Sum(grown), rate))
  }

  /** One month: grow, withdraw from the start month on, add the month's flows. */
  ghost function Advance(p: Policy, cf: seq<Entry>, s: State, m: int): State
  {
    var grown := Scale(s.balances, p.growth);
    var flows := Flows(cf, m);
    if m >= p.start then
      var (after, w) := Withdraw(p.rule, p.rate, grown);
      State(Merge(after, flows), w)
    else
      State(Merge(grown, flows), s.withdrawal)
  }

  /** An output row; `Age` is not modelled. */
  datatype Row = Row(
    date: int,
    balances: Balances,
    netWorth: real,
    withdrawal: real,
    netWorthReal: real,
    withdrawalReal: real)

  /** A nominal amount re-expressed with the month's inflation factor. */
  function RealValue(nominal: real, factor: real): real
  {
    nominal * factor
  }

  /**
   * The row emitted for month `m` once the month's state is computed; the
   * inflation factor is taken at `basis - m` months.
   */
  ghost function Snapshot(a: Assumptions, pw: Powers, s: State, m: int): Row
  {
    var d := pw.realValue(a.basis - m);
    Row(m, s.balances, Sum(s.balances), s.withdrawal, Sum(Scale(s.balances, d)), RealValue(s.withdrawal, d))
  }

  /** projection_engine.py's policy: hard-coded growth, the annual-root withdrawal rule. */
  function EnginePolicy(a: Assumptions, pw: Powers): Policy
  {
    Policy(pw.growth, a.withdrawalStart, a.withdrawalRate, AnnualRoot(pw.retained))
  }

  /** The rows of a run over `months` from state `s`. */
  ghost function Run(a: Assumptions, pw: Powers, cf: seq<Entry>, s: State, months: seq<int>): seq<Row>
    decreases |months|
  {
    if months == [] then []
    else
      var next := Advance(EnginePolicy(a, pw), cf, s, months[0]);
      [Snapshot(a, pw, next, months[0])] + Run(a, pw, cf, next, months[1..])
  }

  /** The loop of `projection_engine`, one row per month of `months`. */
  method Project(startBal: Balances, cf: seq<Entry>, months: seq<int>, a: Assumptions, pw: Powers)
    returns (rows: seq<Row>)
    ensures rows == Run(a, pw, cf, State(startBal, 0.0), months)
    ensures |rows| == |months|
    ensures forall i :: 0 <= i < |rows| ==> rows[i].date == months[i] && rows[i].netWorth == Sum(rows[i].balances)
  {
    hide *;
    var balances := startBal;
    var withdrawal := 0.0;
    rows := [];
    for i := 0 to |months|
      invariant rows + Run(a, pw, cf, State(balances, withdrawal), months[i..])
             == Run(a, pw, cf, State(startBal, 0.0), months)
    {
      var m := months[i];
      ghost var next := Advance(EnginePolicy(a, pw), cf, State(balances, withdrawal), m);
      RunCons(a, pw, cf, State(balances, withdrawal), months[i..]);
      EngineAdvance(a, pw, cf, State(balances, withdrawal), m);
      assert months[i..][1..] == months[i + 1..];
      balances := Scale(balances, pw.growth);
      var flows := Flows(cf, m);
      if m >= a.withdrawalStart {
        var total := Total(balances);
        withdrawal := MonthlyDraw(total, a.withdrawalRate);
        balances := Scale(balances, pw.retained);
      }
      balances := Merge(balances, flows);
      var d := pw.realValue(a.basis - m);
      var netWorth := Total(balances);
      var netWorthReal := Total(Scale(balances, d));
      var row := Row(m, balances, netWorth, withdrawal, netWorthReal, RealValue(withdrawal, d));
      assert next == State(balances, withdrawal);
      SnapshotRow(a, pw, next, m);
      Associate(rows, [row], Run(a, pw, cf, State(balances, withdrawal), months[i + 1..]));
      rows := rows + [row];
    }
    assert months[|months|..] == [];
    RunLength(a, pw, cf, State(balances, withdrawal), []);
    RunShape(a, pw, cf, State(startBal, 0.0), months);
  }

  /** A run is the first month's row followed by the run from the state after it. */
  lemma RunCons(a: Assumptions, pw: Powers, cf: seq<Entry>, s: State, months: seq<int>)
    requires months != []
    ensures var next := Advance(EnginePolicy(a, pw), cf, s, months[0]);
      Run(a, pw, cf, s, months) == [Snapshot(a, pw, next, months[0])] + Run(a, pw, cf, next, months[1..])
  {
    hide Sum;
    hide Advance;
    hide Snapshot;
  }

  /** One month under projection_engine's policy, the policy's fields written out. */
  lemma EngineAdvance(a: Assumptions, pw: Powers, cf: seq<Entry>, s: State, m: int)
    ensures var grown := Scale(s.balances, pw.growth);
      Advance(EnginePolicy(a, pw), cf, s, m)
      == if m >= a.withdrawalStart
         then State(Merge(Scale(grown, pw.retained), Flows(cf, m)), MonthlyDraw(Sum(grown), a.withdrawalRate))
         else State(Merge(grown, Flows(cf, m)), s.withdrawal)
  {
    hide Sum;
  }

  /** The state after the first `n` months of `months`. */
  ghost function StateAfter(p: Policy, cf: seq<Entry>, s: State, months: seq<int>, n: nat): State
    requires n <= |months|
    decreases n
  {
    if n == 0 then s else StateAfter(p, cf, Advance(p, cf, s, months[0]), months[1..], n - 1)
  }

  /** Row `i` is the snapshot of the state after month `i` has been applied. */
  lemma {:induction false} RunAt(a: Assumptions, pw: Powers, cf: seq<Entry>, s: State, months: seq<int>, i: nat)
    requires i < |months|
    ensures |Run(a, pw, cf, s, months)| == |months|
    ensures Run(a, pw, cf, s, months)[i]
         == Snapshot(a, pw, StateAfter(EnginePolicy(a, pw), cf, s, months, i + 1), months[i])
    decreases i
  {
    hide Sum;
    hide Advance;
    hide Snapshot;
    var next := Advance(EnginePolicy(a, pw), cf, s, months[0]);
    RunLength(a, pw, cf, s, months);
    if i > 0 {
      RunAt(a, pw, cf, next, months[1..], i - 1);
    }
  }

  lemma {:induction false} RunLength(a: Assumptions, pw: Powers, cf: seq<Entry>, s: State, months: seq<int>)
    ensures |Run(a, pw, cf, s, months)| == |months|
    decreases |months|
  {
    hide Sum;
    hide Advance;
    hide Snapshot;
    if months != [] {
      RunLength(a, pw, cf, Advance(EnginePolicy(a, pw), cf, s, months[0]), months[1..]);
    }
  }

  /** Each month's state is the previous month's state advanced by that month. */
  lemma {:induction false} StateAfterStep(p: Policy, cf: seq<Entry>, s: State, months: seq<int>, n: nat)
    requires n < |months|
    ensures StateAfter(p, cf, s, months, n + 1) == Advance(p, cf, StateAfter(p, cf, s, months, n), months[n])
    decreases n
  {
    hide Sum;
    hide Advance;
    if n > 0 {
      StateAfterStep(p, cf, Advance(p, cf, s, months[0]), months[1..], n - 1);
    }
  }

  /**
   * One row per month, in order, dated with that month; net worth is the sum
   * of the row's balances and the real companions are the nominal values
   * times the month's inflation factor.
   */
  lemma RunShape(a: Assumptions, pw: Powers, cf: seq<Entry>, s: State, months: seq<int>)
    ensures |Run(a, pw, cf, s, months)| == |months|
    ensures forall i :: 0 <= i < |months| ==>
      var r := Run(a, pw, cf, s, months)[i];
      var d := pw.realValue(a.basis - months[i]);
      && r.date == months[i]
      && r.netWorth == Sum(r.balances)
      && r.netWorthReal == RealValue(r.netWorth, d)
      && r.withdrawalReal == RealValue(r.withdrawal, d)
  {
    hide Sum;
    hide Run;
    hide Advance;
    hide Snapshot;
    hide StateAfter;
    RunLength(a, pw, cf, s, months);
    forall i | 0 <= i < |months|
      ensures var r := Run(a, pw, cf, s, months)[i];
        var d := pw.realValue(a.basis - months[i]);
        && r.date == months[i]
        && r.netWorth == Sum(r.balances)
        && r.netWorthReal == RealValue(r.netWorth, d)
        && r.withdrawalReal == RealValue(r.withdrawal, d)
    {
      RunAt(a, pw, cf, s, months, i);
      SnapshotShape(a, pw, StateAfter(EnginePolicy(a, pw), cf, s, months, i + 1), months[i]);
    }
  }

  lemma SnapshotShape(a: Assumptions, pw: Powers, s: State, m: int)
    ensures var r := Snapshot(a, pw, s, m);
      var d := pw.realValue(a.basis - m);
      && r.date == m
      && r.netWorth == Sum(r.balances)
      && r.netWorthReal == RealValue(r.netWorth, d)
      && r.withdrawalReal == RealValue(r.withdrawal, d)
  {
    hide Sum;
    SumScale(s.balances, pw.realValue(a.basis - m));
  }

  lemma SnapshotRow(a: Assumptions, pw: Powers, s: State, m: int)
    ensures var d := pw.realValue(a.basis - m);
      Snapshot(a, pw, s, m) == Row(m, s.balances, Sum(s.balances), s.withdrawal, Sum(Scale(s.balances, d)), RealValue(s.withdrawal, d))
  {
    hide Sum;
  }

  /** When the month is the basis month the real companions equal the nominal values. */
  lemma BasisMonth(a: Assumptions, pw: Powers, cf: seq<Entry>, s: State, months: seq<int>, i: nat)
    requires pw.realValue(0) == 1.0
    requires i < |months| && months[i] == a.basis
    ensures |Run(a, pw, cf, s, months)| == |months|
    ensures var r := Run(a, pw, cf, s, months)[i];
      r.netWorthReal == r.netWorth && r.withdrawalReal == r.withdrawal
  {
    hide Sum;
    hide Run;
    hide Advance;
    hide Snapshot;
    RunShape(a, pw, cf, s, months);
  }

  /** The factor a month applies on top of growth: the retained share from the start month on. */
  function MonthFactor(p: Policy, m: int): real
  {
    if m >= p.start then Retained(p.rule, p.rate) else 1.0
  }

  /**
   * The effect of one month on each account: an account with no flow
   * changes only by growth and, in a withdrawal month, the common
   * withdrawal factor; an account that only the flows name starts from zero.
   */
  lemma AdvanceAccounts(p: Policy, cf: seq<Entry>, s: State, m: int)
    ensures Advance(p, cf, s, m).balances.Keys == s.balances.Keys + Flows(cf, m).Keys
    ensures forall a :: a in s.balances ==>
      Advance(p, cf, s, m).balances[a] == s.balances[a] * p.growth * MonthFactor(p, m) + Get(Flows(cf, m), a)
    ensures forall a :: a !in s.balances && a in Flows(cf, m) ==>
      Advance(p, cf, s, m).balances[a] == Flows(cf, m)[a]
    ensures Advance(p, cf, s, m).withdrawal
         == if m >= p.start then MonthlyDraw(Sum(Scale(s.balances, p.growth)), p.rate) else s.withdrawal
  {
    hide Sum;
    AdvanceBalances(p, cf, s, m);
    forall a | a in s.balances
      ensures Advance(p, cf, s, m).balances[a]
           == s.balances[a] * p.growth * MonthFactor(p, m) + Get(Flows(cf, m), a)
    {
      AdvanceAt(p, cf, s, m, a);
    }
  }

  lemma AdvanceAt(p: Policy, cf: seq<Entry>, s: State, m: int, a: string)
    requires a in s.balances
    ensures Advance(p, cf, s, m).balances[a] == s.balances[a] * p.growth * MonthFactor(p, m) + Get(Flows(cf, m), a)
  {
    hide *;
    AdvanceBalances(p, cf, s, m);
    MergeScaledAt(s.balances, p.growth, MonthFactor(p, m), Flows(cf, m), a);
  }

  /** The balances after one month are the grown balances, scaled by the month's factor, plus the flows. */
  lemma AdvanceBalances(p: Policy, cf: seq<Entry>, s: State, m: int)
    ensures Advance(p, cf, s, m).balances == Merge(Scale(Scale(s.balances, p.growth), MonthFactor(p, m)), Flows(cf, m))
  {
    hide Sum;
    if m < p.start {
      var grown := Scale(s.balances, p.growth);
      assert Scale(grown, 1.0) == grown;
    }
  }

  lemma MergeScaledAt(b: Balances, g: real, k: real, flows: Balances, a: string)
    requires a in b
    ensures Merge(Scale(Scale(b, g), k), flows)[a] == b[a] * g * k + Get(flows, a)
  {
    ScaleTwice(b, g, k, a);
  }

  /**
   * Each row is the snapshot of the previous row's state (the start state
   * for the first row) advanced by the row's month: the loop carries the
   * balances and the withdrawal from one month to the next.
   */
  lemma RunStep(a: Assumptions, pw: Powers, cf: seq<Entry>, s: State, months: seq<int>, i: nat)
    requires i < |months|
    ensures |Run(a, pw, cf, s, months)| == |months|
    ensures var rows := Run(a, pw, cf, s, months);
      var prev := if i == 0 then s else State(rows[i - 1].balances, rows[i - 1].withdrawal);
      rows[i] == Snapshot(a, pw, Advance(EnginePolicy(a, pw), cf, prev, months[i]), months[i])
  {
    hide Sum;
    hide Run;
    hide Advance;
    RunAt(a, pw, cf, s, months, i);
    StateAfterStep(EnginePolicy(a, pw), cf, s, months, i);
    if i > 0 {
      RunAt(a, pw, cf, s, months, i - 1);
    }
  }

  /** While no month has reached the start month the carried withdrawal is unchanged. */
  lemma {:induction false} StateAfterBeforeStart(p: Policy, cf: seq<Entry>, s: State, months: seq<int>, n: nat)
    requires n <= |months|
    requires forall j :: 0 <= j < n ==> months[j] < p.start
    ensures StateAfter(p, cf, s, months, n).withdrawal == s.withdrawal
    decreases n
  {
    hide Sum;
    hide Advance;
    if n > 0 {
      AdvanceKeepsWithdrawal(p, cf, s, months[0]);
      StateAfterBeforeStart(p, cf, Advance(p, cf, s, months[0]), months[1..], n - 1);
    }
  }

  lemma AdvanceKeepsWithdrawal(p: Policy, cf: seq<Entry>, s: State, m: int)
    requires m < p.start
    ensures Advance(p, cf, s, m).withdrawal == s.withdrawal
  {
    hide Sum;
  }

  /**
   * With months in ascending order and no withdrawal carried in, every row
   * dated before the withdrawal start month records a zero withdrawal.
   */
  lemma WithdrawalBeforeStart(a: Assumptions, pw: Powers, cf: seq<Entry>, b: Balances, months: seq<int>, i: nat)
    requires forall j, k :: 0 <= j < k < |months| ==> months[j] <= months[k]
    requires i < |months| && months[i] < a.withdrawalStart
    ensures |Run(a, pw, cf, State(b, 0.0), months)| == |months|
    ensures Run(a, pw, cf, State(b, 0.0), months)[i].withdrawal == 0.0
  {
    hide Sum;
    hide Run;
    hide Advance;
    RunAt(a, pw, cf, State(b, 0.0), months, i);
    StateAfterBeforeStart(EnginePolicy(a, pw), cf, State(b, 0.0), months, i + 1);
  }

  /**
   * In a month at or after the start month, the row's withdrawal is the
   * grown total of the previous balances times the rate over twelve, and
   * the row's balances are the previous ones grown, scaled by the retained
   * factor and merged with the month's flows (per account: AdvanceAccounts).
   */
  lemma WithdrawalMonth(a: Assumptions, pw: Powers, cf: seq<Entry>, s: State, months: seq<int>, i: nat)
    requires i < |months| && months[i] >= a.withdrawalStart
    ensures |Run(a, pw, cf, s, months)| == |months|
    ensures var rows := Run(a, pw, cf, s, months);
      var prev := if i == 0 then s.balances else rows[i - 1].balances;
      && rows[i].withdrawal == MonthlyDraw(Sum(Scale(prev, pw.growth)), a.withdrawalRate)
      && rows[i].balances == Merge(Scale(Scale(prev, pw.growth), pw.retained), Flows(cf, months[i]))
  {
    hide Sum;
    hide Run;
    var rows := Run(a, pw, cf, s, months);
    RunStep(a, pw, cf, s, months, i);
    if i == 0 {
      AdvanceBalances(EnginePolicy(a, pw), cf, s, months[i]);
    } else {
      var prev := State(rows[i - 1].balances, rows[i - 1].withdrawal);
      AdvanceBalances(EnginePolicy(a, pw), cf, prev, months[i]);
    }
  }

  /**
   * The withdrawal scales every account by one factor, so each account's
   * share of the total is the same before and after it.
   */
  lemma WithdrawKeepsShares(rule: WithdrawalRule, rate: real, grown: Balances, x: string)
    requires x in grown
    ensures var after := Withdraw(rule, rate, grown).0;
      after[x] * Sum(grown) == grown[x] * Sum(after)
  {
    hide Sum;
    var f := Retained(rule, rate);
    SumScale(grown, f);
    ShareAlgebra(Scale(grown, f)[x], grown[x], f, Sum(grown), Sum(Scale(grown, f)));
  }

  /** If `ax = gx * f` and `sa = s * f` then `ax * s = gx * sa`. */
  lemma ShareAlgebra(ax: real, gx: real, f: real, s: real, sa: real)
    requires ax == gx * f && sa == s * f
    ensures ax * s == gx * sa
  {
  }

  /**
   * Under the `1 - rate / 12` rule the recorded withdrawal is exactly what
   * the scaling takes off the total.
   */
  lemma MonthlySliceDrop(rate: real, grown: Balances)
    ensures Sum(Withdraw(MonthlySlice, rate, grown).0) == Sum(grown) - Withdraw(MonthlySlice, rate, grown).1
  {
    hide Sum;
    SliceTotal(rate, grown);
  }

  lemma SliceTotal(rate: real, grown: Balances)
    ensures Sum(Scale(grown, Retained(MonthlySlice, rate))) == Sum(grown) - MonthlyDraw(Sum(grown), rate)
  {
    hide Sum;
    SumScale(grown, Retained(MonthlySlice, rate));
    SliceAlgebra(Sum(grown), rate);
  }

  lemma SliceAlgebra(t: real, rate: real)
    ensures t * Retained(MonthlySlice, rate) == t - MonthlyDraw(t, rate)
  {
  }

  /**
   * Under the annual-root rule the recorded withdrawal equals what the
   * scaling takes off the total exactly when the factor is `1 - rate / 12`
   * or the total is zero; for `(1 - rate) ** (1/12)` with a non-zero rate
   * the two differ.
   */
  lemma AnnualRootDrop(f: real, rate: real, grown: Balances)
    ensures Sum(grown) - Sum(Withdraw(AnnualRoot(f), rate, grown).0) == Withdraw(AnnualRoot(f), rate, grown).1
        <==> f == 1.0 - rate / 12.0 || Sum(grown) == 0.0
  {
    hide Sum;
    RootTotal(f, rate, grown);
  }

  lemma RootTotal(f: real, rate: real, grown: Balances)
    ensures Sum(grown) - Sum(Scale(grown, Retained(AnnualRoot(f), rate))) == MonthlyDraw(Sum(grown), rate)
        <==> f == 1.0 - rate / 12.0 || Sum(grown) == 0.0
  {
    hide Sum;
    SumScale(grown, Retained(AnnualRoot(f), rate));
    RootAlgebra(Sum(grown), f, rate);
  }

  lemma RootAlgebra(t: real, f: real, rate: real)
    ensures t - t * Retained(AnnualRoot(f), rate) == MonthlyDraw(t, rate) <==> f == 1.0 - rate / 12.0 || t == 0.0
  {
    var c := 1.0 - rate / 12.0 - f;
    assert t - t * f - MonthlyDraw(t, rate) == t * c;
    ZeroProduct(t, c);
  }

  lemma ZeroProduct(x: real, y: real)
    ensures x * y == 0.0 <==> x == 0.0 || y == 0.0
  {
    if x != 0.0 && y != 0.0 {
      assert (x * y) / x == y;
    }
  }

  /** `assumptions["annual_return"]` has no effect on the rows. */
  lemma {:induction false} IgnoresAnnualReturn(a: Assumptions, x: real, pw: Powers, cf: seq<Entry>, s: State, months: seq<int>)
    ensures Run(a.(annualReturn := x), pw, cf, s, months) == Run(a, pw, cf, s, months)
    decreases |months|
  {
    hide Sum;
    hide Advance;
    if months != [] {
      IgnoresAnnualReturn(a, x, pw, cf, Advance(EnginePolicy(a, pw), cf, s, months[0]), months[1..]);
    }
  }
}
