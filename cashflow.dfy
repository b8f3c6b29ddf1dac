/**
 * The cashflow schedule of the projection loops: which entries are active in
 * a month (the boolean mask on `start_date` and `end_date`) and their
 * per-account sums (`groupby("account")["monthly_amount"].sum()`).
 */
module Cashflow {
  import opened Wrappers
  import opened Ledger
  import opened Sequences

  /**
   * One schedule row. `start == None` is a missing start date (`NaT`, which
   * compares false with every month); `end == None` is a missing end date
   * (open-ended).
   */
  datatype Entry = Entry(account: string, monthlyAmount: real, start: Option<int>, end: Option<int>)

  /** The window `[start, end]`, unbounded above when the end is missing, empty without a start. */
  predicate IsActive(e: Entry, m: int)
  {
    e.start.Some? && e.start.value <= m && (e.end.None? || e.end.value >= m)
  }

  /** The entries active in month `m`, in schedule order. */
  function Select(cf: seq<Entry>, m: int): (r: seq<Entry>)
    ensures |r| <= |cf|
    ensures forall e :: e in r <==> e in cf && IsActive(e, m)
  {
    if cf == [] then []
    else (if IsActive(cf[0], m) then [cf[0]] else []) + Select(cf[1..], m)
  }

  /** Accounts named by some entry. */
  function Accounts(es: seq<Entry>): set<string>
  {
    set i | 0 <= i < |es| :: es[i].account
  }

  /** Reference sum: the amounts of the entries for account `a`. */
  function AccountTotal(es: seq<Entry>, a: string): real
  {
    if es == [] then 0.0
    else (if es[0].account == a then es[0].monthlyAmount else 0.0) + AccountTotal(es[1..], a)
  }

  /** Group by account and sum the amounts. */
  function GroupSum(es: seq<Entry>): (r: Balances)
    ensures r.Keys == Accounts(es)
    ensures forall a :: a in r ==> r[a] == AccountTotal(es, a)
  {
    if es == [] then map[]
    else
      var rest := GroupSum(es[1..]);
      assert Accounts(es) == {es[0].account} + Accounts(es[1..]) by {
        forall a | a in Accounts(es) ensures a in {es[0].account} + Accounts(es[1..]) {
          var i :| 0 <= i < |es| && es[i].account == a;
          if i > 0 { assert es[1..][i - 1].account == a; }
        }
        forall a | a in Accounts(es[1..]) ensures a in Accounts(es) {
          var i :| 0 <= i < |es[1..]| && es[1..][i].account == a;
          assert es[i + 1].account == a;
        }
      }
      AccountTotalAbsent(es[1..], es[0].account);
      rest[es[0].account := Get(rest, es[0].account) + es[0].monthlyAmount]
  }

  /** An account no entry names has nothing to sum. */
  lemma {:induction false} AccountTotalAbsent(es: seq<Entry>, a: string)
    ensures a !in Accounts(es) ==> AccountTotal(es, a) == 0.0
  {
    if es != [] && a !in Accounts(es) {
      assert es[0].account != a;
      assert a !in Accounts(es[1..]);
      AccountTotalAbsent(es[1..], a);
    }
  }

  /** The flows of month `m`: active entries summed per account (src/projection_engine.py:24-25, src/projections.py:74-75). */
  function Flows(cf: seq<Entry>, m: int): Balances
  {
    GroupSum(Select(cf, m))
  }

  /** Reference definition: the amounts of the active entries for account `a`. */
  function ActiveTotal(cf: seq<Entry>, m: int, a: string): real
  {
    if cf == [] then 0.0
    else (if cf[0].account == a && IsActive(cf[0], m) then cf[0].monthlyAmount else 0.0)
         + ActiveTotal(cf[1..], m, a)
  }

  lemma {:induction false} SelectTotal(cf: seq<Entry>, m: int, a: string)
    ensures AccountTotal(Select(cf, m), a) == ActiveTotal(cf, m, a)
  {
    if cf != [] {
      SelectTotal(cf[1..], m, a);
      var s := Select(cf, m);
      if IsActive(cf[0], m) {
        assert s == [cf[0]] + Select(cf[1..], m);
        assert s[1..] == Select(cf[1..], m);
      } else {
        assert s == Select(cf[1..], m);
      }
    }
  }

  /**
   * An account has a flow in month `m` exactly when some entry for it is
   * active then, and the flow is the sum of the amounts of those entries.
   */
  lemma FlowsSpec(cf: seq<Entry>, m: int, a: string)
    ensures a in Flows(cf, m) <==> exists i :: 0 <= i < |cf| && cf[i].account == a && IsActive(cf[i], m)
    ensures Get(Flows(cf, m), a) == ActiveTotal(cf, m, a)
  {
    hide Select;
    hide GroupSum;
    hide ActiveTotal;
    var s := Select(cf, m);
    SelectTotal(cf, m, a);
    if a in Flows(cf, m) {
      var j :| 0 <= j < |s| && s[j].account == a;
      assert s[j] in s;
      var i :| 0 <= i < |cf| && cf[i] == s[j];
    }
    if exists i :: 0 <= i < |cf| && cf[i].account == a && IsActive(cf[i], m) {
      var i :| 0 <= i < |cf| && cf[i].account == a && IsActive(cf[i], m);
      assert cf[i] in cf;
      assert cf[i] in s;
      var j :| 0 <= j < |s| && s[j] == cf[i];
      assert a in Accounts(s);
    }
    if a !in Flows(cf, m) {
      NoActiveEntryNoFlow(cf, m, a);
    }
  }

  lemma {:induction false} NoActiveEntryNoFlow(cf: seq<Entry>, m: int, a: string)
    requires forall i :: 0 <= i < |cf| ==> cf[i].account != a || !IsActive(cf[i], m)
    ensures ActiveTotal(cf, m, a) == 0.0
  {
    if cf != [] {
      NoActiveEntryNoFlow(cf[1..], m, a);
    }
  }

  lemma {:induction false} SelectAppend(x: seq<Entry>, y: seq<Entry>, m: int)
    ensures Select(x + y, m) == Select(x, m) + Select(y, m)
  {
    hide Select;
    SelectUnfold(x, m);
    if x != [] {
      var h := if IsActive(x[0], m) then [x[0]] else [];
      SelectUnfold(x + y, m);
      assert (x + y)[0] == x[0];
      assert (x + y)[1..] == x[1..] + y;
      SelectAppend(x[1..], y, m);
      Associate(h, Select(x[1..], m), Select(y, m));
    } else {
      assert x + y == y;
    }
  }

  lemma SelectUnfold(cf: seq<Entry>, m: int)
    ensures Select(cf, m)
      == if cf == [] then [] else (if IsActive(cf[0], m) then [cf[0]] else []) + Select(cf[1..], m)
  {
  }

  /**
   * Outside its window an entry contributes nothing: inserting it anywhere
   * in the schedule leaves the month's flows unchanged.
   */
  lemma InactiveEntryIgnored(cf: seq<Entry>, i: nat, e: Entry, m: int)
    requires i <= |cf|
    requires !IsActive(e, m)
    ensures Flows(cf[..i] + [e] + cf[i..], m) == Flows(cf, m)
  {
    var pre, post := cf[..i], cf[i..];
    assert pre + post == cf;
    SelectAppend(pre + [e], post, m);
    SelectAppend(pre, [e], m);
    SelectAppend(pre, post, m);
    assert Select([e], m) == [] by {
      assert [e][1..] == [];
    }
    assert Select(pre + [e], m) == Select(pre, m);
    assert Select(pre + [e] + post, m) == Select(cf, m);
  }

  /**
   * Inside its window an entry adds its amount to its account's flow and
   * leaves the other accounts' flows as they were.
   */
  lemma ActiveEntryAdds(cf: seq<Entry>, e: Entry, m: int)
    requires IsActive(e, m)
    ensures Flows(cf + [e], m) == Flows(cf, m)[e.account := Get(Flows(cf, m), e.account) + e.monthlyAmount]
  {
    hide Select;
    hide GroupSum;
    SelectAppend(cf, [e], m);
    SelectOne(e, m);
    GroupSumAppend(Select(cf, m), e);
  }

  lemma SelectOne(e: Entry, m: int)
    ensures Select([e], m) == if IsActive(e, m) then [e] else []
  {
    assert [e][1..] == [];
  }

  lemma {:induction false} AccountTotalAppend(es: seq<Entry>, e: Entry, a: string)
    ensures AccountTotal(es + [e], a) == AccountTotal(es, a) + (if e.account == a then e.monthlyAmount else 0.0)
  {
    if es != [] {
      assert (es + [e])[1..] == es[1..] + [e];
      AccountTotalAppend(es[1..], e, a);
    } else {
      assert [e][1..] == [];
    }
  }

  lemma GroupSumAppend(es: seq<Entry>, e: Entry)
    ensures GroupSum(es + [e]) == GroupSum(es)[e.account := Get(GroupSum(es), e.account) + e.monthlyAmount]
  {
    hide GroupSum;
    hide AccountTotal;
    var l := GroupSum(es + [e]);
    var r := GroupSum(es)[e.account := Get(GroupSum(es), e.account) + e.monthlyAmount];
    AccountsAppend(es, e);
    forall a | a in l ensures l[a] == r[a] {
      AccountTotalAppend(es, e, a);
      AccountTotalAbsent(es, a);
    }
  }

  lemma AccountsAppend(es: seq<Entry>, e: Entry)
    ensures Accounts(es + [e]) == Accounts(es) + {e.account}
  {
    forall a | a in Accounts(es + [e]) ensures a in Accounts(es) + {e.account} {
      var i :| 0 <= i < |es + [e]| && (es + [e])[i].account == a;
      if i < |es| { assert es[i].account == a; }
    }
    forall a | a in Accounts(es) ensures a in Accounts(es + [e]) {
      var i :| 0 <= i < |es| && es[i].account == a;
      assert (es + [e])[i].account == a;
    }
    assert (es + [e])[|es|].account == e.account;
  }

  /** Two active entries for one account: the account's flow is their sum. */
  lemma TwoEntriesSum(e1: Entry, e2: Entry, m: int)
    requires IsActive(e1, m) && IsActive(e2, m) && e1.account == e2.account
    ensures Flows([e1, e2], m) == map[e1.account := e1.monthlyAmount + e2.monthlyAmount]
  {
    ActiveEntryAdds([e1], e2, m);
    assert [e1] + [e2] == [e1, e2];
    assert Flows([e1], m) == map[e1.account := e1.monthlyAmount] by {
      assert Select([e1], m) == [e1];
      assert GroupSum([e1][1..]) == map[];
    }
  }
}
