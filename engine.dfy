/**
 * `project_balance(start_balance, monthly_contribution, annual_return,
 * months)`: one balance compounded monthly with a fixed contribution added
 * after each month's growth, returning the starting balance followed by one
 * balance per month.
 *
 * The monthly rate `(1 + annual_return) ** (1/12) - 1` is a fractional
 * power evaluated in floating point; it is given here as the parameter `r`.
 */
module Engine {

  /** The balance after `k` months. */
  function Balance(start: real, c: real, r: real, k: nat): real
  {
    if k == 0 then start else Balance(start, c, r, k - 1) * (1.0 + r) + c
  }

  /** `q` to the power `k`. */
  function Pow(q: real, k: nat): real
  {
    if k == 0 then 1.0 else Pow(q, k - 1) * q
  }

  /** `1 + q + ... + q^(k-1)`: the compounded value of `k` unit contributions. */
  function Geometric(q: real, k: nat): real
  {
    if k == 0 then 0.0 else Geometric(q, k - 1) * q + 1.0
  }

  /** The loop of `project_balance`; a non-positive month count runs no month. */
  method ProjectBalance(start: real, c: real, r: real, months: int) returns (balances: seq<real>)
    ensures |balances| == (if months > 0 then months else 0) + 1
    ensures balances[0] == start
    ensures forall k :: 0 <= k < |balances| ==> balances[k] == Balance(start, c, r, k)
  {
    var n := if months > 0 then months else 0;
    balances := [start];
    var bal := start;
    for m := 0 to n
      invariant |balances| == m + 1
      invariant bal == Balance(start, c, r, m)
      invariant forall k :: 0 <= k <= m ==> balances[k] == Balance(start, c, r, k)
    {
      bal := bal * (1.0 + r) + c;
      assert bal == Balance(start, c, r, m + 1);
      balances := balances + [bal];
    }
  }

  /**
   * Closed form: the start balance compounded `k` times plus the
   * contribution compounded as a geometric series.
   */
  lemma {:induction false} ClosedForm(start: real, c: real, r: real, k: nat)
    ensures Balance(start, c, r, k) == start * Pow(1.0 + r, k) + c * Geometric(1.0 + r, k)
  {
    hide *;
    if k > 0 {
      ClosedForm(start, c, r, k - 1);
      Unfold(start, c, r, k);
      StepAlgebra(start, c, 1.0 + r, Pow(1.0 + r, k - 1), Geometric(1.0 + r, k - 1), Balance(start, c, r, k - 1));
    } else {
      Unfold(start, c, r, k);
    }
  }

  /** One step of each of the three recurrences. */
  lemma Unfold(start: real, c: real, r: real, k: nat)
    ensures k == 0 ==> Balance(start, c, r, k) == start && Pow(1.0 + r, k) == 1.0 && Geometric(1.0 + r, k) == 0.0
    ensures k > 0 ==>
      && Balance(start, c, r, k) == Balance(start, c, r, k - 1) * (1.0 + r) + c
      && Pow(1.0 + r, k) == Pow(1.0 + r, k - 1) * (1.0 + r)
      && Geometric(1.0 + r, k) == Geometric(1.0 + r, k - 1) * (1.0 + r) + 1.0
  {
  }

  lemma StepAlgebra(s: real, c: real, q: real, p: real, g: real, b: real)
    requires b == s * p + c * g
    ensures b * q + c == s * (p * q) + c * (g * q + 1.0)
  {
  }

  /** With no contribution the balance after `k` months is `start * (1 + r)^k`. */
  lemma NoContribution(start: real, r: real, k: nat)
    ensures Balance(start, 0.0, r, k) == start * Pow(1.0 + r, k)
  {
    ClosedForm(start, 0.0, r, k);
  }

  /**
   * With a non-negative start, rate and contribution every balance is
   * non-negative and no month lowers it.
   */
  lemma {:induction false} NonNegativeAndGrowing(start: real, c: real, r: real, k: nat)
    requires start >= 0.0 && c >= 0.0 && r >= 0.0
    ensures 0.0 <= Balance(start, c, r, k) <= Balance(start, c, r, k + 1)
  {
    if k > 0 {
      NonNegativeAndGrowing(start, c, r, k - 1);
    }
    GrowthStep(Balance(start, c, r, k), c, r);
  }

  lemma GrowthStep(b: real, c: real, r: real)
    requires b >= 0.0 && c >= 0.0 && r >= 0.0
    ensures b <= b * (1.0 + r) + c
  {
    assert b * (1.0 + r) == b + b * r;
  }

  /** Balances never go down from one month to any later month. */
  lemma {:induction false} Monotone(start: real, c: real, r: real, j: nat, k: nat)
    requires start >= 0.0 && c >= 0.0 && r >= 0.0
    requires j <= k
    ensures Balance(start, c, r, j) <= Balance(start, c, r, k)
    decreases k - j
  {
    if j < k {
      NonNegativeAndGrowing(start, c, r, j);
      Monotone(start, c, r, j + 1, k);
    }
  }
}
