/**
 * Balance vectors: a mapping from account name to amount, as the pandas
 * Series `balances` of the projection loops. Sums are taken over all keys
 * (`Series.sum()`); scaling multiplies every account by one factor
 * (`balances *= f`, `balances.multiply(f)`); merging adds a flow vector with
 * missing accounts read as zero (`balances.add(flows, fill_value=0)`).
 */
module Ledger {

  type Balances = map<string, real>

  /** Amount of an account, zero when the account is absent (pandas' fill_value=0). */
  function Get(b: Balances, a: string): real
  {
    if a in b then b[a] else 0.0
  }

  /** Some account of a non-empty vector. */
  ghost function Pick(b: Balances): (k: string)
    requires b != map[]
    ensures k in b
  {
    var k :| k in b; k
  }

  /** The sum of all amounts; order-independent (see SumRemove). */
  ghost function Sum(b: Balances): real
    decreases |b|
  {
    if b == map[] then 0.0
    else
      var k := Pick(b);
      SizeRemove(b, k);
      b[k] + Sum(b - {k})
  }

  /**
   * `x * f`, named so that the solver treats the product as one term; the
   * proofs about sums of scaled vectors go through it.
   */
  function Times(x: real, f: real): real
  {
    x * f
  }

  /** Every account multiplied by the same factor. */
  function Scale(b: Balances, f: real): (r: Balances)
    ensures r.Keys == b.Keys
    ensures forall a :: a in b ==> r[a] == b[a] * f
  {
    map a | a in b :: Times(b[a], f)
  }

  /** Balances plus flows, accounts in either one, missing amounts read as zero. */
  function Merge(b: Balances, flows: Balances): (r: Balances)
    ensures r.Keys == b.Keys + flows.Keys
    ensures forall a :: a in r ==> r[a] == Get(b, a) + Get(flows, a)
  {
    map a | a in b.Keys + flows.Keys :: Get(b, a) + Get(flows, a)
  }

  lemma SizeRemove(b: Balances, k: string)
    requires k in b
    ensures |b - {k}| == |b| - 1
  {
    assert (b - {k}).Keys == b.Keys - {k};
  }

  lemma ScaleRemove(b: Balances, f: real, k: string)
    ensures Scale(b, f) - {k} == Scale(b - {k}, f)
  {
    var l, r := Scale(b, f) - {k}, Scale(b - {k}, f);
    assert l.Keys == r.Keys;
    forall a | a in l ensures l[a] == r[a] { }
  }

  lemma MergeRemove(b: Balances, flows: Balances, k: string)
    ensures Merge(b, flows) - {k} == Merge(b - {k}, flows - {k})
  {
    var l, r := Merge(b, flows) - {k}, Merge(b - {k}, flows - {k});
    assert l.Keys == r.Keys;
    forall a | a in l ensures l[a] == r[a] { }
  }

  /** Removing any one account takes exactly its amount off the sum. */
  lemma {:induction false} SumRemove(b: Balances, k: string)
    requires k in b
    ensures Sum(b) == b[k] + Sum(b - {k})
    decreases |b|
  {
    var k0 := Pick(b);
    SizeRemove(b, k);
    if k0 != k {
      SizeRemove(b, k0);
      SumRemove(b - {k0}, k);
      SumRemove(b - {k}, k0);
      assert b - {k0} - {k} == b - {k} - {k0};
    }
  }

  lemma SumEmpty(b: Balances)
    requires b == map[]
    ensures Sum(b) == 0.0
  {
  }

  /** A common factor comes out of the sum. */
  lemma SumScale(b: Balances, f: real)
    ensures Sum(Scale(b, f)) == Sum(b) * f
  {
    SumScaleTimes(b, f);
  }

  lemma {:induction false} SumScaleTimes(b: Balances, f: real)
    ensures Sum(Scale(b, f)) == Times(Sum(b), f)
    decreases |b|
  {
    if b == map[] {
      assert Scale(b, f) == map[];
    } else {
      var k := Pick(b);
      SizeRemove(b, k);
      SumScaleTimes(b - {k}, f);
      SumRemove(b, k);
      SumRemove(Scale(b, f), k);
      ScaleRemove(b, f, k);
      TimesAdd(b[k], Sum(b - {k}), f);
    }
  }

  lemma TimesAdd(x: real, y: real, f: real)
    ensures Times(x + y, f) == Times(x, f) + Times(y, f)
  {
  }

  /** Equal amounts scaled by one factor stay equal. */
  lemma MulCongruence(x: real, y: real, k: real)
    requires x == y
    ensures x * k == y * k
  {
  }

  /** Scaling twice multiplies each account by both factors in turn. */
  lemma ScaleTwice(b: Balances, g: real, k: real, a: string)
    requires a in b
    ensures Scale(Scale(b, g), k)[a] == b[a] * g * k
  {
    MulCongruence(Scale(b, g)[a], b[a] * g, k);
  }

  /** Merging flows adds their total to the total. */
  lemma {:induction false} SumMerge(b: Balances, flows: Balances)
    ensures Sum(Merge(b, flows)) == Sum(b) + Sum(flows)
    decreases |flows|
  {
    hide Sum;
    if flows == map[] {
      assert Merge(b, flows) == b;
      SumEmpty(flows);
    } else {
      var k := Pick(flows);
      var m := Merge(b, flows);
      SumRemove(m, k);
      SumRemove(flows, k);
      SizeRemove(flows, k);
      MergeRemove(b, flows, k);
      SumMerge(b - {k}, flows - {k});
      SumAt(b, k);
      assert m[k] == Get(b, k) + flows[k];
    }
  }

  /** The sum is any account's amount (zero when absent) plus the sum of the rest. */
  lemma SumAt(b: Balances, k: string)
    ensures Sum(b) == Get(b, k) + Sum(b - {k})
  {
    if k in b {
      SumRemove(b, k);
    } else {
      assert b - {k} == b;
    }
  }

  /** `Series.sum()`: adds the amounts one account at a time. */
  method Total(b: Balances) returns (s: real)
    ensures s == Sum(b)
  {
    var rest := b;
    s := 0.0;
    while rest != map[]
      invariant s + Sum(rest) == Sum(b)
      decreases |rest|
    {
      var k :| k in rest;
      SumRemove(rest, k);
      SizeRemove(rest, k);
      s := s + rest[k];
      rest := rest - {k};
    }
  }
}
