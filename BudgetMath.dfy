/**
 * Spent-against-budget arithmetic shared by the budget screens.  Percentages
 * are exact reals; `Math.round` of a percentage is floor(x + 1/2) taken in
 * integers.  A spending record (`Record<string, number>`) is a list of
 * (category, amount) entries in key order.
 */
module BudgetMath {

  /** The three bar colours of the budget screens. */
  datatype Colour = Green | Yellow | Red

  /** `(spent / budget) * 100`. */
  function Percent(spent: int, budget: int): real
    requires budget > 0
  {
    (spent as real) / (budget as real) * 100.0
  }

  /** The percentage reached or passed `threshold` exactly when the cross-multiplied integers say so. */
  lemma PercentAtLeast(spent: int, budget: int, threshold: int)
    requires budget > 0
    ensures Percent(spent, budget) >= threshold as real <==> 100 * spent >= threshold * budget
  {
    var p := (spent as real) / (budget as real);
    assert p * (budget as real) == spent as real;
    var b := budget as real;
    if Percent(spent, budget) >= threshold as real {
      assert p * 100.0 * b >= (threshold as real) * b;
    } else {
      assert p * 100.0 * b < (threshold as real) * b;
    }
  }

  /** The ratio `spent / budget` is at least `n / d` exactly when `d * spent >= n * budget`. */
  lemma RatioAtLeast(spent: int, budget: int, n: int, d: int)
    requires budget > 0 && d > 0
    ensures (spent as real) / (budget as real) >= (n as real) / (d as real) <==> d * spent >= n * budget
  {
    var p, q := (spent as real) / (budget as real), (n as real) / (d as real);
    var b, e := budget as real, d as real;
    assert p * b == spent as real;
    assert q * e == n as real;
    if p >= q {
      assert p * b * e >= q * e * b;
    } else {
      assert p * b * e < q * e * b;
    }
  }

  /** With a negative budget the division turns the comparison round: `spent / budget` is at least `n / d` exactly when `d * spent <= n * budget`. */
  lemma RatioAtLeastNegative(spent: int, budget: int, n: int, d: int)
    requires budget < 0 && d > 0
    ensures (spent as real) / (budget as real) >= (n as real) / (d as real) <==> d * spent <= n * budget
  {
    var p, q := (spent as real) / (budget as real), (n as real) / (d as real);
    var b, e := budget as real, d as real;
    assert p * b == spent as real;
    assert q * e == n as real;
    if p >= q {
      assert p * b * e <= q * e * b;
    } else {
      assert p * b * e > q * e * b;
    }
  }

  /**
   * JavaScript's `spent / budget >= n / d`, decided on integers for every sign of the budget.  Over a
   * zero budget the quotient is `Infinity` for positive spending (which passes), `NaN` for none and
   * `-Infinity` for negative spending (which fail).
   */
  function RatioReaches(spent: int, budget: int, n: int, d: int): (r: bool)
    requires d > 0
    ensures budget != 0 ==> (r <==> (spent as real) / (budget as real) >= (n as real) / (d as real))
    ensures budget == 0 ==> (r <==> spent > 0)
  {
    if budget > 0 then
      RatioAtLeast(spent, budget, n, d);
      d * spent >= n * budget
    else if budget < 0 then
      RatioAtLeastNegative(spent, budget, n, d);
      d * spent <= n * budget
    else
      spent > 0
  }

  /** JavaScript's `spent / budget < n / d`: over a zero budget only negative spending (`-Infinity`) passes. */
  function RatioBelow(spent: int, budget: int, n: int, d: int): (r: bool)
    requires d > 0
    ensures budget != 0 ==> (r <==> (spent as real) / (budget as real) < (n as real) / (d as real))
    ensures budget == 0 ==> (r <==> spent < 0)
  {
    if budget > 0 then
      RatioAtLeast(spent, budget, n, d);
      d * spent < n * budget
    else if budget < 0 then
      RatioAtLeastNegative(spent, budget, n, d);
      d * spent > n * budget
    else
      spent < 0
  }

  /** `Math.min((spent / budget) * 100, 100)`: never above 100, exactly 100 once spending reaches the budget. */
  function CappedPercent(spent: int, budget: int): (p: real)
    requires budget > 0
    ensures p <= 100.0
    ensures p == 100.0 <==> spent >= budget
    ensures spent < budget ==> p == Percent(spent, budget)
    ensures spent >= 0 ==> p >= 0.0
  {
    PercentAtLeast(spent, budget, 100);
    PercentAtLeast(spent, budget, 0);
    var raw := Percent(spent, budget);
    if raw < 100.0 then raw else 100.0
  }

  /** Capping at 100 does not move a threshold at or below 100. */
  lemma CappedAtLeast(spent: int, budget: int, threshold: int)
    requires budget > 0 && threshold <= 100
    ensures CappedPercent(spent, budget) >= threshold as real <==> 100 * spent >= threshold * budget
  {
    PercentAtLeast(spent, budget, threshold);
  }

  /** `Math.round((part / whole) * 100)`: within half a point of the exact percentage. */
  function RoundedPercent(part: int, whole: int): (r: int)
    requires whole > 0
    ensures 2 * whole * r <= 200 * part + whole < 2 * whole * (r + 1)
  {
    (200 * part + whole) / (2 * whole)
  }

  lemma MulLe(a: int, b: int, c: int)
    requires a <= b && c >= 0
    ensures a * c <= b * c
  {
  }

  /** A rounded percentage of at least 0 and at most the whole lies in 0..100, and the whole rounds to 100. */
  lemma RoundedPercentBounds(part: int, whole: int)
    requires whole > 0 && 0 <= part <= whole
    ensures 0 <= RoundedPercent(part, whole) <= 100
    ensures part == whole ==> RoundedPercent(part, whole) == 100
  {
    var r := RoundedPercent(part, whole);
    if r < 0 { MulLe(r + 1, 0, 2 * whole); }
    if r > 100 { MulLe(101, r, 2 * whole); }
    MulLe(part, whole, 200);
    if part == whole && r < 100 { MulLe(r + 1, 100, 2 * whole); }
  }

  /** `Record<string, number>` as its entries; keys are distinct. */
  type Totals = seq<(string, int)>

  predicate DistinctKeys(t: Totals) {
    forall i, j :: 0 <= i < j < |t| ==> t[i].0 != t[j].0
  }

  /** `totals[key] || 0`: the stored amount, or 0 for a missing key. */
  function SpentOn(t: Totals, key: string): (v: int)
    ensures (forall i :: 0 <= i < |t| ==> t[i].0 != key) ==> v == 0
    ensures DistinctKeys(t) ==> forall i :: 0 <= i < |t| && t[i].0 == key ==> v == t[i].1
  {
    if t == [] then 0
    else if t[0].0 == key then t[0].1
    else SpentOn(t[1..], key)
  }

  /** `Object.values(totals).reduce((sum, val) => sum + val, 0)`. */
  function TotalSpent(t: Totals): int {
    if t == [] then 0 else TotalSpent(t[..|t| - 1]) + t[|t| - 1].1
  }

  /** Recording one more category adds its amount to the total. */
  lemma TotalSpentSnoc(t: Totals, key: string, amount: int)
    ensures TotalSpent(t + [(key, amount)]) == TotalSpent(t) + amount
  {
    assert (t + [(key, amount)])[..|t|] == t;
  }

  /** With non-negative amounts, what one category records is part of the total. */
  lemma {:induction false} SpentOnAtMostTotal(t: Totals, key: string)
    requires forall i :: 0 <= i < |t| ==> t[i].1 >= 0
    ensures 0 <= SpentOn(t, key) <= TotalSpent(t)
  {
    if t != [] {
      SpentOnAtMostTotal(t[1..], key);
      HeadPlusRest(t);
    }
  }

  lemma {:induction false} HeadPlusRest(t: Totals)
    requires t != []
    ensures TotalSpent(t) == t[0].1 + TotalSpent(t[1..])
  {
    if |t| > 1 {
      HeadPlusRest(t[..|t| - 1]);
      assert t[..|t| - 1][1..] == t[1..][..|t[1..]| - 1];
    }
  }
}
