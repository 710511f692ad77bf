/**
 * The budget tracker page (app/test/page.tsx): per-category progress and
 * colour, the totals, the alerts and the tips, over a list of budget rows.
 */
module BudgetTracker {
  import opened Base
  import opened BudgetMath

  /** Lines 11-18, without the display-only colour and icon. */
  datatype BudgetItem = BudgetItem(category: string, budget: int, spent: int)

  predicate PositiveBudgets(items: seq<BudgetItem>) {
    forall x :: x in items ==> x.budget > 0
  }

  /** Lines 30-35: red from 100%, yellow from 85%, green below. */
  function ProgressColour(spent: int, budget: int): (c: Colour)
    requires budget > 0
    ensures c == Red <==> Percent(spent, budget) >= 100.0
    ensures c == Yellow <==> 85.0 <= Percent(spent, budget) < 100.0
    ensures c == Green <==> Percent(spent, budget) < 85.0
  {
    PercentAtLeast(spent, budget, 100);
    PercentAtLeast(spent, budget, 85);
    if 100 * spent >= 100 * budget then Red
    else if 100 * spent >= 85 * budget then Yellow
    else Green
  }

  /** Lines 37-39: the exact percentage below the budget, 100 from the budget on. */
  function ProgressPercentage(spent: int, budget: int): (p: real)
    requires budget > 0
    ensures spent < budget ==> p == Percent(spent, budget)
    ensures spent >= budget ==> p == 100.0
  {
    CappedPercent(spent, budget)
  }

  /** Line 289: the "% used" text colour, read off the capped percentage, agrees with the bar colour. */
  lemma UsedTextMatchesBar(spent: int, budget: int)
    requires budget > 0
    ensures ProgressPercentage(spent, budget) >= 100.0 <==> ProgressColour(spent, budget) == Red
    ensures ProgressPercentage(spent, budget) >= 85.0 <==> ProgressColour(spent, budget) != Green
  {
    CappedAtLeast(spent, budget, 100);
    CappedAtLeast(spent, budget, 85);
  }

  /** Line 41: the budgets added up; non-negative budgets give a non-negative total. */
  function TotalBudget(items: seq<BudgetItem>): (t: int)
    ensures (forall k :: 0 <= k < |items| ==> items[k].budget >= 0) ==> t >= 0
    ensures (forall k :: 0 <= k < |items| ==> items[k].budget > 0) ==> t >= |items|
  {
    if items == [] then 0 else TotalBudget(items[..|items| - 1]) + items[|items| - 1].budget
  }

  /** Line 42: the spending added up; with every row within its budget it does not exceed the total budget. */
  function TotalSpentOf(items: seq<BudgetItem>): (t: int)
    ensures (forall k :: 0 <= k < |items| ==> items[k].spent >= 0) ==> t >= 0
    ensures (forall k :: 0 <= k < |items| ==> items[k].spent <= items[k].budget) ==> t <= TotalBudget(items)
  {
    if items == [] then 0 else TotalSpentOf(items[..|items| - 1]) + items[|items| - 1].spent
  }

  /** Both totals are additive over concatenation, so they do not depend on how the rows are split. */
  lemma {:induction false} TotalsAppend(a: seq<BudgetItem>, b: seq<BudgetItem>)
    ensures TotalBudget(a + b) == TotalBudget(a) + TotalBudget(b)
    ensures TotalSpentOf(a + b) == TotalSpentOf(a) + TotalSpentOf(b)
  {
    if b == [] {
      assert a + b == a;
    } else {
      var init := b[..|b| - 1];
      assert (a + b)[..|a + b| - 1] == a + init;
      TotalsAppend(a, init);
    }
  }

  /** Line 135: what is left of the total budget; something is left when every row is within its budget. */
  function Remaining(items: seq<BudgetItem>): (r: int)
    ensures (forall k :: 0 <= k < |items| ==> items[k].spent <= items[k].budget) ==> r >= 0
  {
    TotalBudget(items) - TotalSpentOf(items)
  }

  /** Adding a row moves the remaining amount by that row's budget less its spending. */
  lemma RemainingSnoc(items: seq<BudgetItem>, item: BudgetItem)
    ensures Remaining(items + [item]) == Remaining(items) + item.budget - item.spent
  {
    assert (items + [item])[..|items|] == items;
  }

  /** Line 45: `spent / budget >= 0.85`, for every sign of the budget. */
  function Alerted(item: BudgetItem): (r: bool)
    ensures item.budget > 0 ==> (r <==> (item.spent as real) / (item.budget as real) >= 0.85)
    ensures item.budget < 0 ==> (r <==> (item.spent as real) / (item.budget as real) >= 0.85)
    ensures item.budget == 0 ==> (r <==> item.spent > 0)
  {
    RatioReaches(item.spent, item.budget, 85, 100)
  }

  /** Line 54. */
  predicate IsOver(item: BudgetItem) {
    item.spent > item.budget
  }

  /** Line 55: `spent / budget < 0.7`, for every sign of the budget. */
  function IsUnder(item: BudgetItem): (r: bool)
    ensures item.budget > 0 ==> (r <==> (item.spent as real) / (item.budget as real) < 0.7)
    ensures item.budget < 0 ==> (r <==> (item.spent as real) / (item.budget as real) < 0.7)
    ensures item.budget == 0 ==> (r <==> item.spent < 0)
  {
    RatioBelow(item.spent, item.budget, 7, 10)
  }

  /** The rows satisfying `p`, in list order. */
  function Where(items: seq<BudgetItem>, p: BudgetItem -> bool): (r: seq<BudgetItem>)
    ensures |r| <= |items|
    ensures forall x :: x in r <==> x in items && p(x)
  {
    if items == [] then [] else (if p(items[0]) then [items[0]] else []) + Where(items[1..], p)
  }

  /** Filtering distributes over concatenation, so the kept rows stay in list order. */
  lemma {:induction false} WhereAppend(a: seq<BudgetItem>, b: seq<BudgetItem>, p: BudgetItem -> bool)
    ensures Where(a + b, p) == Where(a, p) + Where(b, p)
  {
    if a == [] {
      assert a + b == b;
    } else {
      assert (a + b)[1..] == a[1..] + b;
      WhereAppend(a[1..], b, p);
    }
  }

  /** The first row kept by `Where` is the first row of the list that satisfies `p`. */
  lemma WhereFirst(items: seq<BudgetItem>, p: BudgetItem -> bool)
    requires Where(items, p) != []
    ensures exists i ::
      0 <= i < |items| && items[i] == Where(items, p)[0] && p(items[i]) && forall j :: 0 <= j < i ==> !p(items[j])
  {
    var i := FirstIndex(items, p);
  }

  /** The position of the first row kept by `Where`. */
  lemma {:induction false} FirstIndex(items: seq<BudgetItem>, p: BudgetItem -> bool) returns (i: nat)
    requires Where(items, p) != []
    ensures i < |items| && items[i] == Where(items, p)[0] && p(items[i])
    ensures forall j :: 0 <= j < i ==> !p(items[j])
  {
    if p(items[0]) {
      i := 0;
    } else {
      var k := FirstIndex(items[1..], p);
      i := k + 1;
      assert items[i] == items[1..][k];
      assert forall j :: 0 < j < i ==> items[j] == items[1..][j - 1];
    }
  }

  lemma {:induction false} WhereEmpty(items: seq<BudgetItem>, p: BudgetItem -> bool)
    ensures Where(items, p) == [] <==> forall k :: 0 <= k < |items| ==> !p(items[k])
  {
    if items != [] {
      WhereEmpty(items[1..], p);
      assert forall k :: 1 <= k < |items| ==> items[k] == items[1..][k - 1];
    }
  }

  datatype Alert = Alert(category: string, percentage: int, isOverBudget: bool)

  /** Lines 46-48. */
  function AlertOf(item: BudgetItem): (a: Alert)
    requires item.budget > 0
    ensures a.category == item.category
    ensures 2 * item.budget * a.percentage <= 200 * item.spent + item.budget < 2 * item.budget * (a.percentage + 1)
    ensures a.isOverBudget <==> IsOver(item)
  {
    Alert(item.category, RoundedPercent(item.spent, item.budget), item.spent > item.budget)
  }

  /** Lines 44-50: one alert per row at or above 85%, in list order. */
  function Alerts(items: seq<BudgetItem>): (r: seq<Alert>)
    requires PositiveBudgets(items)
    ensures |r| == |Where(items, Alerted)| && forall x :: x in Where(items, Alerted) ==> x.budget > 0
    ensures forall i :: 0 <= i < |r| ==> r[i] == AlertOf(Where(items, Alerted)[i])
  {
    var rows := Where(items, Alerted);
    seq(|rows|, i requires 0 <= i < |rows| => AlertOf(rows[i]))
  }

  /** An alerted row never has a green bar. */
  lemma AlertedNotGreen(item: BudgetItem)
    requires item.budget > 0 && Alerted(item)
    ensures ProgressColour(item.spent, item.budget) != Green
  {
  }

  /** A row spent exactly to its budget is alerted at 100% but not over budget. */
  lemma FullBudgetAlertedNotOver(category: string, budget: int)
    requires budget > 0
    ensures Alerted(BudgetItem(category, budget, budget))
    ensures AlertOf(BudgetItem(category, budget, budget)) == Alert(category, 100, false)
  {
    RoundedPercentBounds(budget, budget);
  }

  /** Line 96: "category" for exactly one alert, "categories" otherwise. */
  function CategoryWord(n: int): (w: string)
    ensures w == "categor" + (if n == 1 then "y" else "ies")
    ensures w == "category" <==> n == 1
  {
    if n == 1 then "category" else "categories"
  }

  /** The four tips the page can show. */
  datatype Tip = OverBudgetTip(category: string) | UnderBudgetTip(category: string) | OverallTip | FallbackTip

  const OverLead: string := "You're over budget in "
  const UnderLead: string := "Great job staying under budget in "
  const OverRest: string := ". Consider reducing expenses or adjusting your budget."
  const UnderRest: string := "! Consider reallocating some funds to savings."
  const OverallText: string := "You're doing great with overall spending! Consider increasing your savings goal."
  const FallbackText: string := "Keep tracking your expenses to maintain good financial habits!"

  /** Lines 58, 62, 68 and 71: the text shown for each tip; a named tip carries its category right after its lead-in. */
  function TipText(t: Tip): (s: string)
    ensures t.OverBudgetTip? ==>
      |s| > |OverLead| + |t.category|
      && s[..|OverLead|] == OverLead && s[|OverLead|..|OverLead| + |t.category|] == t.category
    ensures t.UnderBudgetTip? ==>
      |s| > |UnderLead| + |t.category|
      && s[..|UnderLead|] == UnderLead && s[|UnderLead|..|UnderLead| + |t.category|] == t.category
  {
    match t
    case OverBudgetTip(c) => Embedded(OverLead, c, OverRest); OverLead + c + OverRest
    case UnderBudgetTip(c) => Embedded(UnderLead, c, UnderRest); UnderLead + c + UnderRest
    case OverallTip => OverallText
    case FallbackTip => FallbackText
  }

  /** Where the middle part of `lead + c + rest` sits. */
  lemma Embedded(lead: string, c: string, rest: string)
    requires |rest| > 0
    ensures var s := lead + c + rest;
      |s| > |lead| + |c| && s[..|lead|] == lead && s[|lead|..|lead| + |c|] == c
  {
  }

  /** Line 67: total spent below 80% of the total budget. */
  predicate SpendingWellUnder(items: seq<BudgetItem>) {
    5 * TotalSpentOf(items) < 4 * TotalBudget(items)
  }

  /** None of the three tip conditions holds. */
  predicate NoTipApplies(items: seq<BudgetItem>) {
    Where(items, IsOver) == [] && Where(items, IsUnder) == [] && !SpendingWellUnder(items)
  }

  /**
   * Lines 52-72: the tips pushed in turn (the first over-budget row, the first
   * row under 70%, overall spending under 80%), or the fallback tip alone when
   * none applies.  Each tip appears exactly when its condition holds, once,
   * at its fixed place.
   */
  function Tips(items: seq<BudgetItem>): (tips: seq<Tip>)
    ensures 1 <= |tips| <= 3
    ensures FallbackTip in tips <==> NoTipApplies(items)
    ensures FallbackTip in tips ==> tips == [FallbackTip]
    ensures Where(items, IsOver) != [] ==> tips[0] == OverBudgetTip(Where(items, IsOver)[0].category)
    ensures forall i :: 0 <= i < |tips| && tips[i].OverBudgetTip? ==> i == 0 && Where(items, IsOver) != []
    ensures Where(items, IsUnder) != [] ==> UnderBudgetTip(Where(items, IsUnder)[0].category) in tips
    ensures forall i :: 0 <= i < |tips| && tips[i].UnderBudgetTip? ==>
      && Where(items, IsUnder) != [] && tips[i] == UnderBudgetTip(Where(items, IsUnder)[0].category)
      && i == (if Where(items, IsOver) != [] then 1 else 0)
    ensures OverallTip in tips <==> SpendingWellUnder(items)
    ensures forall i :: 0 <= i < |tips| && tips[i] == OverallTip ==> i == |tips| - 1
  {
    var over, under, well := Where(items, IsOver), Where(items, IsUnder), SpendingWellUnder(items);
    var tips := TipsFrom(FirstCategory(over), FirstCategory(under), well);
    TipsFromFacts(over, under, well, NoTipApplies(items), tips);
    tips
  }

  /** A negative budget: `0 / -10` is `-0`, below 0.7, so the row gets both the over-budget and the under-budget tip. */
  lemma NegativeBudgetTips()
    ensures Tips([BudgetItem("X", -10, 0)]) == [OverBudgetTip("X"), UnderBudgetTip("X")]
  {
    var items := [BudgetItem("X", -10, 0)];
    assert Where(items, IsOver) == [items[0]];
    assert Where(items, IsUnder) == [items[0]];
    assert !SpendingWellUnder(items);
  }

  /** The pushed tips for the named rows and the overall test, or the fallback alone when none is pushed. */
  function TipsFrom(over: Option<string>, under: Option<string>, overall: bool): seq<Tip> {
    var pushed := Pushed(over, under, overall);
    if pushed != [] then pushed else [FallbackTip]
  }

  /** The facts of `Tips`, for any over-budget rows, under-budget rows and overall test. */
  lemma TipsFromFacts(over: seq<BudgetItem>, under: seq<BudgetItem>, well: bool, none: bool, tips: seq<Tip>)
    requires none <==> over == [] && under == [] && !well
    requires tips == TipsFrom(FirstCategory(over), FirstCategory(under), well)
    ensures 1 <= |tips| <= 3
    ensures FallbackTip in tips <==> none
    ensures FallbackTip in tips ==> tips == [FallbackTip]
    ensures over != [] ==> tips[0] == OverBudgetTip(over[0].category)
    ensures forall i :: 0 <= i < |tips| && tips[i].OverBudgetTip? ==> i == 0 && over != []
    ensures under != [] ==> UnderBudgetTip(under[0].category) in tips
    ensures forall i :: 0 <= i < |tips| && tips[i].UnderBudgetTip? ==>
      && under != [] && tips[i] == UnderBudgetTip(under[0].category)
      && i == (if over != [] then 1 else 0)
    ensures OverallTip in tips <==> well
    ensures forall i :: 0 <= i < |tips| && tips[i] == OverallTip ==> i == |tips| - 1
  {
  }

  /** The category of the first row, if any (`rows[0].category` after a length test). */
  function FirstCategory(rows: seq<BudgetItem>): (c: Option<string>)
    ensures c.Some? <==> rows != []
    ensures rows != [] ==> c.value == rows[0].category
  {
    if rows == [] then None else Some(rows[0].category)
  }

  /** The three conditional pushes of lines 57-69, in order, for the named rows and the overall test. */
  function Pushed(over: Option<string>, under: Option<string>, overall: bool): (p: seq<Tip>)
    ensures |p| <= 3 && FallbackTip !in p
    ensures p == [] <==> over.None? && under.None? && !overall
    ensures over.Some? ==> p[0] == OverBudgetTip(over.value)
    ensures forall i :: 0 <= i < |p| && p[i].OverBudgetTip? ==> i == 0 && over.Some?
    ensures under.Some? ==> UnderBudgetTip(under.value) in p
    ensures forall i :: 0 <= i < |p| && p[i].UnderBudgetTip? ==>
      under.Some? && p[i] == UnderBudgetTip(under.value) && i == (if over.Some? then 1 else 0)
    ensures OverallTip in p <==> overall
    ensures forall i :: 0 <= i < |p| && p[i] == OverallTip ==> i == |p| - 1
  {
    var a := if over.Some? then [OverBudgetTip(over.value)] else [];
    var b := if under.Some? then [UnderBudgetTip(under.value)] else [];
    var c := if overall then [OverallTip] else [];
    a + b + c
  }

  /** No tip applies exactly when no row is over, none is under 70% and overall spending is not under 80%. */
  lemma NoTipCondition(items: seq<BudgetItem>)
    ensures NoTipApplies(items) <==>
      && (forall k :: 0 <= k < |items| ==> !IsOver(items[k]))
      && (forall k :: 0 <= k < |items| ==> !IsUnder(items[k]))
      && !SpendingWellUnder(items)
  {
    WhereEmpty(items, IsOver);
    WhereEmpty(items, IsUnder);
  }
}
