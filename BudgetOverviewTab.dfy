/**
 * The budget overview tab (components/BudgetOverviewTab.tsx): one progress
 * row per budget category, reading what was spent from the spending record.
 */
module BudgetOverviewTab {
  import opened BudgetMath

  /** Line 4: a category and its (positive) budget. */
  datatype BudgetLine = BudgetLine(category: string, budget: int)

  datatype ProgressRow = ProgressRow(category: string, spent: int, budget: int, percentage: real, colour: Colour)

  /** Line 36: red from 90%, yellow from 75%, green below. */
  function BarColour(percentage: real): (c: Colour)
    ensures c == Red <==> percentage >= 90.0
    ensures c == Yellow <==> 75.0 <= percentage < 90.0
    ensures c == Green <==> percentage < 75.0
  {
    if percentage >= 90.0 then Red else if percentage >= 75.0 then Yellow else Green
  }

  /** Lines 20-21 and 36: spent (0 when the record lacks the category), capped percentage and colour. */
  function RowFor(line: BudgetLine, totals: Totals): (r: ProgressRow)
    requires line.budget > 0
    ensures r.category == line.category && r.budget == line.budget
    ensures r.spent == SpentOn(totals, line.category)
    ensures r.spent < line.budget ==> r.percentage == Percent(r.spent, line.budget)
    ensures r.spent >= line.budget ==> r.percentage == 100.0
    ensures r.colour == Red <==> 100 * r.spent >= 90 * line.budget
    ensures r.colour == Green <==> 100 * r.spent < 75 * line.budget
  {
    var spent := SpentOn(totals, line.category);
    var percentage := CappedPercent(spent, line.budget);
    CappedAtLeast(spent, line.budget, 90);
    CappedAtLeast(spent, line.budget, 75);
    ProgressRow(line.category, spent, line.budget, percentage, BarColour(percentage))
  }

  /** Line 19: exactly one row per budget line, in input order. */
  function Rows(lines: seq<BudgetLine>, totals: Totals): (r: seq<ProgressRow>)
    requires forall k :: 0 <= k < |lines| ==> lines[k].budget > 0
    ensures |r| == |lines|
    ensures forall i :: 0 <= i < |r| ==> r[i] == RowFor(lines[i], totals)
  {
    if lines == [] then [] else [RowFor(lines[0], totals)] + Rows(lines[1..], totals)
  }

  /** A category with nothing recorded shows 0% and a green bar. */
  lemma NoSpendingIsZeroGreen(line: BudgetLine, totals: Totals)
    requires line.budget > 0
    requires forall i :: 0 <= i < |totals| ==> totals[i].0 != line.category
    ensures RowFor(line, totals).percentage == 0.0
    ensures RowFor(line, totals).colour == Green
  {
  }

  /** The row order follows the budget lines: rows of concatenated lines are the concatenated rows. */
  lemma {:induction false} RowsAppend(a: seq<BudgetLine>, b: seq<BudgetLine>, totals: Totals)
    requires forall k :: 0 <= k < |a| ==> a[k].budget > 0
    requires forall k :: 0 <= k < |b| ==> b[k].budget > 0
    ensures forall k :: 0 <= k < |a + b| ==> (a + b)[k].budget > 0
    ensures Rows(a + b, totals) == Rows(a, totals) + Rows(b, totals)
  {
    assert forall k :: 0 <= k < |a + b| ==> (a + b)[k] == if k < |a| then a[k] else b[k - |a|];
  }
}
