/**
 * The monthly budget section (components/FinanceBudgetingSection.tsx): the
 * form that sets the monthly budget, and the spent and remaining figures.
 * The signed-in user, `Number(input)` and the result of saving the budget
 * arrive as parameters.
 */
module FinanceBudgetingSection {
  import opened Base
  import opened BudgetMath

  /** Line 22: `Number(input)` passes when it is a number above 0 (None stands for NaN). */
  function ValidAmount(converted: Option<real>): (r: bool)
    ensures converted.None? ==> !r
    ensures converted.Some? ==> (r <==> converted.value > 0.0)
  {
    converted.Some? && converted.value > 0.0
  }

  datatype SubmitOutcome = NoUser | InvalidAmount | Saved | SaveFailed

  /** Lines 23 and 32: the alert, if any, each outcome raises. */
  function AlertFor(o: SubmitOutcome): (a: Option<string>)
    ensures a.Some? <==> o == InvalidAmount || o == SaveFailed
  {
    match o
    case InvalidAmount => Some("Enter a valid amount")
    case SaveFailed => Some("Failed to set budget. Please try again.")
    case _ => None
  }

  /** The parent's state that the section reads and sets. */
  class BudgetingSection {
    var monthlyBudget: real
    var monthlyBudgetInput: string

    constructor (budget: real, input: string)
      ensures monthlyBudget == budget && monthlyBudgetInput == input
    {
      monthlyBudget, monthlyBudgetInput := budget, input;
    }

    /** Line 13: the form shows only while no positive budget is set. */
    predicate FormVisible()
      reads this
    {
      monthlyBudget <= 0.0
    }

    /** Line 41: typing replaces the input text. */
    method TypeInput(value: string)
      modifies this`monthlyBudgetInput
      ensures monthlyBudgetInput == value
    {
      monthlyBudgetInput := value;
    }

    /**
     * Lines 16-34.  No user: nothing happens.  An invalid amount: an alert and
     * no save.  Otherwise the amount is saved for the user; on success the
     * saved amount becomes the budget and the input is cleared, on failure an
     * alert and nothing changes.
     */
    method Submit(user: Option<string>, converted: Option<real>, saveResult: Option<real>)
      returns (outcome: SubmitOutcome, saveRequest: Option<(string, real)>)
      modifies this
      ensures user.None? ==> outcome == NoUser
      ensures user.Some? && !ValidAmount(converted) ==> outcome == InvalidAmount
      ensures saveRequest.Some? <==> user.Some? && ValidAmount(converted)
      ensures saveRequest.Some? ==> saveRequest.value == (user.value, converted.value)
      ensures saveRequest.Some? ==> outcome == (if saveResult.Some? then Saved else SaveFailed)
      ensures outcome == Saved ==> monthlyBudget == saveResult.value && monthlyBudgetInput == ""
      ensures outcome != Saved ==> monthlyBudget == old(monthlyBudget) && monthlyBudgetInput == old(monthlyBudgetInput)
      ensures outcome == Saved && saveResult.value > 0.0 ==> !FormVisible()
    {
      saveRequest := None;
      if user.None? {
        outcome := NoUser;
        return;
      }
      if !ValidAmount(converted) {
        outcome := InvalidAmount;
        return;
      }
      saveRequest := Some((user.value, converted.value));
      if saveResult.Some? {
        monthlyBudget := saveResult.value;
        monthlyBudgetInput := "";
        outcome := Saved;
      } else {
        outcome := SaveFailed;
      }
    }
  }

  /** Line 69: the budget less everything recorded as spent. */
  function Remaining(monthlyBudget: real, totals: Totals): (r: real)
    ensures (forall i :: 0 <= i < |totals| ==> totals[i].1 >= 0) ==> r <= monthlyBudget
  {
    var r := monthlyBudget - TotalSpent(totals) as real;
    if totals != [] && forall i :: 0 <= i < |totals| ==> totals[i].1 >= 0 then SpentOnAtMostTotal(totals, totals[0].0); r
    else r
  }

  /** Each newly recorded amount comes straight off what remains. */
  lemma RemainingAfterSpending(monthlyBudget: real, totals: Totals, key: string, amount: int)
    ensures Remaining(monthlyBudget, totals + [(key, amount)]) == Remaining(monthlyBudget, totals) - amount as real
  {
    TotalSpentSnoc(totals, key, amount);
  }
}
