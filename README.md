# TrackPal core, modelled in Dafny

TrackPal is a personal tracker: weekly goals with tasks, a weekly streak, and
a finance area (transactions, budgets). This project models its logic:

- the two scheduled server routes:
  - the weekly-streak update;
  - the e-mail reminder for goals due today or tomorrow;
- the goal board's columns, progress bars and deadline badges;
- the add and edit goal forms;
- the streak widget;
- the finance helpers:
  - per-category sums and the balance formula;
  - currency and date text, and the style lookups;
  - the PDF table rows;
- the budget screens: progress, colours, alerts, tips, and the monthly budget form.

Each module follows one source file:

- Pure code becomes datatypes, functions and lemmas.
- Loops become methods with loop invariants, each proved against a function that specifies it. These are the streak loop, the grouping and sending loops of the reminder, the e-mail body and the PDF rows. The tips are a chain of `push` calls without a loop, so they are a function whose contract fixes the whole list.
- Components whose handlers replace React state become classes. These are the two goal forms and the budget form.

Shared modules:

- `Base`: Option, Max, Min.
- `JsText`: JavaScript's `String(n)`, `trim` and `padStart`, with their round trips.
- `Types`: the goal records of types/index.ts and the database rows.
- `BudgetMath`: the percentage arithmetic of the budget screens.

Modelling choices:

- Times are integers in milliseconds; the time-zone offset is a parameter.
- Percentages are exact reals.
- Ratio tests are cross-multiplied integers, and a lemma ties each back to the real percentage.
- `Math.round(x)` is floor(x + 1/2).
- Database reads, the signed-in user, `Number(input)`, the result of a save and mail delivery failures are all parameters.

The week window follows the code rather than its comments. In app/api/update_weekly_streak/route.ts:10-13 the start is "now" moved back `getDay()` whole days, with the time of day kept. So the window runs from Sunday at the current time to Saturday at the current time, rather than the intended Sunday 00:00 to Saturday 23:59. Goals created earlier on that Sunday or later on that Saturday are outside it. `UpdateWeeklyStreak.WindowKeepsTimeOfDay` states this.

## Model

| member | source | states |
|---|---|---|
| JsText.NatToString | components/WeeklyStreak.tsx:51 | the decimal text of a count below 1e21: at least one character, all digits, no leading zero, one character exactly below 10 |
| JsText.NatToStringRoundTrip | utils/HelperFunc.ts:47 | reading the decimal text of n back gives n |
| JsText.IntToString | utils/HelperFunc.ts:47 | `String(i)` for an integer below 1e21 in size has at least one character and begins with "-" exactly for a negative number |
| JsText.IntToStringRoundTrip | utils/HelperFunc.ts:47 | `String(i)` for an integer below 1e21 in size reads back as i, sign included |
| JsText.LeadingSpace | components/EditWeeklyGoalModal.tsx:62 | the count of leading characters is within the text, all of them are whitespace, and the next character is not |
| JsText.TrailingSpace | components/EditWeeklyGoalModal.tsx:62 | the count of trailing characters is within the text, all of them are whitespace, and the character before them is not |
| JsText.TrimStart | components/EditWeeklyGoalModal.tsx:62 | the result is a suffix of the input, everything dropped is whitespace, and it does not begin with whitespace |
| JsText.TrimEnd | components/EditWeeklyGoalModal.tsx:62 | the result is a prefix of the input, everything dropped is whitespace, and it does not end with whitespace |
| JsText.Trim | components/EditWeeklyGoalModal.tsx:62 | no longer than the input, and a non-empty result neither begins nor ends with whitespace |
| JsText.TrimEmptyIff | components/EditWeeklyGoalModal.tsx:62 | `trim()` is empty exactly when every character is whitespace |
| JsText.TrimShape | components/EditWeeklyGoalModal.tsx:71 | the trimmed text is a slice of the input with only whitespace outside it |
| JsText.TrimBounds | components/EditWeeklyGoalModal.tsx:71 | gives the two ends of the trimmed text in the original and shows only whitespace lies outside them |
| JsText.TrimIdempotent | components/EditWeeklyGoalModal.tsx:71 | trimming twice gives the same text as trimming once |
| JsText.PadStart | utils/HelperFunc.ts:55-56 | `padStart`: the result is at least the width long, ends with the input, and holds only fill characters before it |
| Base.OrZero | app/api/update_weekly_streak/route.ts:41-42 | `x \|\| 0`: 0 for a missing counter, the value otherwise |
| Types.OwnedBy | app/api/update_weekly_streak/route.ts:28 | exactly the rows whose `user_id` is the given user, no more than the input |
| Types.OwnedByAppend | app/api/update_weekly_streak/route.ts:28 | filtering by owner distributes over concatenation, so order is kept |
| UpdateWeeklyStreak.WeekdayOf | app/api/update_weekly_streak/route.ts:11 | the weekday number lies in 0..6 |
| UpdateWeeklyStreak.WeekWindow | app/api/update_weekly_streak/route.ts:10-13 | start ≤ now ≤ end, end is start plus six days, and start is a whole number of days before now |
| UpdateWeeklyStreak.WeekWindowSundayToSaturday | app/api/update_weekly_streak/route.ts:11-13 | the window starts on a Sunday and ends on a Saturday |
| UpdateWeeklyStreak.WindowKeepsTimeOfDay | app/api/update_weekly_streak/route.ts:11-13 | start and end fall at the time of day of now. When that is past midnight, that Sunday's 00:00 lies before the start; when it is before 23:59:59.999, a later instant of that Saturday lies after the end. Goals created then are missed |
| UpdateWeeklyStreak.WeekGoals | app/api/update_weekly_streak/route.ts:25-30 | a goal is kept iff it is the user's and start ≤ created_at ≤ end, both ends inclusive |
| UpdateWeeklyStreak.WeekGoalsOfOwned | app/api/update_weekly_streak/route.ts:28-30 | the week query of a user sees only that user's rows |
| UpdateWeeklyStreak.FetchWeekGoals | app/api/update_weekly_streak/route.ts:25-30 | no data for a failed query; otherwise exactly the user's goals created within the window |
| UpdateWeeklyStreak.AllCompleted | app/api/update_weekly_streak/route.ts:34-37 | false for missing data or no goals; otherwise true iff every goal is done |
| UpdateWeeklyStreak.StreakUpdate | app/api/update_weekly_streak/route.ts:34-68 | both branches write the timestamp. When every week goal is done (and there is at least one), count = old count (missing as 0) + 1, and longest is written as the larger of that and the old longest. Otherwise count is 0 and longest is not written |
| UpdateWeeklyStreak.Apply | app/api/update_weekly_streak/route.ts:49-68 | the written columns replace the profile's; an unwritten longest keeps its old value |
| UpdateWeeklyStreak.UpdateKeepsInvariant | app/api/update_weekly_streak/route.ts:41-68 | after either branch longest ≥ count, whatever held before (the reset writes 0), and longest never decreases |
| UpdateWeeklyStreak.RerunCountsTwice | app/api/update_weekly_streak/route.ts:40-56 | running the route twice over the same completed week counts it twice: the update has no per-week guard |
| UpdateWeeklyStreak.UpdateDependsOnlyOnOwnGoals | app/api/update_weekly_streak/route.ts:22-72 | a user's update is the same for any two goal tables that agree on that user's rows |
| UpdateWeeklyStreak.UpdateWeeklyStreaks | app/api/update_weekly_streak/route.ts:7-72 | a null user list writes nothing. Otherwise one write per user in list order, each the user's own update. Every written profile gets it applied, other profiles are unchanged, and the longest ≥ count invariant holds in the new table |
| EmailReminder.SelectDueSoon | app/api/email-reminder/route.ts:26-31 | a goal is selected iff its state is not done and its deadline is set and equal to today's or tomorrow's date text |
| EmailReminder.Selected | app/api/email-reminder/route.ts:29-31 | a done goal and a goal without deadline are never selected; any other goal is selected iff its deadline is today's or tomorrow's date text |
| EmailReminder.UserOrder | app/api/email-reminder/route.ts:43-52 | the users with selected goals, each once, no more of them than goals |
| EmailReminder.FirstAt | app/api/email-reminder/route.ts:44-48 | the position of the user's first goal: that goal is the user's and no earlier one is; the length of the list when there is none |
| EmailReminder.KeyIffFirstInside | app/api/email-reminder/route.ts:43-52 | a user is a key iff one of the goals is theirs |
| EmailReminder.UserOrderFirstAppearance | app/api/email-reminder/route.ts:43-52 | the keys come in the order of each user's first goal in the list |
| EmailReminder.GroupByUser | app/api/email-reminder/route.ts:43-49 | the grouping loop files each goal under its owner. The keys are exactly the owners, each group is that owner's goals in input order, and no group is empty |
| EmailReminder.GroupsOfStep | app/api/email-reminder/route.ts:43-49 | one more goal files that goal under its owner, and adds the owner as a key exactly when it had no group yet |
| EmailReminder.GroupsOfKeys | app/api/email-reminder/route.ts:43-49 | after any goals, the grouped map has a key exactly for each owner in the first-seen key order |
| EmailReminder.GroupsOfOwners | app/api/email-reminder/route.ts:43-49 | after any goals, each group is exactly its owner's goals in input order and is never empty |
| EmailReminder.GroupsPartition | app/api/email-reminder/route.ts:43-49 | the group sizes add up to the number of selected goals, so every goal is filed exactly once |
| EmailReminder.LinesAppend | app/api/email-reminder/route.ts:71-73 | the goal lines of concatenated lists are the concatenated lines |
| EmailReminder.GoalLine | app/api/email-reminder/route.ts:72 | "- ", then the title, and at the end ")" and a line break |
| EmailReminder.Lines | app/api/email-reminder/route.ts:71-73 | empty iff there are no goals; otherwise it ends with a line break |
| EmailReminder.BuildEmailBody | app/api/email-reminder/route.ts:70-74 | the body built in the loop is the greeting, one line per goal in order, then the sign-off |
| EmailReminder.BodyHasOneLinePerGoal | app/api/email-reminder/route.ts:70-74 | when no title or deadline holds a line break, the body has exactly one line break per goal plus six |
| EmailReminder.GoalLineBreaks | app/api/email-reminder/route.ts:72 | a goal line holds exactly one line break when its title and deadline hold none |
| EmailReminder.GreetingBreaks | app/api/email-reminder/route.ts:70 | the greeting holds four line breaks |
| EmailReminder.SignOffBreaks | app/api/email-reminder/route.ts:74 | the sign-off holds two line breaks |
| EmailReminder.Addressed | app/api/email-reminder/route.ts:52-65 | the keys whose profile has a non-empty address, no more of them than keys, each once when the keys are distinct |
| EmailReminder.Outbox | app/api/email-reminder/route.ts:52-86 | one e-mail per key that has an address, in key order: the i-th e-mail is the mail of the i-th such key, and there are no more e-mails than keys |
| EmailReminder.OutboxAddressed | app/api/email-reminder/route.ts:52-86 | every user with a found, non-empty address gets one e-mail, and every e-mail goes to such a user |
| EmailReminder.OutboxStep | app/api/email-reminder/route.ts:52-86 | the next key adds its e-mail at the end when the user has an address, and nothing otherwise |
| EmailReminder.MailFor | app/api/email-reminder/route.ts:67-83 | from the fixed sender, with the fixed subject, to the profile's non-empty address; the text is the greeting, one line for each of that user's goals, then the sign-off |
| EmailReminder.SendReminders | app/api/email-reminder/route.ts:26-89 | a fetch error answers "Failed to fetch goals" and sends nothing. No due goal answers "No goals due today or tomorrow". Otherwise the attempted e-mails are the outbox of the grouped goals, and a failed delivery is skipped without stopping the loop |
| EditWeeklyGoalModal.RenameTask | components/EditWeeklyGoalModal.tsx:49-51 | same length; every task with the id gets the new title, and every other field and task is unchanged |
| EditWeeklyGoalModal.SetTaskCompleted | components/EditWeeklyGoalModal.tsx:53-55 | same length; every task with the id gets the flag, and every other field and task is unchanged |
| EditWeeklyGoalModal.RemoveTaskById | components/EditWeeklyGoalModal.tsx:57-59 | keeps exactly the tasks with a different id |
| EditWeeklyGoalModal.RemoveTaskByIdAppend | components/EditWeeklyGoalModal.tsx:58 | removal distributes over concatenation, so order is kept |
| EditWeeklyGoalModal.RemoveTaskByIdAbsent | components/EditWeeklyGoalModal.tsx:58 | removing an id no task has changes nothing |
| EditWeeklyGoalModal.RemoveTaskByIdIdempotent | components/EditWeeklyGoalModal.tsx:58 | removing the same id twice is removing it once |
| EditWeeklyGoalModal.ValidTasks | components/EditWeeklyGoalModal.tsx:67 | keeps exactly the tasks whose trimmed title is non-empty, titles untouched |
| EditWeeklyGoalModal.ValidTasksAppend | components/EditWeeklyGoalModal.tsx:67 | the filter distributes over concatenation |
| EditWeeklyGoalModal.ValidTasksKeepsNonBlank | components/EditWeeklyGoalModal.tsx:67 | a list without blank titles is kept whole |
| EditWeeklyGoalModal.EditTrimsAndDropsBlank | components/EditWeeklyGoalModal.tsx:67-71 | the editor strips the spaces around a title that begins and ends with a visible character, and drops a blank task |
| EditWeeklyGoalModal.MinTaskId | components/EditWeeklyGoalModal.tsx:35-39 | at most 0 and at most every id in use |
| EditWeeklyGoalModal.FreshTempId | components/EditWeeklyGoalModal.tsx:35-39 | a temporary id that is negative and used by no task |
| EditWeeklyGoalModal.FreshTempIdKeepsIdsDistinct | components/EditWeeklyGoalModal.tsx:37-45 | a blank task with that id keeps the task ids distinct |
| EditWeeklyGoalModal.EditGoalModal.constructor | components/EditWeeklyGoalModal.tsx:19-35 | priority and deadline come from the goal only at mount (medium and null without one). The effect copies title, state and tasks. The counter starts at −1 |
| EditWeeklyGoalModal.EditGoalModal.ReceiveGoal | components/EditWeeklyGoalModal.tsx:25-31 | a new goal replaces title, state and tasks, and leaves priority and deadline as they were |
| EditWeeklyGoalModal.EditGoalModal.Render | components/EditWeeklyGoalModal.tsx:35 | every render sets the counter back to −1 |
| EditWeeklyGoalModal.EditGoalModal.HandleAddTask | components/EditWeeklyGoalModal.tsx:37-45 | appends one blank task with the counter's (negative) id and moves the counter down |
| EditWeeklyGoalModal.EditGoalModal.HandleAddTaskWithFreshId | components/EditWeeklyGoalModal.tsx:37-45 | appends one blank task with a fresh id, so distinct ids stay distinct |
| EditWeeklyGoalModal.EditGoalModal.HandleTaskTitleChange | components/EditWeeklyGoalModal.tsx:49-51 | the task list becomes its rename |
| EditWeeklyGoalModal.EditGoalModal.HandleTaskCompletedChange | components/EditWeeklyGoalModal.tsx:53-55 | the task list takes the new completed flag |
| EditWeeklyGoalModal.EditGoalModal.HandleRemoveTask | components/EditWeeklyGoalModal.tsx:57-59 | the task list loses the tasks with that id |
| EditWeeklyGoalModal.EditGoalModal.HandleSave | components/EditWeeklyGoalModal.tsx:61-79 | nothing is saved iff the title is all whitespace. A save keeps the goal's id and creation time, and carries the trimmed non-empty title, the selected state, the non-blank tasks and the edited priority and deadline |
| EditWeeklyGoalModal.EditGoalModal.HandleCancel | components/EditWeeklyGoalModal.tsx:81-88 | title, state and tasks come back from the goal, and the modal closes |
| EditWeeklyGoalModal.AddTwiceAcrossRenders | components/EditWeeklyGoalModal.tsx:35-51 | two tasks added in separate renders both get id −1, and typing into one renames both |
| EditWeeklyGoalModal.AddTwiceWithFreshIds | components/EditWeeklyGoalModal.tsx:37-51 | with fresh ids, the two tasks differ, and typing into the first leaves the second blank |
| EditWeeklyGoalModal.SaveAfterLateGoal | components/EditWeeklyGoalModal.tsx:22-76 | a modal mounted before any goal saves a later goal with priority medium and no deadline |
| AddWeeklyGoalModal.RemoveAt | components/AddWeeklyGoalModal.tsx:34-36 | drops the element at the index when it is in range, and keeps the list otherwise |
| AddWeeklyGoalModal.AddGoalModal.constructor | components/AddWeeklyGoalModal.tsx:16-20 | the form starts empty: no title, not started, no tasks, medium, no deadline |
| AddWeeklyGoalModal.AddGoalModal.AddTask | components/AddWeeklyGoalModal.tsx:24-26 | one blank, open task is appended |
| AddWeeklyGoalModal.AddGoalModal.UpdateTask | components/AddWeeklyGoalModal.tsx:28-32 | in range, only that task's title changes; out of range the write throws and nothing changes |
| AddWeeklyGoalModal.AddGoalModal.RemoveTask | components/AddWeeklyGoalModal.tsx:34-36 | the task list loses the element at the index |
| AddWeeklyGoalModal.AddGoalModal.HandleSave | components/AddWeeklyGoalModal.tsx:38-50 | an all-whitespace title saves nothing and keeps the form. Otherwise the untrimmed title and every task, blank ones too, are saved, and the form resets |
| AddWeeklyGoalModal.AddKeepsWhatEditDrops | components/AddWeeklyGoalModal.tsx:38-50 | the form saves " Read " and a blank task as they are |
| WeeklyGoalsCards.Heading | components/WeeklyGoalsCards.tsx:17-21 | "Not Started", "In Progress" and "Done", each exactly for its own state |
| WeeklyGoalsCards.Column | components/WeeklyGoalsCards.tsx:26-28 | a goal is in a column iff it is in the list and has that column's state |
| WeeklyGoalsCards.ColumnAppend | components/WeeklyGoalsCards.tsx:26-28 | columns keep the input order |
| WeeklyGoalsCards.ColumnsPartition | components/WeeklyGoalsCards.tsx:7-28 | the three columns together hold every goal exactly as often as the input |
| WeeklyGoalsCards.ColumnOfOwnState | components/WeeklyGoalsCards.tsx:7-28 | a goal appears in the column of its own state and in no other |
| WeeklyGoalsCards.ColumnContent | components/WeeklyGoalsCards.tsx:24-28 | the placeholder shows iff no goal has the column's state; otherwise the cards are the column's goals |
| WeeklyGoalsCards.Board | components/WeeklyGoalsCards.tsx:7 | three columns in the order not started, in progress, done |
| WeeklyGoalsCards.CompletedCount | components/WeeklyGoalsCards.tsx:103 | at most the number of tasks; equal to it iff every task is completed; 0 iff none is |
| WeeklyGoalsCards.Progress | components/WeeklyGoalsCards.tsx:102-104 | in 0..100; 0 without tasks; otherwise the completed share in percent rounded half up |
| WeeklyGoalsCards.IsAllFinished | components/WeeklyGoalsCards.tsx:105 | finished iff there is a task and every task is completed |
| WeeklyGoalsCards.ProgressOf | components/WeeklyGoalsCards.tsx:102-104 | 0 without tasks; otherwise the percentage rounded half up, within half a point of the exact value, always in 0..100 |
| WeeklyGoalsCards.ProgressEnds | components/WeeklyGoalsCards.tsx:104-105 | a finished goal shows 100% and one with nothing completed 0%; a goal without tasks is never finished |
| WeeklyGoalsCards.RoundedHundredNotFinished | components/WeeklyGoalsCards.tsx:104-105 | 200 of 201 tasks show 100% yet the goal is not finished |
| WeeklyGoalsCards.DaysLeft | components/WeeklyGoalsCards.tsx:124-126 | the days left, rounded up: (d − 1) days < time left ≤ d days |
| WeeklyGoalsCards.BadgeFor | components/WeeklyGoalsCards.tsx:127-134 | green above three days, yellow for one to three, red below one |
| WeeklyGoalsCards.DeadlineLabel | components/WeeklyGoalsCards.tsx:139 | "N days left" for a positive count, "Overdue!" otherwise |
| WeeklyGoalsCards.RedIffOverdue | components/WeeklyGoalsCards.tsx:127-139 | the red badge and the "Overdue!" label go together |
| WeeklyGoalsCards.DeadlineInfo | components/WeeklyGoalsCards.tsx:121-143 | deadline info shows iff the deadline is set and non-empty, with the badge and label of the days left |
| WeeklyStreak.BarPercent | components/WeeklyStreak.tsx:11-40 | in 0..100 for a non-negative count, 10 points per week, exactly 100 from ten weeks on |
| WeeklyStreak.Dots | components/WeeklyStreak.tsx:70-77 | ten dots, dot i lit iff i is below the count |
| WeeklyStreak.LitDots | components/WeeklyStreak.tsx:70-77 | exactly min(count, 10) dots are lit (none for a negative count) |
| WeeklyStreak.LitCount | components/WeeklyStreak.tsx:70-77 | at most the number of dots; 0 iff every dot is dark, all of them iff every dot is lit |
| WeeklyStreak.Suffix | components/WeeklyStreak.tsx:51-59 | no "s" exactly for the count 1; "s" for any other count and for a null counter |
| WeeklyStreak.CountText | components/WeeklyStreak.tsx:51 | nothing for a null counter; otherwise text that reads back as the count |
| WeeklyStreak.WeeksLabel | components/WeeklyStreak.tsx:51-59 | the counter's text followed by " week" exactly for 1 and " weeks" otherwise |
| WeeklyStreak.WeeksLabelReadsBack | components/WeeklyStreak.tsx:51-59 | the "N week(s)" label begins with text that reads back as N |
| WeeklyStreak.Card | components/WeeklyStreak.tsx:31-78 | loading iff no counters have arrived; otherwise the two labels, and the bar and dots of the current count, a null counter counting as 0 |
| WeeklyStreak.BarIgnoresLongest | components/WeeklyStreak.tsx:39-77 | the bar and the dots depend on the current count only |
| WeeklyStreak.NullCountShowsNothing | components/WeeklyStreak.tsx:39-77 | a null current counter shows " weeks", an empty bar and no lit dot |
| HelperFunc.SumAbsent | utils/HelperFunc.ts:93-99 | an empty list or an absent category sums to 0 |
| HelperFunc.SumByCategoryAppend | utils/HelperFunc.ts:93-99 | the category sum is additive over concatenation |
| HelperFunc.SumByCategory | utils/HelperFunc.ts:93-99 | with non-negative amounts a category sum lies between 0 and the sum of all amounts |
| HelperFunc.CategorySumsPartition | utils/HelperFunc.ts:93-99 | the four category sums add up to the sum of all amounts |
| HelperFunc.TotalBalanceIsSignedTotal | utils/HelperFunc.ts:101-106 | the balance of the four sums counts spending negatively and income, savings and investing positively |
| HelperFunc.FormatCurrency | utils/HelperFunc.ts:46-48 | a dollar sign followed by text that reads back as the amount |
| HelperFunc.FormatDate | utils/HelperFunc.ts:51-58 | "" exactly for the empty string; "NaN-NaN-NaN" when the date cannot be read |
| HelperFunc.FormatDateReadsBack | utils/HelperFunc.ts:51-58 | a valid date prints as year-mm-dd, which reads back as the year, the 1-based month and the day |
| HelperFunc.Pad2Reads | utils/HelperFunc.ts:55-56 | a value below 100 pads to two digits that read back as the value |
| HelperFunc.CategoryStyles | utils/HelperFunc.ts:61-76 | the base styles followed by " bg-C-100 text-C-800", where C is green, red, blue or yellow for income, spending, saving or investing, and gray for any other text |
| HelperFunc.CategoryStylesDistinct | utils/HelperFunc.ts:61-76 | the four categories get four distinct styles, none of them the grey default |
| HelperFunc.AmountStyles | utils/HelperFunc.ts:79-91 | red iff spending; green iff income, saving or investing; the grey style otherwise |
| HelperFunc.AmountStylesRedIffSpending | utils/HelperFunc.ts:79-91 | red exactly for spending, green for income, saving and investing |
| HelperFunc.RowOf | utils/HelperFunc.ts:142-148 | five cells, one per column: date, source, category, then a dollar sign and text that reads back as the amount, then the notes or "" |
| HelperFunc.BuildTableRows | utils/HelperFunc.ts:139-149 | one row per transaction, in input order |
| BudgetMath.PercentAtLeast | app/test/page.tsx:31-33 | a percentage reaches a threshold exactly when the cross-multiplied integers do |
| BudgetMath.RatioAtLeast | app/test/page.tsx:45 | with a positive budget, spent / budget reaches n / d exactly when d · spent ≥ n · budget |
| BudgetMath.RatioAtLeastNegative | app/test/page.tsx:55 | with a negative budget, spent / budget reaches n / d exactly when d · spent ≤ n · budget |
| BudgetMath.RatioReaches | app/test/page.tsx:45 | JavaScript's spent / budget ≥ n / d for every budget: the real comparison for a non-zero budget, positive spending for a zero one |
| BudgetMath.RatioBelow | app/test/page.tsx:55 | JavaScript's spent / budget < n / d for every budget: the real comparison for a non-zero budget, negative spending for a zero one |
| BudgetMath.CappedPercent | app/test/page.tsx:37-39 | never above 100, exactly 100 once spending reaches the budget, the exact percentage below it, non-negative for non-negative spending |
| BudgetMath.CappedAtLeast | components/BudgetOverviewTab.tsx:21-36 | capping at 100 does not move a threshold at or below 100 |
| BudgetMath.RoundedPercent | app/test/page.tsx:47 | within half a point of the exact percentage, halves rounded up |
| BudgetMath.RoundedPercentBounds | app/test/page.tsx:47 | a share between 0 and the whole rounds into 0..100, and the whole rounds to 100 |
| BudgetMath.SpentOn | components/BudgetOverviewTab.tsx:20 | 0 for a category the record lacks, the recorded amount otherwise |
| BudgetMath.TotalSpentSnoc | components/FinanceBudgetingSection.tsx:64 | one more recorded category adds its amount to the total |
| BudgetMath.SpentOnAtMostTotal | components/FinanceBudgetingSection.tsx:64 | with non-negative amounts, one category's amount is part of the total |
| BudgetTracker.ProgressColour | app/test/page.tsx:30-35 | red iff the percentage is at least 100, yellow iff in [85, 100), green iff below 85 |
| BudgetTracker.UsedTextMatchesBar | app/test/page.tsx:37-39 | the "% used" colour, read off the capped percentage, agrees with the bar colour |
| BudgetTracker.ProgressPercentage | app/test/page.tsx:37-39 | for a positive budget, the exact percentage below the budget and exactly 100 from the budget on |
| BudgetTracker.TotalBudget | app/test/page.tsx:41 | non-negative for non-negative budgets, and at least the number of rows for positive budgets |
| BudgetTracker.TotalSpentOf | app/test/page.tsx:42 | non-negative for non-negative spending, and at most the total budget when every row is within its budget |
| BudgetTracker.TotalsAppend | app/test/page.tsx:41-42 | both totals add up over concatenated lists |
| BudgetTracker.RemainingSnoc | app/test/page.tsx:41-42 | one more row moves the remaining amount by its budget less its spending |
| BudgetTracker.Remaining | app/test/page.tsx:135 | with every row within its budget, something remains overall |
| BudgetTracker.Where | app/test/page.tsx:45-55 | a row is kept iff it satisfies the test, and no more rows are kept than given |
| BudgetTracker.WhereAppend | app/test/page.tsx:45-55 | the filter distributes over concatenation, so the kept rows stay in list order |
| BudgetTracker.WhereFirst | app/test/page.tsx:58-62 | the first kept row is the first row of the list that passes the test |
| BudgetTracker.WhereEmpty | app/test/page.tsx:57-61 | nothing is kept iff no row passes the test |
| BudgetTracker.Alerted | app/test/page.tsx:45 | for a non-zero budget of either sign, a row is alerted iff spent / budget is at least 0.85; over a zero budget iff spending is positive (`Infinity`) |
| BudgetTracker.IsUnder | app/test/page.tsx:55 | for a non-zero budget of either sign, a row is under budget iff spent / budget is below 0.7; over a zero budget iff spending is negative (`-Infinity`) |
| BudgetTracker.AlertOf | app/test/page.tsx:46-48 | the alert names the row, rounds its percentage, and is over budget iff spent > budget |
| BudgetTracker.Alerts | app/test/page.tsx:44-50 | one alert per row at or above 85%, the i-th alert for the i-th kept row, so in list order by WhereAppend |
| BudgetTracker.AlertedNotGreen | app/test/page.tsx:30-45 | an alerted row never has a green bar |
| BudgetTracker.FullBudgetAlertedNotOver | app/test/page.tsx:45-48 | a row spent exactly to its budget is alerted at 100% but not over budget |
| BudgetTracker.CategoryWord | app/test/page.tsx:96 | "category" exactly for one alert, "categories" otherwise |
| BudgetTracker.TipText | app/test/page.tsx:58-62 | the over-budget and under-budget tips carry the category right after their fixed opening words, with more text after it |
| BudgetTracker.NoTipCondition | app/test/page.tsx:54-71 | no row over budget, no row under 70% and overall spending not below 80% together are exactly the fallback's condition |
| BudgetTracker.Tips | app/test/page.tsx:52-72 | 1 to 3 tips. The fallback appears, and then alone, iff no row is over budget, none is under 70%, and overall spending is not below 80%. An over-budget tip appears iff a row is over budget; it comes first and names the first kept over-budget row, which WhereFirst shows is the first such row of the list. An under-budget tip appears iff a row is under 70%, names the first such row, and comes right after the over-budget tip or first. The overall tip appears iff total spending is below 80% of the total budget, and comes last. Budgets may have any sign |
| BudgetTracker.NegativeBudgetTips | app/test/page.tsx:52-72 | a row with budget −10 and nothing spent is over budget and also under 70% (0 / −10 is −0), so it gets both tips and no other |
| BudgetOverviewTab.BarColour | components/BudgetOverviewTab.tsx:36 | red iff at least 90, yellow iff in [75, 90), green iff below 75 |
| BudgetOverviewTab.RowFor | components/BudgetOverviewTab.tsx:20-36 | spent read from the record (0 when absent); the percentage is the exact one below the budget and exactly 100 from the budget on; red iff spending ≥ 90% and green iff below 75% |
| BudgetOverviewTab.Rows | components/BudgetOverviewTab.tsx:19 | exactly one row per budget line, in input order |
| BudgetOverviewTab.NoSpendingIsZeroGreen | components/BudgetOverviewTab.tsx:20-36 | a category with nothing recorded shows 0% and green |
| BudgetOverviewTab.RowsAppend | components/BudgetOverviewTab.tsx:19 | the rows of concatenated lines are the concatenated rows |
| FinanceBudgetingSection.ValidAmount | components/FinanceBudgetingSection.tsx:21-22 | a `Number` that is NaN is invalid; a number is valid iff it is positive |
| FinanceBudgetingSection.AlertFor | components/FinanceBudgetingSection.tsx:23-32 | an alert exactly for an invalid amount or a failed save |
| FinanceBudgetingSection.BudgetingSection.constructor | components/FinanceBudgetingSection.tsx:8 | the section starts from the parent's budget and input text |
| FinanceBudgetingSection.BudgetingSection.TypeInput | components/FinanceBudgetingSection.tsx:41 | typing replaces the input text |
| FinanceBudgetingSection.BudgetingSection.Submit | components/FinanceBudgetingSection.tsx:13-34 | no user does nothing. An amount that is NaN, 0 or negative alerts and saves nothing. Otherwise the amount is saved for the user. Success sets the budget to the saved amount, clears the input and, for a positive amount, hides the form. Failure changes nothing |
| FinanceBudgetingSection.RemainingAfterSpending | components/FinanceBudgetingSection.tsx:64-69 | each recorded amount comes straight off what remains |
| FinanceBudgetingSection.Remaining | components/FinanceBudgetingSection.tsx:69 | with non-negative amounts, what remains never exceeds the budget |

## Left out

- Supabase queries, Resend, React rendering, `fetch`, `alert` and the console are left out. Their inputs and results are parameters.
- The outer `try`/`catch` of both routes is left out: the response for an unexpected exception is not modelled.
- Dates are left out: `Date`, time zones, daylight saving, `toISOString`, `toLocaleDateString`. Times are integer milliseconds with an offset; the date texts of today and tomorrow are parameters. `formatDate` takes the fields `new Date` would produce as a parameter.
- Floating point is left out: `toFixed`, `toLocaleString`, and the rounding error of `completed / total * 100`. Percentages are exact reals or integers.
- Amounts, budgets and counters are integers. The source's amounts are JavaScript numbers, so a fractional amount such as 12.5 (printed "$12.5") is not modelled, and neither is the exponent form `String` uses from 1e21 on.
- The Supabase filters `.neq`, `.not` and `.in` are left out; the reminder selection is their meaning.
- Key order is left out. The model takes JavaScript object keys in insertion order, but integer-like keys come first in `for..in` and `Object.values`.
- AddWeeklyGoalModal.AddGoalModal.UpdateTask: the source writes into a task object it shares with the previous state. The model replaces the task instead, so the old state is not mutated through the alias.
- EditWeeklyGoalModal.EditGoalModal.HandleAddTask: it builds on the list from the current render, so two adds before a re-render would lose the first. The model appends to the current list.
- WeeklyGoalsCards.DaysLeft: an unreadable deadline gives `NaN` in the source, and that case is not modelled.
- BudgetTracker.Alerts: requires positive budgets, because the rounded percentage of an alert over a zero budget (`Infinity`/`NaN`) is not modelled. The alert test itself, BudgetTracker.Alerted, and the tips cover budgets of every sign.
- BudgetTracker.ProgressColour: requires a positive budget, for the same reason.
- BudgetOverviewTab.RowFor: requires a positive budget, for the same reason.
- The monthly budget's remaining percentage (components/FinanceBudgetingSection.tsx:70) and the page's remaining percentage (app/test/page.tsx:143) are `toFixed`/`Math.round` text over a possibly zero budget, and are not modelled.
- `setMonthlyBudgetSupabase` is not part of this model; its result is the `saveResult` parameter.
- `exportCSV` and the jsPDF drawing are left out; only the PDF rows are modelled.
- The insights route, the charts, the navigation components and the other context files are left out.
- The style lookups take any category text, so that their default branch is visible; a transaction's category is one of the four.

## Findings

| source | as written | input that shows it | evidently intended | confidence | as-written member | corrected member |
|---|---|---|---|---|---|---|
| components/EditWeeklyGoalModal.tsx:35-45 | `tempTaskIdCounter` is declared with `let` in the component body, so every render resets it to −1 | add a task, let the component re-render, add another: both new tasks have id −1, and typing into one renames both | each added task gets its own unused temporary id | not executed | EditWeeklyGoalModal.AddTwiceAcrossRenders | EditWeeklyGoalModal.FreshTempIdKeepsIdsDistinct |
