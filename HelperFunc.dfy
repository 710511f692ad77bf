/**
 * The finance helpers (utils/HelperFunc.ts): per-category sums, the balance
 * formula, currency and date formatting, the style lookups and the rows of
 * the PDF transaction table.  Amounts are integers; the calendar fields that
 * `new Date(dateString)` would produce arrive as a parameter.
 */
module HelperFunc {
  import opened Base
  import JsText

  datatype Category = Income | Spending | Saving | Investing

  /** Lines 5-11.  `notes` is None when the stored value is null or missing. */
  datatype Transaction = Transaction(date: string, source: string, category: Category, amount: int, notes: Option<string>)

  function CategoryName(c: Category): string {
    match c
    case Income => "Income"
    case Spending => "Spending"
    case Saving => "Saving"
    case Investing => "Investing"
  }

  lemma CategoryNameInjective(a: Category, b: Category)
    ensures CategoryName(a) == CategoryName(b) ==> a == b
  {
    assert "Saving"[1] != "Spending"[1];
  }

  /** The sum of every amount, regardless of category. */
  function TotalAmount(ts: seq<Transaction>): int {
    if ts == [] then 0 else ts[0].amount + TotalAmount(ts[1..])
  }

  /**
   * Lines 93-99: the amounts of the transactions whose category is named
   * `category`, added up; with non-negative amounts it lies between 0 and the
   * sum of all amounts.
   */
  function SumByCategory(ts: seq<Transaction>, category: string): (r: int)
    ensures (forall k :: 0 <= k < |ts| ==> ts[k].amount >= 0) ==> 0 <= r <= TotalAmount(ts)
  {
    if ts == [] then 0
    else (if CategoryName(ts[0].category) == category then ts[0].amount else 0) + SumByCategory(ts[1..], category)
  }

  /** An empty list, or a category no transaction carries, sums to 0. */
  lemma {:induction false} SumAbsent(ts: seq<Transaction>, category: string)
    requires forall k :: 0 <= k < |ts| ==> CategoryName(ts[k].category) != category
    ensures SumByCategory(ts, category) == 0
  {
    if ts != [] {
      SumAbsent(ts[1..], category);
    }
  }

  lemma {:induction false} SumByCategoryAppend(a: seq<Transaction>, b: seq<Transaction>, category: string)
    ensures SumByCategory(a + b, category) == SumByCategory(a, category) + SumByCategory(b, category)
  {
    if a == [] {
      assert a + b == b;
    } else {
      assert (a + b)[1..] == a[1..] + b;
      SumByCategoryAppend(a[1..], b, category);
    }
  }

  /** The four category sums together account for every amount. */
  lemma {:induction false} CategorySumsPartition(ts: seq<Transaction>)
    ensures SumByCategory(ts, "Income") + SumByCategory(ts, "Spending") + SumByCategory(ts, "Saving")
          + SumByCategory(ts, "Investing") == TotalAmount(ts)
  {
    if ts != [] {
      CategorySumsPartition(ts[1..]);
    }
  }

  /** Lines 101-106. */
  function TotalBalance(income: int, spendings: int, savings: int, investing: int): int {
    income - spendings + savings + investing
  }

  /** Every amount counted with a sign: spending subtracts, the other three categories add. */
  function SignedTotal(ts: seq<Transaction>): int {
    if ts == [] then 0
    else (if ts[0].category == Spending then -ts[0].amount else ts[0].amount) + SignedTotal(ts[1..])
  }

  /** The balance of the four category sums is the signed total: savings and investing are added, not subtracted. */
  lemma {:induction false} TotalBalanceIsSignedTotal(ts: seq<Transaction>)
    ensures TotalBalance(SumByCategory(ts, "Income"), SumByCategory(ts, "Spending"),
                         SumByCategory(ts, "Saving"), SumByCategory(ts, "Investing")) == SignedTotal(ts)
  {
    if ts != [] {
      TotalBalanceIsSignedTotal(ts[1..]);
    }
  }

  /** Lines 46-48: a dollar sign followed by text that reads back as the amount. */
  function FormatCurrency(amount: int): (r: string)
    ensures |r| >= 2 && r[0] == '$'
    ensures JsText.ParseInt(r[1..]) == Some(amount)
  {
    var digits := JsText.IntToString(amount);
    JsText.IntToStringRoundTrip(amount);
    assert ("$" + digits)[1..] == digits;
    "$" + digits
  }

  /** What `getFullYear`, `getMonth` and `getDate` give for a valid date. */
  datatype CalendarFields = CalendarFields(year: int, monthIndex: int, day: int)

  predicate ValidFields(f: CalendarFields) {
    0 <= f.monthIndex <= 11 && 1 <= f.day <= 31
  }

  /** `String(n).padStart(2, "0")`. */
  function Pad2(n: int): string {
    JsText.PadStart(JsText.IntToString(n), 2, '0')
  }

  lemma Pad2Reads(n: int)
    requires 0 <= n < 100
    ensures |Pad2(n)| == 2 && JsText.AllDigits(Pad2(n)) && JsText.DigitsValue(Pad2(n)) == n
  {
    var s := JsText.NatToString(n);
    JsText.NatToStringRoundTrip(n);
    if n < 10 {
      var p := Pad2(n);
      assert p == ['0'] + s;
      assert p[..1] == "0";
    } else {
      assert s == JsText.NatToString(n / 10) + [JsText.DigitChar(n % 10)];
    }
  }

  /**
   * Lines 51-58: "" for an empty string; otherwise year, month (1-based) and
   * day joined by dashes, month and day padded to two digits.  When `new
   * Date` cannot read the string (`parsed` is None) every field prints as NaN.
   */
  function FormatDate(dateString: string, parsed: Option<CalendarFields>): (r: string)
    ensures dateString == "" <==> r == ""
    ensures dateString != "" && parsed.None? ==> r == "NaN-NaN-NaN"
  {
    if dateString == "" then ""
    else match parsed
      case None => "NaN-NaN-NaN"
      case Some(f) => JsText.IntToString(f.year) + "-" + Pad2(f.monthIndex + 1) + "-" + Pad2(f.day)
  }

  /** Reads `year-mm-dd` text back: the year before the last six characters, then two-digit month and day. */
  function ParseDateText(s: string): Option<(int, int, int)> {
    if |s| >= 7 && s[|s| - 6] == '-' && s[|s| - 3] == '-' then
      match (JsText.ParseInt(s[..|s| - 6]), JsText.ParseInt(s[|s| - 5..|s| - 3]), JsText.ParseInt(s[|s| - 2..]))
      case (Some(y), Some(m), Some(d)) => Some((y, m, d))
      case _ => None
    else None
  }

  lemma ParseTwoDigits(s: string)
    requires |s| == 2 && JsText.AllDigits(s)
    ensures JsText.ParseInt(s) == Some(JsText.DigitsValue(s) as int)
  {
    assert JsText.IsDigit(s[0]);
  }

  /** A valid date prints as year-mm-dd, which reads back as the year, the 1-based month and the day. */
  lemma FormatDateReadsBack(dateString: string, f: CalendarFields)
    requires dateString != "" && ValidFields(f)
    ensures ParseDateText(FormatDate(dateString, Some(f))) == Some((f.year, f.monthIndex + 1, f.day))
  {
    var y, mm, dd := JsText.IntToString(f.year), Pad2(f.monthIndex + 1), Pad2(f.day);
    Pad2Reads(f.monthIndex + 1);
    Pad2Reads(f.day);
    ParseTwoDigits(mm);
    ParseTwoDigits(dd);
    JsText.IntToStringRoundTrip(f.year);
    assert FormatDate(dateString, Some(f)) == y + "-" + mm + "-" + dd;
    ParseJoined(y, mm, dd);
  }

  lemma ParseJoined(y: string, mm: string, dd: string)
    requires |y| >= 1 && |mm| == 2 && |dd| == 2
    requires JsText.ParseInt(y).Some? && JsText.ParseInt(mm).Some? && JsText.ParseInt(dd).Some?
    ensures ParseDateText(y + "-" + mm + "-" + dd)
         == Some((JsText.ParseInt(y).value, JsText.ParseInt(mm).value, JsText.ParseInt(dd).value))
  {
    DashJoin(y, mm, dd);
  }

  /** Where the parts of `y-mm-dd` sit, for two-character `mm` and `dd`. */
  lemma DashJoin(y: string, mm: string, dd: string)
    requires |y| >= 1 && |mm| == 2 && |dd| == 2
    ensures var r := y + "-" + mm + "-" + dd;
      && |r| == |y| + 6 && r[|r| - 6] == '-' && r[|r| - 3] == '-'
      && r[..|r| - 6] == y && r[|r| - 5..|r| - 3] == mm && r[|r| - 2..] == dd
  {
  }

  const BaseStyles: string := "px-3 py-1 rounded-full text-sm font-medium"

  /** The Tailwind colour of a category's badge; anything unknown is gray. */
  function Hue(category: string): (h: string)
    ensures |h| >= 3
  {
    if category == "Income" then "green"
    else if category == "Spending" then "red"
    else if category == "Saving" then "blue"
    else if category == "Investing" then "yellow"
    else "gray"
  }

  /** The background and text shade classes of a colour. */
  function Shade(h: string): (s: string)
    ensures |h| >= 3 ==> |s| >= 7 && s[4..7] == h[..3]
  {
    " bg-" + h + "-100 text-" + h + "-800"
  }

  /**
   * Lines 61-76, for any category text: the base classes, then the -100
   * background and -800 text shade of the category's colour.  The four
   * categories get green, red, blue and yellow, anything else gray.
   */
  function CategoryStyles(category: string): (s: string)
    ensures category == "Income" ==> s == BaseStyles + Shade("green")
    ensures category == "Spending" ==> s == BaseStyles + Shade("red")
    ensures category == "Saving" ==> s == BaseStyles + Shade("blue")
    ensures category == "Investing" ==> s == BaseStyles + Shade("yellow")
    ensures category !in ["Income", "Spending", "Saving", "Investing"] ==> s == BaseStyles + Shade("gray")
  {
    BaseStyles + Shade(Hue(category))
  }

  lemma PrefixCancel(p: string, x: string, y: string)
    requires p + x == p + y
    ensures x == y
  {
    assert x == (p + x)[|p|..];
    assert y == (p + y)[|p|..];
  }

  /** The first three letters of each category's colour. */
  lemma HueOfCategory(c: Category)
    ensures Hue(CategoryName(c))[..3] == match c
      case Income => "gre" case Spending => "red" case Saving => "blu" case Investing => "yel"
  {
    match c {
      case Income =>
      case Spending => assert "Spending" != "Income";
      case Saving => assert "Saving"[0] != "Income"[0] && "Saving" != "Spending";
      case Investing => assert "Investing" != "Income" && "Investing" != "Spending" && "Investing" != "Saving";
    }
  }

  /** The four categories get four distinct styles, and none of them is the gray default. */
  lemma CategoryStylesDistinct(a: Category, b: Category)
    ensures CategoryStyles(CategoryName(a)) == CategoryStyles(CategoryName(b)) ==> a == b
    ensures CategoryStyles(CategoryName(a)) != CategoryStyles("")
  {
    var ha, hb := Hue(CategoryName(a)), Hue(CategoryName(b));
    HueOfCategory(a);
    HueOfCategory(b);
    assert Shade(Hue(""))[4..7] == "gra";
    if CategoryStyles(CategoryName(a)) == CategoryStyles(CategoryName(b)) {
      PrefixCancel(BaseStyles, Shade(ha), Shade(hb));
      assert ha[..3] == hb[..3];
    }
    if CategoryStyles(CategoryName(a)) == CategoryStyles("") {
      PrefixCancel(BaseStyles, Shade(ha), Shade(Hue("")));
    }
  }

  const GreenAmount: string := "text-green-600 font-semibold"
  const RedAmount: string := "text-red-600 font-semibold"

  /** Lines 79-91: red exactly for "Spending", green exactly for the three other categories, gray for anything else. */
  function AmountStyles(category: string): (r: string)
    ensures r == RedAmount <==> category == "Spending"
    ensures r == GreenAmount <==> category == "Income" || category == "Saving" || category == "Investing"
    ensures r != RedAmount && r != GreenAmount ==> r == "text-gray-900 font-semibold"
  {
    assert GreenAmount[5] != RedAmount[5] && "text-gray-900 font-semibold"[5] != RedAmount[5];
    assert "text-gray-900 font-semibold"[7] != GreenAmount[7];
    if category == "Income" || category == "Saving" || category == "Investing" then GreenAmount
    else if category == "Spending" then RedAmount
    else "text-gray-900 font-semibold"
  }

  /** Spending is shown red, every other category green. */
  lemma AmountStylesRedIffSpending(c: Category)
    ensures AmountStyles(CategoryName(c)) == RedAmount <==> c == Spending
    ensures AmountStyles(CategoryName(c)) == GreenAmount <==> c != Spending
  {
    assert GreenAmount[5] != RedAmount[5];
  }

  /** Line 138. */
  const TableColumns: seq<string> := ["Date", "Source", "Category", "Amount", "Notes"]

  /**
   * Lines 142-148: one table row with a cell per column: date, source,
   * category, the amount as currency, and the notes or "" when missing.
   */
  function RowOf(t: Transaction): (row: seq<string>)
    ensures |row| == |TableColumns|
    ensures row[0] == t.date && row[1] == t.source && row[2] == CategoryName(t.category)
    ensures |row[3]| >= 2 && row[3][0] == '$' && JsText.ParseInt(row[3][1..]) == Some(t.amount)
    ensures row[4] == t.notes.GetOr("")
  {
    [t.date, t.source, CategoryName(t.category), FormatCurrency(t.amount), t.notes.GetOr("")]
  }

  /** Lines 139-149: the rows pushed one per transaction, in input order. */
  method BuildTableRows(ts: seq<Transaction>) returns (rows: seq<seq<string>>)
    ensures |rows| == |ts|
    ensures forall i :: 0 <= i < |ts| ==> rows[i] == RowOf(ts[i])
  {
    rows := [];
    var i := 0;
    while i < |ts|
      invariant 0 <= i <= |ts|
      invariant |rows| == i
      invariant forall k :: 0 <= k < i ==> rows[k] == RowOf(ts[k])
    {
      var row := RowOf(ts[i]);
      var prev := rows;
      rows := prev + [row];
      assert forall k :: 0 <= k < i ==> rows[k] == prev[k];
      i := i + 1;
    }
  }
}
