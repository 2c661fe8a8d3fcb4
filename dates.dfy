/**
 * The date placeholders of the invoice script: `:MONTH`, `:QUARTER` and
 * `:YEAR` with an optional offset, rendered as the German month name, the
 * quarter label `Q1`..`Q4`, or the year.  The clock is not read here: the
 * current month (as `Date.getMonth` gives it, 0 for January) and year are
 * parameters.
 */
module Dates {
  import opened Wrappers
  import opened Text

  /** A month as `Date.getMonth` returns it. */
  type Month = m: int | 0 <= m < 12

  const MonthNames: seq<string> := ["Januar", "Februar", "März", "April", "Mai", "Juni",
    "Juli", "August", "September", "Oktober", "November", "Dezember"]

  /** `Math.trunc(a / n)`: the quotient rounded toward zero. */
  function TruncDiv(a: int, n: int): int
    requires n > 0
  {
    if a >= 0 then a / n else -((-a) / n)
  }

  /**
   * JavaScript's `%`: the remainder of the quotient truncated toward zero, so
   * it takes the sign of the dividend.
   */
  function JsRem(a: int, n: int): (r: int)
    requires n > 0
    ensures a == n * TruncDiv(a, n) + r
    ensures -n < r < n
    ensures a >= 0 ==> 0 <= r
    ensures a <= 0 ==> r <= 0
  {
    if a >= 0 then a % n else -((-a) % n)
  }

  // --------------------------------------------------------------- month

  /** The index `getMonth` reads the name at: the shifted month, wrapped into 0..11. */
  function MonthIndex(month: Month, offset: int): (r: Month)
    ensures r == (month + offset) % 12
  {
    var m := JsRem(month + offset, 12);
    if m < 0 then m + 12 else m
  }

  /** `getMonth`: the German name of the month `offset` months from the current one. */
  function GetMonth(month: Month, offset: int): (r: string)
    ensures r in MonthNames
  {
    MonthNames[MonthIndex(month, offset)]
  }

  /** No offset names the current month, and twelve months on is the same name. */
  lemma GetMonthCycle(month: Month, offset: int)
    ensures GetMonth(month, 0) == MonthNames[month]
    ensures GetMonth(month, offset + 12) == GetMonth(month, offset)
  {
    ShiftedRemainder(0, month);
    assert MonthIndex(month, 0) == month;
    var k, x := (month + offset) / 12, (month + offset) % 12;
    assert month + offset + 12 == 12 * (k + 1) + x;
    ShiftedRemainder(k + 1, x);
    assert MonthIndex(month, offset + 12) == MonthIndex(month, offset);
  }

  // ------------------------------------------------------------- quarter

  /** `Math.floor((getMonth() + 3) / 3)`: the quarter the month lies in. */
  function QuarterOf(month: Month): (q: int)
    ensures 1 <= q <= 4
    ensures 3 * (q - 1) <= month < 3 * q
  {
    (month + 3) / 3
  }

  /** The number `getQuarter` puts after the `Q`, as the source computes it. */
  function QuarterNumberAsWritten(month: Month, offset: int): int
  {
    var q := JsRem(QuarterOf(month) + offset, 4);
    if q == 0 then 4 else q
  }

  /** `getQuarter` as written. */
  function GetQuarterAsWritten(month: Month, offset: int): string
  {
    "Q" + IntText(QuarterNumberAsWritten(month, offset))
  }

  /**
   * The source's rule is right for offsets that keep the sum non-negative,
   * and a quarter in 1..4 comes out in exactly those cases or when the sum
   * is a multiple of four.
   */
  lemma QuarterAsWrittenAgrees(month: Month, offset: int)
    ensures QuarterOf(month) + offset >= 0 ==> QuarterNumberAsWritten(month, offset) == QuarterNumber(month, offset)
    ensures 1 <= QuarterNumberAsWritten(month, offset) <= 4 <==>
      QuarterOf(month) + offset >= 0 || (QuarterOf(month) + offset) % 4 == 0
  {
  }

  /** In January, two quarters back is rendered `Q-1`, not `Q3`. */
  lemma QuarterAsWrittenNegative()
    ensures GetQuarterAsWritten(0, -2) == "Q-1"
    ensures GetQuarter(0, -2) == "Q3"
  {
    assert QuarterNumberAsWritten(0, -2) == -1;
    assert IntText(-1) == "-" + Digits(1) == "-1";
    QuarterLabels(3);
  }

  /** The quarter `offset` quarters from the current one, wrapped into 1..4. */
  function QuarterNumber(month: Month, offset: int): (q: int)
    ensures 1 <= q <= 4
    ensures (q - QuarterOf(month) - offset) % 4 == 0
  {
    (QuarterOf(month) - 1 + offset) % 4 + 1
  }

  /** `getQuarter`, with the wrap-around taken modulo four for negative offsets too. */
  function GetQuarter(month: Month, offset: int): (r: string)
    ensures r in ["Q1", "Q2", "Q3", "Q4"]
  {
    var q := QuarterNumber(month, offset);
    QuarterLabels(q);
    "Q" + IntText(q)
  }

  /** The labels of the four quarters. */
  lemma QuarterLabels(q: int)
    requires 1 <= q <= 4
    ensures "Q" + IntText(q) in ["Q1", "Q2", "Q3", "Q4"]
  {
    assert IntText(q) == Digits(q) == [DigitChar(q)];
    if q == 1 {
      assert "Q" + IntText(q) == "Q1";
    } else if q == 2 {
      assert "Q" + IntText(q) == "Q2";
    } else if q == 3 {
      assert "Q" + IntText(q) == "Q3";
    } else {
      assert "Q" + IntText(q) == "Q4";
    }
  }

  /** The quarter `offset` quarters on is the quarter of the month `3 * offset` months on. */
  lemma QuarterOfShiftedMonth(month: Month, offset: int)
    ensures QuarterNumber(month, offset) == QuarterOf(MonthIndex(month, 3 * offset))
  {
    var q := QuarterOf(month);
    var d := month - 3 * (q - 1);
    var t := q - 1 + offset;
    var k, r := t / 4, t % 4;
    assert t == 4 * k + r;
    assert month + 3 * offset == 12 * k + (3 * r + d);
    ShiftedRemainder(k, 3 * r + d);
    assert MonthIndex(month, 3 * offset) == 3 * r + d;
  }

  lemma ShiftedRemainder(k: int, x: int)
    requires 0 <= x < 12
    ensures (12 * k + x) % 12 == x
  {
  }

  // ------------------------------------------------------------ dispatch

  /** What `getDatePart` returns: a string, a number, or `undefined` for a part it does not know. */
  datatype DatePart = PartText(text: string) | PartNumber(number: int) | Undefined

  /** `parseInt(offset)` then `if (!offset) offset = 0`: a missing or unparsable offset counts as none. */
  function OffsetValue(offset: Option<int>): int
  {
    if offset.Some? then offset.value else 0
  }

  /** `getDatePart`, given the current month and year. */
  function GetDatePart(part: string, offset: Option<int>, month: Month, year: int): (r: DatePart)
    ensures r.Undefined? <==> part !in {"MONTH", "QUARTER", "YEAR"}
    ensures part == "MONTH" ==> r.PartText? && r.text in MonthNames
    ensures part == "QUARTER" ==> r.PartText? && r.text in ["Q1", "Q2", "Q3", "Q4"]
    ensures part == "YEAR" ==> r == PartNumber(year + OffsetValue(offset))
  {
    var o := OffsetValue(offset);
    if part == "MONTH" then PartText(GetMonth(month, o))
    else if part == "QUARTER" then PartText(GetQuarter(month, o))
    else if part == "YEAR" then PartNumber(year + o)
    else Undefined
  }

  /** Without an offset every part names the current period. */
  lemma DatePartToday(month: Month, year: int)
    ensures GetDatePart("MONTH", None, month, year) == PartText(MonthNames[month])
    ensures GetDatePart("QUARTER", None, month, year) == GetDatePart("QUARTER", Some(0), month, year)
    ensures GetDatePart("YEAR", None, month, year) == PartNumber(year)
  {
    GetMonthCycle(month, 0);
  }
}
