/**
 * The Russian plural forms the bot prints after a number of days or months:
 * the word agreeing with 1, with 2..4 and with 5..20, numbers above 20
 * reduced to their last digit first.
 */
module VerboseNumbers {

  const Day1: string := "день"
  const Day2: string := "дня"
  const Day5: string := "дней"

  const Month1: string := "месяц"
  const Month2: string := "месяца"
  const Month5: string := "месяцев"

  /** Numbers above 20 are replaced by their last digit, others are kept as they are. */
  function Reduce(n: int): (r: int)
    ensures n > 20 ==> 0 <= r <= 9 && r == n % 10
    ensures n <= 20 ==> r == n
  {
    if n > 20 then n % 10 else n
  }

  /** The word chosen among the three forms, once the number is reduced. */
  function PluralForm(n: int, one: string, few: string, many: string): (w: string)
  {
    var r := Reduce(n);
    if r == 1 then one
    else if r <= 4 then few
    else many
  }

  /** `days_verbose`. */
  function DaysVerbose(days: int): (w: string)
    ensures w == Day1 || w == Day2 || w == Day5
  {
    PluralForm(days, Day1, Day2, Day5)
  }

  /** `month_verbose` of the helpers module. */
  function MonthVerbose(month: int): (w: string)
    ensures w == Month1 || w == Month2 || w == Month5
  {
    PluralForm(month, Month1, Month2, Month5)
  }

  /** Up to 20 the form depends on the number itself: 1, at most 4 (zero and negatives included), 5..20. */
  lemma DaysUpToTwenty(d: int)
    requires d <= 20
    ensures d == 1 <==> DaysVerbose(d) == Day1
    ensures (d != 1 && d <= 4) <==> DaysVerbose(d) == Day2
    ensures 5 <= d <= 20 <==> DaysVerbose(d) == Day5
  {
  }

  /** Above 20 only the last digit counts. */
  lemma DaysAboveTwenty(d: int)
    requires d > 20
    ensures DaysVerbose(d) == DaysVerbose(d % 10)
    ensures DaysVerbose(d) == Day1 <==> d % 10 == 1
    ensures DaysVerbose(d) == Day2 <==> d % 10 != 1 && d % 10 <= 4
  {
  }

  lemma DaysExamples()
    ensures DaysVerbose(1) == Day1 && DaysVerbose(21) == Day1 && DaysVerbose(31) == Day1
    ensures DaysVerbose(0) == Day2 && DaysVerbose(30) == Day2 && DaysVerbose(-3) == Day2
    ensures DaysVerbose(11) == Day5 && DaysVerbose(25) == Day5
  {
  }

  /** Months follow the same table as days, word for word. */
  lemma MonthSameTable(n: int)
    ensures MonthVerbose(n) == Month1 <==> DaysVerbose(n) == Day1
    ensures MonthVerbose(n) == Month2 <==> DaysVerbose(n) == Day2
    ensures MonthVerbose(n) == Month5 <==> DaysVerbose(n) == Day5
  {
  }

  /** `month_verbose` of the buying handler: no reduction above 20, so only 1 takes the singular. */
  function BuyMonthVerbose(month: int): (w: string)
    ensures month == 1 <==> w == Month1
    ensures month != 1 && month <= 4 <==> w == Month2
    ensures month > 4 <==> w == Month5
  {
    if month == 1 then Month1
    else if month <= 4 then Month2
    else Month5
  }

  /** The two month words agree up to 20 and part at 21, where the buying handler says "месяцев". */
  lemma BuyMonthDiffers(n: int)
    ensures n <= 20 ==> BuyMonthVerbose(n) == MonthVerbose(n)
    ensures BuyMonthVerbose(21) == Month5 && MonthVerbose(21) == Month1
  {
  }
}
