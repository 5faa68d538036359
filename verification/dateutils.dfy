/**
 * lbutils/dateutils.py: the month and year choice lists of the date
 * selectors, and the two-digit month rendering. The current year, which the
 * code reads from the clock, is a parameter.
 */
module DateUtils {
  import opened Strings
  import opened Python

  /** A `(value, label)` pair of a choice list. */
  type Choice = (Value, Value)

  /** The month keys, as the code lists them. */
  const Months: seq<string> :=
    ["01", "02", "03", "04", "05", "06", "07", "08", "09", "10", "11", "12"]

  const DefaultMonthBlank: Value := Str("------")
  const DefaultStartYear: int := -5
  const DefaultEndYear: int := 2
  const DefaultYearBlank: Value := Str("")

  // ----- fmt_month (dateutils.py:30-33) -----

  /** `fmt_month(month)`: a falsy month as it is, anything else as text padded
      with zeros to two characters. */
  function FmtMonth(month: Value): (r: Value)
    ensures !Truthy(month) ==> r == month
    ensures Truthy(month) ==> r.Str? && |r.s| == if |ToStr(month)| >= 2 then |ToStr(month)| else 2
    ensures Truthy(month) && |ToStr(month)| >= 2 ==> r == Str(ToStr(month))
    ensures Truthy(month) && IsDigits(ToStr(month)) ==>
              IsDigits(r.s) && EndsWith(r.s, ToStr(month))
              && forall i :: 0 <= i < |r.s| - |ToStr(month)| ==> r.s[i] == '0'
  {
    if !Truthy(month) then month else Str(ZFill(ToStr(month), 2))
  }

  /** The examples of the test suite. */
  lemma FmtMonthExamples()
    ensures FmtMonth(Str("1")) == Str("01")
    ensures FmtMonth(Str("12")) == Str("12")
    ensures FmtMonth(Str("")) == Str("")
    ensures FmtMonth(NoneVal) == NoneVal
  {
    assert ZFill("1", 2) == Zeros(1) + "1";
  }

  /** Formatting a formatted month changes nothing. */
  lemma FmtMonthIdempotent(month: Value)
    ensures FmtMonth(FmtMonth(month)) == FmtMonth(month)
  {
  }

  /** The key of month `m`, digit by digit. */
  lemma MonthKey(m: int)
    requires 1 <= m <= 12
    ensures Months[m - 1] == if m < 10 then ['0', DigitChar(m)] else ['1', DigitChar(m - 10)]
  {
    if m < 4 {
    } else if m < 7 {
    } else if m < 10 {
    } else {
    }
  }

  /** The text of a one- or two-digit number. */
  lemma SmallNumberText(m: int)
    requires 0 <= m < 20
    ensures ToStr(Int(m)) == if m < 10 then [DigitChar(m)] else ['1', DigitChar(m - 10)]
  {
    if m >= 10 {
      assert m / 10 == 1 && m % 10 == m - 10;
      assert NatToString(1) == ['1'];
    }
  }

  /** Month `m`, as a number, formats to the `m`-th key of the list. */
  lemma MonthPadded(m: int)
    requires 1 <= m <= 12
    ensures FmtMonth(Int(m)) == Str(Months[m - 1])
  {
    MonthKey(m);
    SmallNumberText(m);
    if m < 10 {
      assert ZFill([DigitChar(m)], 2) == Zeros(1) + [DigitChar(m)];
    }
  }

  // ----- get_month_choices (dateutils.py:7-24) -----

  /** The month choices: each key is its own label, optionally after a blank
      entry carrying the label given. */
  function MonthChoices(blankLabel: Value): (r: seq<Choice>)
    ensures |r| == if Truthy(blankLabel) then 13 else 12
    ensures Truthy(blankLabel) ==> r[0] == (Str(""), blankLabel)
    ensures var months := if Truthy(blankLabel) then r[1..] else r;
      forall i :: 0 <= i < 12 ==> months[i] == (Str(Months[i]), Str(Months[i]))
  {
    var months := seq(12, i requires 0 <= i < 12 => (Str(Months[i]), Str(Months[i])));
    if Truthy(blankLabel) then [(Str(""), blankLabel)] + months else months
  }

  method GetMonthChoices(blankLabel: Value) returns (choices: seq<Choice>)
    ensures choices == MonthChoices(blankLabel)
  {
    choices := [
      (Str("01"), Str("01")),
      (Str("02"), Str("02")),
      (Str("03"), Str("03")),
      (Str("04"), Str("04")),
      (Str("05"), Str("05")),
      (Str("06"), Str("06")),
      (Str("07"), Str("07")),
      (Str("08"), Str("08")),
      (Str("09"), Str("09")),
      (Str("10"), Str("10")),
      (Str("11"), Str("11")),
      (Str("12"), Str("12"))
    ];
    if Truthy(blankLabel) {
      choices := [(Str(""), blankLabel)] + choices;
    }
  }

  /** `MONTH_CHOICES`, built with no blank label, and the default list with
      the `------` entry in front of the same twelve months. */
  lemma MonthChoicesConstants()
    ensures MonthChoices(NoneVal) == MonthChoices(Str(""))
    ensures |MonthChoices(NoneVal)| == 12
    ensures MonthChoices(DefaultMonthBlank) == [(Str(""), DefaultMonthBlank)] + MonthChoices(NoneVal)
  {
  }

  // ----- get_year_choices (dateutils.py:36-42) -----

  /** The year choices around `year`: the consecutive years from
      `year + startYear` up to but not including `year + endYear`, each its own
      label, optionally after a blank entry. */
  function YearChoices(startYear: int, endYear: int, blankLabel: Value, year: int): (r: seq<Choice>)
    ensures var n := if endYear > startYear then endYear - startYear else 0;
      var off := if Truthy(blankLabel) then 1 else 0;
      && |r| == off + n
      && (Truthy(blankLabel) ==> r[0] == (Str(""), blankLabel))
      && forall i :: off <= i < |r| ==> r[i] == (Int(year + startYear + i - off), Int(year + startYear + i - off))
  {
    var n := if endYear > startYear then endYear - startYear else 0;
    var years := seq(n, i requires 0 <= i < n => (Int(year + startYear + i), Int(year + startYear + i)));
    if Truthy(blankLabel) then [(Str(""), blankLabel)] + years else years
  }

  method GetYearChoices(startYear: int, endYear: int, blankLabel: Value, year: int)
    returns (choices: seq<Choice>)
    ensures choices == YearChoices(startYear, endYear, blankLabel, year)
  {
    var first := year + startYear;
    var n := if year + endYear > first then year + endYear - first else 0;
    choices := seq(n, i requires 0 <= i < n => (Int(first + i), Int(first + i)));
    if Truthy(blankLabel) {
      choices := [(Str(""), blankLabel)] + choices;
    }
  }

  /** Each year of the list is one more than the year before it. */
  lemma YearChoicesConsecutive(startYear: int, endYear: int, blankLabel: Value, year: int)
    ensures var r := YearChoices(startYear, endYear, blankLabel, year);
      var off := if Truthy(blankLabel) then 1 else 0;
      forall i :: off <= i < |r| - 1 ==> r[i + 1].0 == Int(r[i].0.i + 1)
  {
  }

  /** An empty or reversed range lists no year, leaving only a blank entry
      when the label is truthy. */
  lemma YearChoicesEmpty(startYear: int, endYear: int, blankLabel: Value, year: int)
    requires endYear <= startYear
    ensures YearChoices(startYear, endYear, blankLabel, year) ==
              if Truthy(blankLabel) then [(Str(""), blankLabel)] else []
  {
  }

  /** With the defaults, the list is the seven years from five years back to
      next year and its first key is a year (truthy for any year past 5); with
      the label `------` the first key is the blank `''`. */
  lemma YearChoicesDefaults(year: int)
    requires year > 5
    ensures var r := YearChoices(DefaultStartYear, DefaultEndYear, DefaultYearBlank, year);
      |r| == 7 && r[0] == (Int(year - 5), Int(year - 5)) && r[6] == (Int(year + 1), Int(year + 1))
      && Truthy(r[0].0)
    ensures var r := YearChoices(DefaultStartYear, DefaultEndYear, Str("------"), year);
      |r| == 8 && r[0].0 == Str("") && !Truthy(r[0].0)
  {
  }
}
