/**
 * `getTodayDate`, written out identically in the nutrition-history and the
 * water-history routes: today's local date as `year-MM-DD`, the `full-date`
 * form of section 5.6 of RFC 3339 when the year has four digits.
 */
module Dates {
  import opened Wrappers
  import opened Decimal

  /** The local calendar fields of `new Date()`: `getFullYear()`, `getMonth()` (0-based) and `getDate()`. */
  datatype LocalNow = LocalNow(fullYear: int, monthIndex: int, dayOfMonth: int)

  predicate ValidNow(now: LocalNow) {
    0 <= now.monthIndex < 12 && 1 <= now.dayOfMonth <= 31
  }

  /** The two decimal digits of a number below 100, the first possibly zero. */
  function TwoDigits(n: nat): string
    requires n < 100
  {
    [DigitChar(n / 10), DigitChar(n % 10)]
  }

  lemma TwoDigitsParse(n: nat)
    requires n < 100
    ensures AllDigits(TwoDigits(n)) && ParseDigits(TwoDigits(n)) == n
  {
    var t := TwoDigits(n);
    assert t[..1] == [DigitChar(n / 10)];
    assert [DigitChar(n / 10)][..0] == [];
    assert ParseDigits(t[..1]) == n / 10;
    assert ParseDigits(t) == 10 * (n / 10) + n % 10;
  }

  /** The source's padding rule gives the two-digit rendering. */
  lemma PaddedRendering(n: nat)
    requires 1 <= n < 100
    ensures AllDigits(NatToString(n)) && (ParseDigits(NatToString(n)) < 10 <==> n < 10)
    ensures n < 10 ==> "0" + NatToString(n) == TwoDigits(n)
    ensures 10 <= n ==> NatToString(n) == TwoDigits(n)
  {
    ParseNatToString(n);
    NatToStringSmall(n);
  }

  /** A date rendered as year, month and day separated by `-`, month and day on two digits each. */
  function FullDate(year: int, month: nat, day: nat): string
    requires month < 100 && day < 100
  {
    IntToString(year) + "-" + TwoDigits(month) + "-" + TwoDigits(day)
  }

  /**
   * getTodayDate: renders month and day with `String`, prefixes a `0` when
   * `parseInt` of the rendering is below 10, and joins them to the unpadded year.
   */
  method GetTodayDate(now: LocalNow) returns (today: string)
    requires ValidNow(now)
    ensures today == FullDate(now.fullYear, now.monthIndex + 1, now.dayOfMonth)
  {
    PaddedRendering(now.monthIndex + 1);
    PaddedRendering(now.dayOfMonth);
    var month := NatToString(now.monthIndex + 1);
    var date := NatToString(now.dayOfMonth);
    if ParseDigits(month) < 10 {
      month := "0" + month;
    }
    if ParseDigits(date) < 10 {
      date := "0" + date;
    }
    today := IntToString(now.fullYear) + "-" + month + "-" + date;
  }

  /**
   * `searchParams.get('date') || getTodayDate()`: a non-empty parameter is
   * used verbatim; a missing or empty one falls back to today's date, which is
   * only computed then.
   */
  method DateOrToday(param: Option<string>, now: LocalNow) returns (date: string)
    requires ValidNow(now)
    ensures param.Some? && param.value != "" ==> date == param.value
    ensures param.None? || param.value == "" ==>
      date == FullDate(now.fullYear, now.monthIndex + 1, now.dayOfMonth)
  {
    if param.Some? && param.value != "" {
      date := param.value;
    } else {
      date := GetTodayDate(now);
    }
  }

  /** The shape of an RFC 3339 `full-date`: `YYYY-MM-DD`, ten characters. */
  predicate IsFullDateShape(s: string) {
    && |s| == 10
    && AllDigits(s[..4]) && s[4] == '-'
    && AllDigits(s[5..7]) && s[7] == '-'
    && AllDigits(s[8..])
  }

  /** Reads year, month and day back from a string of `full-date` shape. */
  function ParseFullDate(s: string): Option<(nat, nat, nat)>
  {
    if IsFullDateShape(s) then Some((ParseDigits(s[..4]), ParseDigits(s[5..7]), ParseDigits(s[8..])))
    else None
  }

  lemma FourDigitYear(year: int)
    requires 1000 <= year <= 9999
    ensures |IntToString(year)| == 4 && AllDigits(IntToString(year))
    ensures ParseDigits(IntToString(year)) == year
  {
    ParseNatToString(year);
    assert NatToString(year) == NatToString(year / 10) + [DigitChar(year % 10)];
    assert NatToString(year / 10) == NatToString(year / 100) + [DigitChar(year / 10 % 10)];
    NatToStringSmall(year / 100);
  }

  /**
   * For a four-digit year, today's date has the RFC 3339 `full-date` shape and
   * parses back to the year, month and day it was made from.
   */
  lemma FullDateRoundTrip(year: int, month: nat, day: nat)
    requires 1000 <= year <= 9999 && 1 <= month <= 12 && 1 <= day <= 31
    ensures IsFullDateShape(FullDate(year, month, day))
    ensures ParseFullDate(FullDate(year, month, day)) == Some((year, month, day))
  {
    FourDigitYear(year);
    var s := FullDate(year, month, day);
    assert s[..4] == IntToString(year);
    assert s[5..7] == TwoDigits(month);
    assert s[8..] == TwoDigits(day);
    TwoDigitsParse(month);
    TwoDigitsParse(day);
  }

  /** The year is not padded: a three-digit year gives a nine-character date. */
  lemma YearNotPadded()
    ensures FullDate(999, 1, 5) == "999-01-05"
    ensures !IsFullDateShape(FullDate(999, 1, 5))
  {
    assert NatToString(999) == "999" by {
      assert NatToString(99) == "99";
    }
  }
}
