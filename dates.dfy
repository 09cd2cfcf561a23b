/**
 * Calendar dates and the two date-fns patterns the migration uses:
 * `yyyy/MM` (the year/month bucket) and `yyyy-MM-dd` (the `pubDate` text).
 */
module Dates {
  import opened Text

  /**
   * A `Date` broken down into its local-time full year (`getFullYear`, where
   * 0 is 1 BC and -1 is 2 BC), month (1-12) and day.
   */
  datatype CalendarDate = CalendarDate(year: int, month: nat, day: nat)

  /** What date-fns writes for `y`: the year of the era, so 1 BC (year 0) is 1. */
  function EraYear(year: int): nat
  {
    if year > 0 then year else 1 - year
  }

  /** date-fns `format(d, 'yyyy/MM')`. */
  function YearMonth(d: CalendarDate): string
  {
    ZeroPad(EraYear(d.year), 4) + "/" + ZeroPad(d.month, 2)
  }

  /** date-fns `format(d, 'yyyy-MM-dd')`. */
  function IsoDay(d: CalendarDate): string
  {
    ZeroPad(EraYear(d.year), 4) + "-" + ZeroPad(d.month, 2) + "-" + ZeroPad(d.day, 2)
  }

  /** Era years 1-9999 and two-digit months and days: the fixed-width case. */
  predicate FixedWidth(d: CalendarDate)
  {
    EraYear(d.year) < 10000 && d.month < 100 && d.day < 100
  }

  /** Reads a `yyyy/MM` bucket back into (year, month). */
  function ParseYearMonth(s: string): (nat, nat)
    requires |s| >= 5
  {
    (DigitsValue(s[..4]), DigitsValue(s[5..]))
  }

  /** Reads a `yyyy-MM-dd` text back into a calendar date. */
  function ParseIsoDay(s: string): CalendarDate
    requires |s| >= 8
  {
    CalendarDate(DigitsValue(s[..4]), DigitsValue(s[5..7]), DigitsValue(s[8..]))
  }

  lemma {:induction false} FixedWidthPads(d: CalendarDate)
    requires FixedWidth(d)
    ensures |ZeroPad(EraYear(d.year), 4)| == 4 && |ZeroPad(d.month, 2)| == 2 && |ZeroPad(d.day, 2)| == 2
  {
    assert Pow10(4) == 10000 && Pow10(2) == 100 by {
      assert Pow10(1) == 10;
      assert Pow10(3) == 1000;
    }
    ZeroPadLength(EraYear(d.year), 4);
    ZeroPadLength(d.month, 2);
    ZeroPadLength(d.day, 2);
  }

  /**
   * The bucket is seven characters, `/` in the middle, and reads back to the
   * date's year of the era and its month.
   */
  lemma {:induction false} YearMonthRoundTrip(d: CalendarDate)
    requires FixedWidth(d)
    ensures |YearMonth(d)| == 7 && YearMonth(d)[4] == '/'
    ensures ParseYearMonth(YearMonth(d)) == (EraYear(d.year), d.month)
  {
    FixedWidthPads(d);
    var s := YearMonth(d);
    assert s[..4] == ZeroPad(EraYear(d.year), 4);
    assert s[5..] == ZeroPad(d.month, 2);
    ZeroPadValue(EraYear(d.year), 4);
    ZeroPadValue(d.month, 2);
  }

  /** The `yyyy-MM-dd` text is ten characters and reads back to the same era year, month and day. */
  lemma {:induction false} IsoDayRoundTrip(d: CalendarDate)
    requires FixedWidth(d)
    ensures |IsoDay(d)| == 10 && IsoDay(d)[4] == '-' && IsoDay(d)[7] == '-'
    ensures ParseIsoDay(IsoDay(d)) == CalendarDate(EraYear(d.year), d.month, d.day)
  {
    FixedWidthPads(d);
    var s := IsoDay(d);
    assert s[..4] == ZeroPad(EraYear(d.year), 4);
    assert s[5..7] == ZeroPad(d.month, 2);
    assert s[8..] == ZeroPad(d.day, 2);
    ZeroPadValue(EraYear(d.year), 4);
    ZeroPadValue(d.month, 2);
    ZeroPadValue(d.day, 2);
  }

  /**
   * Two dates share a bucket exactly when they share the year of the era and
   * the month, however many digits the year has: the year's digits end at the
   * only `/`. In particular 1 BC and AD 1 share a bucket.
   */
  lemma {:induction false} YearMonthInjective(d1: CalendarDate, d2: CalendarDate)
    ensures YearMonth(d1) == YearMonth(d2) <==> EraYear(d1.year) == EraYear(d2.year) && d1.month == d2.month
  {
    var y1, y2 := ZeroPad(EraYear(d1.year), 4), ZeroPad(EraYear(d2.year), 4);
    var m1, m2 := ZeroPad(d1.month, 2), ZeroPad(d2.month, 2);
    if YearMonth(d1) == YearMonth(d2) {
      assert y1 + ['/'] + m1 == y2 + ['/'] + m2;
      SplitAtSeparator(y1, m1, y2, m2, '/');
      ZeroPadValue(EraYear(d1.year), 4);
      ZeroPadValue(EraYear(d2.year), 4);
      ZeroPadValue(d1.month, 2);
      ZeroPadValue(d2.month, 2);
    }
  }

  /** The bucket and the `pubDate` text carry the same year and month digits. */
  lemma {:induction false} BucketAgreesWithDay(d: CalendarDate)
    requires FixedWidth(d)
    ensures IsoDay(d)[..4] == YearMonth(d)[..4]
    ensures IsoDay(d)[5..7] == YearMonth(d)[5..]
  {
    FixedWidthPads(d);
    assert IsoDay(d)[..4] == ZeroPad(EraYear(d.year), 4) == YearMonth(d)[..4];
    assert IsoDay(d)[5..7] == ZeroPad(d.month, 2) == YearMonth(d)[5..];
  }
}
