/** The booking calendar's day-disabling rule: a day cannot be picked when
    it falls on one of a fixed list of unavailable days, or when it lies
    before the start of today. Also the `yyyy-MM-dd` rendering of a day that
    the booking record stores. Times are local wall-clock times. */
module Calendar {
  import opened Base
  import opened Numerals

  /** A local calendar day. `month` is 0-based, as in JavaScript's `Date`
      (0 is January, 11 is December). */
  datatype CalendarDate = CalendarDate(year: nat, month: nat, day: nat)

  /** A local point in time: a calendar day and the milliseconds elapsed
      since its midnight. */
  datatype Moment = Moment(date: CalendarDate, msOfDay: nat)

  const MsPerDay: nat := 86400000

  predicate IsLeapYear(y: nat) {
    (y % 4 == 0 && y % 100 != 0) || y % 400 == 0
  }

  function DaysInMonth(y: nat, m: nat): nat
    requires m < 12
  {
    if m == 1 then (if IsLeapYear(y) then 29 else 28)
    else if m == 3 || m == 5 || m == 8 || m == 10 then 30
    else 31
  }

  /** A real calendar day of year 1 or later. Year 0 is excluded: the
      `yyyy` field writes era years, so year 0 (1 BC) would print as 0001. */
  predicate ValidDate(d: CalendarDate) {
    d.year >= 1 && d.month < 12 && 1 <= d.day <= DaysInMonth(d.year, d.month)
  }

  /** Chronological order of calendar days. */
  predicate DateBefore(a: CalendarDate, b: CalendarDate) {
    || a.year < b.year
    || (a.year == b.year && a.month < b.month)
    || (a.year == b.year && a.month == b.month && a.day < b.day)
  }

  /** `a < b` on two JavaScript dates. */
  predicate MomentBefore(a: Moment, b: Moment) {
    DateBefore(a.date, b.date) || (a.date == b.date && a.msOfDay < b.msOfDay)
  }

  /** `new Date(year, month, day)`: midnight at the start of that day. It
      is its own start of day, and it is not in the past on that day. */
  function NewDate(year: nat, month: nat, day: nat): (t: Moment)
    ensures StartOfDay(t) == t
    ensures !IsDateInPast(t, t)
  {
    Moment(CalendarDate(year, month, day), 0)
  }

  /** `d.setHours(0, 0, 0, 0)`: the midnight that starts the day of `t`. */
  function StartOfDay(t: Moment): (r: Moment)
    ensures r.date == t.date && r.msOfDay == 0
    ensures !MomentBefore(t, r)
  {
    Moment(t.date, 0)
  }

  /** `a.toDateString() === b.toDateString()`: same local calendar day. */
  predicate SameDay(a: Moment, b: Moment) {
    a.date == b.date
  }

  /** The hard-coded list of unavailable days: 15, 16, 25 and 26 December
      2024 and 1 January 2025 (months are 0-based). */
  const UnavailableDates: seq<Moment> := [
    NewDate(2024, 11, 15),
    NewDate(2024, 11, 16),
    NewDate(2024, 11, 25),
    NewDate(2024, 11, 26),
    NewDate(2025, 0, 1)
  ]

  /** The calendar days of a list of moments. */
  function ListedDays(unavailable: seq<Moment>): set<CalendarDate> {
    set i | 0 <= i < |unavailable| :: unavailable[i].date
  }

  /** `isDateUnavailable`: the day of `t` is one of the listed days. */
  predicate IsDateUnavailable(unavailable: seq<Moment>, t: Moment): (b: bool)
    ensures b <==> t.date in ListedDays(unavailable)
  {
    exists i :: 0 <= i < |unavailable| && SameDay(t, unavailable[i])
  }

  /** `isDateInPast`: `t` lies strictly before midnight of today, where
      today is the day of `now`. */
  predicate IsDateInPast(t: Moment, now: Moment): (b: bool)
    ensures b <==> DateBefore(t.date, now.date)
  {
    MomentBefore(t, StartOfDay(now))
  }

  /** The calendar's `disabled` predicate. */
  predicate IsDisabled(unavailable: seq<Moment>, t: Moment, now: Moment): (b: bool)
    ensures b <==> t.date in ListedDays(unavailable) || DateBefore(t.date, now.date)
  {
    IsDateUnavailable(unavailable, t) || IsDateInPast(t, now)
  }

  /** The calendar as shipped, with the hard-coded list. */
  predicate IsDisabledDay(t: Moment, now: Moment) {
    IsDisabled(UnavailableDates, t, now)
  }

  /** A moment is in the past exactly when its calendar day comes before
      today's: the time of day plays no part. */
  lemma PastMeansEarlierDay(t: Moment, now: Moment)
    ensures IsDateInPast(t, now) <==> DateBefore(t.date, now.date)
  {
  }

  /** Any moment of today, midnight included, is not in the past. */
  lemma TodayIsNotPast(t: Moment, now: Moment)
    requires SameDay(t, now)
    ensures !IsDateInPast(t, now)
  {
  }

  /** Every past moment is disabled, whatever the unavailable list holds. */
  lemma PastIsDisabled(unavailable: seq<Moment>, t: Moment, now: Moment)
    requires DateBefore(t.date, now.date)
    ensures IsDisabled(unavailable, t, now)
  {
  }

  /** Every moment on a listed day is disabled, at any time of that day. */
  lemma ListedDayIsDisabled(unavailable: seq<Moment>, i: nat, t: Moment, now: Moment)
    requires i < |unavailable| && t.date == unavailable[i].date
    ensures IsDisabled(unavailable, t, now)
  {
  }

  /** A moment is selectable exactly when its day is today or later and is
      none of the listed days. */
  lemma EnabledIff(unavailable: seq<Moment>, t: Moment, now: Moment)
    ensures !IsDisabled(unavailable, t, now) <==>
      (!DateBefore(t.date, now.date) &&
       forall i :: 0 <= i < |unavailable| ==> unavailable[i].date != t.date)
  {
  }

  /** Listing more days never enables a day. */
  lemma MoreUnavailableNeverEnables(small: seq<Moment>, large: seq<Moment>, t: Moment, now: Moment)
    requires forall i :: 0 <= i < |small| ==> small[i] in large
    requires IsDisabled(small, t, now)
    ensures IsDisabled(large, t, now)
  {
  }

  // ---------------------------------------------------------------------
  // `format(date, 'yyyy-MM-dd')`

  /** The day as `yyyy-MM-dd`: the year padded to four digits, then the
      1-based month and the day padded to two. */
  function FormatIsoDate(d: CalendarDate): (r: string)
    ensures ValidDate(d) ==> |r| >= 10 && r[|r| - 6] == '-' && r[|r| - 3] == '-'
    ensures ValidDate(d) && d.year < 10000 ==> |r| == 10
  {
    var y := PadZeros(NatToString(d.year), 4);
    var m := PadZeros(NatToString(d.month + 1), 2);
    var dd := PadZeros(NatToString(d.day), 2);
    FieldWidths(d);
    y + "-" + m + "-" + dd
  }

  /** The widths of the three fields of a valid day: two for month and day,
      four for years below 10000, and never less than four. */
  lemma FieldWidths(d: CalendarDate)
    ensures |PadZeros(NatToString(d.year), 4)| >= 4
    ensures d.year < 10000 ==> |PadZeros(NatToString(d.year), 4)| == 4
    ensures ValidDate(d) ==> |PadZeros(NatToString(d.month + 1), 2)| == 2
    ensures ValidDate(d) ==> |PadZeros(NatToString(d.day), 2)| == 2
  {
    if d.year < 10000 {
      assert Pow10(4) == 10000;
      NatToStringFits(d.year, 4);
    }
    if ValidDate(d) {
      TwoDigitField(d.month + 1);
      TwoDigitField(d.day);
    }
  }

  /** Reads a `yyyy-MM-dd` string back into a calendar day. */
  function ParseIsoDate(s: string): Option<CalendarDate> {
    if |s| >= 10 && s[|s| - 6] == '-' && s[|s| - 3] == '-' then
      ParseIsoFields(s[..|s| - 6], s[|s| - 5..|s| - 3], s[|s| - 2..])
    else None
  }

  /** Reads the year, month and day fields of a `yyyy-MM-dd` string. */
  function ParseIsoFields(y: string, m: string, d: string): Option<CalendarDate> {
    if AllDigits(y) && AllDigits(m) && AllDigits(d) && DigitsValue(m) >= 1 then
      Some(CalendarDate(DigitsValue(y), DigitsValue(m) - 1, DigitsValue(d)))
    else None
  }

  /** A padded field reads back as the number it renders. */
  lemma PaddedValue(n: nat, width: nat)
    ensures AllDigits(PadZeros(NatToString(n), width))
    ensures DigitsValue(PadZeros(NatToString(n), width)) == n
  {
    var s := NatToString(n);
    NatToStringRoundTrip(n);
    if |s| < width {
      LeadingZerosValue(width - |s|, s);
    }
  }

  /** A string made of a year field and two two-digit fields splits back
      into those fields. */
  lemma SplitIsoFields(y: string, m: string, d: string)
    requires |y| >= 4 && |m| == 2 && |d| == 2
    ensures ParseIsoDate(y + "-" + m + "-" + d) == ParseIsoFields(y, m, d)
  {
    var s := y + "-" + m + "-" + d;
    assert s[|s| - 6] == '-' && s[|s| - 3] == '-';
    assert s[..|s| - 6] == y;
    assert s[|s| - 5..|s| - 3] == m;
    assert s[|s| - 2..] == d;
  }

  /** A two-digit field: anything below 100 pads to exactly two digits. */
  lemma TwoDigitField(n: nat)
    requires n < 100
    ensures |PadZeros(NatToString(n), 2)| == 2
  {
    assert Pow10(2) == 100;
    NatToStringFits(n, 2);
  }

  /** Every valid day survives formatting and reading back. */
  lemma IsoDateRoundTrip(d: CalendarDate)
    requires ValidDate(d)
    ensures ParseIsoDate(FormatIsoDate(d)) == Some(d)
  {
    assert d.month + 1 < 100 && d.day < 100;
    IsoFieldsRoundTrip(d.year, d.month, d.day);
  }

  lemma IsoFieldsRoundTrip(year: nat, month: nat, day: nat)
    requires month + 1 < 100 && day < 100
    ensures ParseIsoDate(FormatIsoDate(CalendarDate(year, month, day))) == Some(CalendarDate(year, month, day))
  {
    var y := PadZeros(NatToString(year), 4);
    var m := PadZeros(NatToString(month + 1), 2);
    var dd := PadZeros(NatToString(day), 2);
    var s := FormatIsoDate(CalendarDate(year, month, day));
    assert s == y + "-" + m + "-" + dd;
    assert |y| >= 4 && |m| == 2 && |dd| == 2 by {
      TwoDigitField(month + 1);
      TwoDigitField(day);
    }
    assert ParseIsoDate(s) == ParseIsoFields(y, m, dd) by {
      SplitIsoFields(y, m, dd);
    }
    FieldsReadBack(year, month, day);
  }

  /** The three padded fields of a day read back as its year, month and day. */
  lemma FieldsReadBack(year: nat, month: nat, day: nat)
    ensures ParseIsoFields(PadZeros(NatToString(year), 4), PadZeros(NatToString(month + 1), 2),
                           PadZeros(NatToString(day), 2)) == Some(CalendarDate(year, month, day))
  {
    PaddedValue(year, 4);
    PaddedValue(month + 1, 2);
    PaddedValue(day, 2);
  }

  lemma RenderedYears()
    ensures NatToString(2024) == "2024" && NatToString(2025) == "2025"
  {
  }

  /** A day of December 2024 from the 10th on, as `yyyy-MM-dd`. */
  lemma December2024Iso(day: nat, ds: string)
    requires 10 <= day && NatToString(day) == ds
    ensures FormatIsoDate(CalendarDate(2024, 11, day)) == "2024-12-" + ds
  {
    RenderedYears();
    assert NatToString(12) == "12";
    assert PadZeros(ds, 2) == ds by {
      NatToStringFits(day, 1);
    }
    assert PadZeros("2024", 4) == "2024";
    assert "2024" + "-" + "12" + "-" == "2024-12-";
  }

  lemma January2025FirstIso()
    ensures FormatIsoDate(CalendarDate(2025, 0, 1)) == "2025-01-" + "01"
  {
    RenderedYears();
    assert NatToString(1) == "1";
    assert PadZeros("1", 2) == "01" by {
      assert Zeros(1) == "0";
    }
    assert PadZeros("2025", 4) == "2025";
    assert "2025" + "-" + "01" + "-" == "2025-01-";
  }

  /** A moment is on a listed day exactly when its day is 15, 16, 25 or 26
      December 2024 or 1 January 2025. */
  lemma UnavailableDaysExactly(t: Moment)
    ensures IsDateUnavailable(UnavailableDates, t) <==>
      t.date in {CalendarDate(2024, 11, 15), CalendarDate(2024, 11, 16),
                 CalendarDate(2024, 11, 25), CalendarDate(2024, 11, 26),
                 CalendarDate(2025, 0, 1)}
  {
    if t.date == CalendarDate(2024, 11, 15) {
      assert SameDay(t, UnavailableDates[0]);
    } else if t.date == CalendarDate(2024, 11, 16) {
      assert SameDay(t, UnavailableDates[1]);
    } else if t.date == CalendarDate(2024, 11, 25) {
      assert SameDay(t, UnavailableDates[2]);
    } else if t.date == CalendarDate(2024, 11, 26) {
      assert SameDay(t, UnavailableDates[3]);
    } else if t.date == CalendarDate(2025, 0, 1) {
      assert SameDay(t, UnavailableDates[4]);
    }
  }
}
