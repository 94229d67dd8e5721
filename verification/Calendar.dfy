/**
 * Instants and Go's calendar arithmetic.
 *
 * An instant is a number of nanoseconds since midnight of 1 January of year 0
 * (proleptic Gregorian calendar, UTC). `AddMonths` is `t.AddDate(0, m, 0)`: it
 * keeps the day number and the time of day, and lets a day number that the
 * target month does not have spill into the month after it.
 */
module Calendar {
  type Time = int

  const SECOND: int := 1_000_000_000
  const HOUR: int := 3_600_000_000_000
  const DAY: int := 86_400_000_000_000

  predicate IsLeap(year: int) {
    year % 4 == 0 && (year % 100 != 0 || year % 400 == 0)
  }

  /** Months are numbered from January of year 0. */
  function MonthLength(month: int): (days: int)
    ensures 28 <= days <= 31
  {
    var m := month % 12;
    if m == 1 then (if IsLeap(month / 12) then 29 else 28)
    else if m == 3 || m == 5 || m == 8 || m == 10 then 30
    else 31
  }

  /** The day number of the first day of a month: the running total of the month lengths. */
  function MonthStart(month: int): int
    decreases if month < 0 then -month else month
  {
    if month == 0 then 0
    else if month > 0 then MonthStart(month - 1) + MonthLength(month - 1)
    else MonthStart(month + 1) - MonthLength(month)
  }

  lemma MonthStartStep(month: int)
    ensures MonthStart(month + 1) == MonthStart(month) + MonthLength(month)
  {
  }

  lemma {:induction false} MonthStartSpan(month: int, count: nat)
    ensures 28 * count <= MonthStart(month + count) - MonthStart(month) <= 31 * count
  {
    if count > 0 {
      MonthStartSpan(month, count - 1);
      MonthStartStep(month + count - 1);
    }
  }

  function SeekMonth(month: int, day: int): (k: int)
    requires MonthStart(month) <= day
    ensures MonthStart(k) <= day < MonthStart(k + 1)
    decreases day - MonthStart(month)
  {
    MonthStartStep(month);
    if day < MonthStart(month + 1) then month else SeekMonth(month + 1, day)
  }

  /** The month that holds a day. */
  function MonthOf(day: int): (k: int)
    ensures MonthStart(k) <= day < MonthStart(k + 1)
  {
    if day >= 0 then
      SeekMonth(0, day)
    else
      MonthStartSpan(day, -day);
      SeekMonth(day, day)
  }

  lemma {:induction false} MonthStartMonotone(a: int, b: int)
    requires a <= b
    ensures MonthStart(a) <= MonthStart(b)
  {
    MonthStartSpan(a, b - a);
  }

  /** The date `months` months later: the same day number, counted on from the start of the target month. */
  function ShiftDay(day: int, months: int): int {
    MonthStart(MonthOf(day) + months) + (day - MonthStart(MonthOf(day)))
  }

  /** Go's t.AddDate(0, months, 0). */
  function AddMonths(t: Time, months: int): Time {
    ShiftDay(t / DAY, months) * DAY + t % DAY
  }

  lemma AddMonthsDays(t: Time, months: int, days: int)
    requires days == ShiftDay(t / DAY, months) - t / DAY
    ensures AddMonths(t, months) == t + days * DAY
  {
    assert t == t / DAY * DAY + t % DAY;
    assert ShiftDay(t / DAY, months) * DAY == t / DAY * DAY + days * DAY;
  }

  /** A month lasts 28 to 31 days, so m months last 28m to 31m. */
  lemma AddMonthsSpan(t: Time, months: nat)
    ensures t + 28 * DAY * months <= AddMonths(t, months) <= t + 31 * DAY * months
  {
    var day := t / DAY;
    var days := ShiftDay(day, months) - day;
    assert 28 * months <= days <= 31 * months by { MonthStartSpan(MonthOf(day), months); }
    AddMonthsDays(t, months, days);
  }

  /** The three-month gift lasts 89 to 92 days. */
  lemma ThreeMonthsSpan(t: Time)
    ensures t + 89 * DAY <= AddMonths(t, 3) <= t + 92 * DAY
  {
    var day := t / DAY;
    var days := ShiftDay(day, 3) - day;
    assert 89 <= days <= 92 by { ThreeMonthLengths(MonthOf(day)); }
    AddMonthsDays(t, 3, days);
  }

  lemma ThreeMonthLengths(month: int)
    ensures 89 <= MonthStart(month + 3) - MonthStart(month) <= 92
  {
    MonthStartStep(month);
    MonthStartStep(month + 1);
    MonthStartStep(month + 2);
    hide MonthStart; hide IsLeap;
    QuarterLength(month);
  }

  /** Of three months in a row at most one is February, and at least one has 31 days. */
  lemma QuarterLength(month: int)
    ensures 89 <= MonthLength(month) + MonthLength(month + 1) + MonthLength(month + 2) <= 92
  {
  }

  /** The lengths of the months of a common year. */
  const LENGTHS: seq<int> := [31, 28, 31, 30, 31, 30, 31, 31, 30, 31, 30, 31]

  /** The leap years from year 0 up to a year: every fourth, not the centuries, but every fourth of those. */
  function LeapYearsBefore(year: int): int {
    (year + 3) / 4 - (year + 99) / 100 + (year + 399) / 400
  }

  /**
   * The calendar is the Gregorian one: each month of each year has its length,
   * and a year starts 365 days for each year, and one for each leap year, after
   * the start of year 0.
   */
  lemma Gregorian(year: int, month: int)
    requires 0 <= month < 12
    ensures MonthLength(12 * year + month) == LENGTHS[month] +
              (if month == 1 && year % 4 == 0 && (year % 100 != 0 || year % 400 == 0) then 1 else 0)
    ensures MonthStart(12 * year) == 365 * year + LeapYearsBefore(year)
  {
    MonthOfYear(year, month);
    hide MonthLength; hide MonthStart; hide IsLeap; hide LeapYearsBefore;
    if year >= 0 {
      YearStarts(year);
    } else {
      YearStartsBack(-year);
    }
  }

  lemma MonthOfYear(year: int, month: int)
    requires 0 <= month < 12
    ensures MonthLength(12 * year + month) == LENGTHS[month] +
              (if month == 1 && year % 4 == 0 && (year % 100 != 0 || year % 400 == 0) then 1 else 0)
  {
    assert (12 * year + month) / 12 == year && (12 * year + month) % 12 == month;
  }

  lemma YearLasts(year: int)
    ensures MonthStart(12 * (year + 1)) == MonthStart(12 * year) + (if IsLeap(year) then 366 else 365)
  {
    hide MonthStart; hide IsLeap;
    var m := 12 * year;
    MonthStartStep(m);
    MonthStartStep(m + 1);
    MonthStartStep(m + 2);
    MonthStartStep(m + 3);
    MonthStartStep(m + 4);
    MonthStartStep(m + 5);
    MonthStartStep(m + 6);
    MonthStartStep(m + 7);
    MonthStartStep(m + 8);
    MonthStartStep(m + 9);
    MonthStartStep(m + 10);
    MonthStartStep(m + 11);
  }

  lemma FourthYears(year: int)
    ensures (year + 4) / 4 == (year + 3) / 4 + (if year % 4 == 0 then 1 else 0)
  {
  }

  lemma Centuries(year: int)
    ensures (year + 100) / 100 == (year + 99) / 100 + (if year % 100 == 0 then 1 else 0)
  {
  }

  lemma FourthCenturies(year: int)
    ensures (year + 400) / 400 == (year + 399) / 400 + (if year % 400 == 0 then 1 else 0)
  {
  }

  lemma CenturyIsFourth(year: int)
    ensures year % 400 == 0 ==> year % 100 == 0
    ensures year % 100 == 0 ==> year % 4 == 0
  {
  }

  lemma LeapYearCounts(year: int)
    ensures LeapYearsBefore(year + 1) == LeapYearsBefore(year) + (if IsLeap(year) then 1 else 0)
  {
    FourthYears(year);
    Centuries(year);
    FourthCenturies(year);
    CenturyIsFourth(year);
    var a, b, c := (year + 3) / 4, (year + 99) / 100, (year + 399) / 400;
    var i, j, k := year % 4 == 0, year % 100 == 0, year % 400 == 0;
    assert LeapYearsBefore(year + 1) == (year + 4) / 4 - (year + 100) / 100 + (year + 400) / 400;
  }

  lemma {:induction false} YearStarts(year: nat)
    ensures MonthStart(12 * year) == 365 * year + LeapYearsBefore(year)
  {
    hide LeapYearsBefore; hide IsLeap;
    if year > 0 {
      YearStarts(year - 1);
      YearLasts(year - 1);
      LeapYearCounts(year - 1);
    } else {
      assert LeapYearsBefore(0) == 0 by { NoLeapYears(); }
    }
  }

  lemma NoLeapYears()
    ensures LeapYearsBefore(0) == 0
  {
  }

  lemma {:induction false} YearStartsBack(years: int)
    requires years >= 0
    ensures MonthStart(12 * -years) == 365 * -years + LeapYearsBefore(-years)
  {
    hide LeapYearsBefore; hide IsLeap;
    if years > 0 {
      YearStartsBack(years - 1);
      YearLasts(-years);
      LeapYearCounts(-years);
    } else {
      NoLeapYears();
    }
  }

  /** The first day of a month, as an instant. */
  function FirstOf(month: int): Time {
    MonthStart(month) * DAY
  }

  /** The month that holds an instant. */
  function MonthAt(t: Time): (m: int)
    ensures FirstOf(m) <= t < FirstOf(m + 1)
  {
    assert t == t / DAY * DAY + t % DAY;
    MonthOf(t / DAY)
  }

  lemma FirstsRise(a: int, b: int)
    requires a <= b
    ensures FirstOf(a) <= FirstOf(b)
  {
    MonthStartMonotone(a, b);
  }

  lemma MonthAtUnique(t: Time, m: int)
    requires FirstOf(m) <= t < FirstOf(m + 1)
    ensures MonthAt(t) == m
  {
    var k := MonthAt(t);
    if k < m {
      FirstsRise(k + 1, m);
    } else if m < k {
      FirstsRise(m + 1, k);
    }
  }

  /** AddDate counts the time since the start of the month on from the start of the target month. */
  lemma CountedOn(t: Time, months: int)
    ensures AddMonths(t, months) == FirstOf(MonthAt(t) + months) + (t - FirstOf(MonthAt(t)))
  {
    var m := MonthOf(t / DAY);
    var target := MonthStart(m + months);
    assert t == t / DAY * DAY + t % DAY;
    assert (target + (t / DAY - MonthStart(m))) * DAY == target * DAY + t / DAY * DAY - MonthStart(m) * DAY;
  }

  lemma MonthLasts(month: int)
    ensures FirstOf(month + 1) == FirstOf(month) + MonthLength(month) * DAY
  {
    MonthStartStep(month);
    assert (MonthStart(month) + MonthLength(month)) * DAY == MonthStart(month) * DAY + MonthLength(month) * DAY;
  }

  /** No later instant lands earlier than t does. */
  ghost predicate LandsInOrder(t: Time, months: int) {
    forall u :: t <= u ==> AddMonths(t, months) <= AddMonths(u, months)
  }

  /**
   * When adding months is monotone at an instant: exactly while the instant is
   * no further into its month than the target month is long. Past that, the
   * start of the next month lands earlier.
   */
  lemma AddMonthsMonotoneExactlyWhen(t: Time, months: int)
    ensures LandsInOrder(t, months) <==> t - FirstOf(MonthAt(t)) <= MonthLength(MonthAt(t) + months) * DAY
  {
    hide AddMonths; hide FirstOf; hide MonthAt; hide MonthLength;
    var m := MonthAt(t);
    CountedOn(t, months);
    MonthLasts(m + months);
    if t - FirstOf(m) <= MonthLength(m + months) * DAY {
      forall u | t <= u ensures AddMonths(t, months) <= AddMonths(u, months) {
        LaterLandsLater(t, u, months);
      }
    } else {
      NextMonthLands(t, months);
    }
  }

  lemma LaterLandsLater(t: Time, u: Time, months: int)
    requires t <= u && AddMonths(t, months) <= FirstOf(MonthAt(t) + months + 1)
    ensures AddMonths(t, months) <= AddMonths(u, months)
  {
    hide AddMonths; hide FirstOf; hide MonthAt;
    var m, k := MonthAt(t), MonthAt(u);
    CountedOn(t, months);
    CountedOn(u, months);
    if k < m {
      FirstsRise(k + 1, m);
    } else if m < k {
      FirstsRise(m + months + 1, k + months);
    }
  }

  lemma NextMonthLands(t: Time, months: int)
    ensures var next := FirstOf(MonthAt(t) + 1);
            t < next && AddMonths(next, months) == FirstOf(MonthAt(t) + months + 1)
  {
    hide AddMonths; hide FirstOf; hide MonthAt; hide MonthLength;
    var m := MonthAt(t);
    var next := FirstOf(m + 1);
    MonthLasts(m + 1);
    MonthAtUnique(next, m + 1);
    CountedOn(next, months);
  }

  /**
   * In a common year 29 January at midnight is the last instant of January that
   * lands in order: February has 28 days.
   */
  lemma JanuaryLandsInOrderUntil29th(year: int, t: Time)
    requires !IsLeap(year) && FirstOf(12 * year) <= t < FirstOf(12 * year + 1)
    ensures LandsInOrder(t, 1) <==> t <= FirstOf(12 * year) + 28 * DAY
  {
    hide AddMonths; hide FirstOf; hide MonthAt; hide LandsInOrder;
    MonthAtUnique(t, 12 * year);
    AddMonthsMonotoneExactlyWhen(t, 1);
    CommonYearLengths(year);
  }

  lemma CommonYearLengths(year: int)
    requires !IsLeap(year)
    ensures MonthLength(12 * year) == 31 && MonthLength(12 * year + 1) == 28
  {
  }
}
