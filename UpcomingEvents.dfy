/** The date-range selector of the upcoming-events form: a choice from the
    range drop-down and today's date give an inclusive (start, end) pair.
    Weeks run Monday to Sunday; a month ends on its last day, found as the
    day before the first of the next month. */
module UpcomingEvents {

  import opened Calendar

  lemma OrdinalAtLeastOne(d: CalDate)
    ensures 1 <= Ordinal(d)
  {
    OrdinalWithinYear(d);
  }

  lemma YearOfRoomBeforeMax(d: CalDate)
    requires d.year <= 9998
    ensures Ordinal(d) + 365 <= Ordinal(MaxDate)
  {
    OrdinalWithinYear(d);
    DaysBeforeYearMonotone(d.year + 1, 9999);
    assert Ordinal(MaxDate) == DaysBeforeYear(9999) + 365;
  }

  lemma MondayNotBeforeMinDate(d: CalDate)
    requires 1 <= Ordinal(d)
    ensures Ordinal(d) - Weekday(d) >= 1
  {
    assert WeekdayOfOrdinal(Ordinal(d)) <= Ordinal(d) - 1;
  }

  lemma WeekdayPeriodic(k: int)
    ensures WeekdayOfOrdinal(k + 7) == WeekdayOfOrdinal(k)
  {
  }

  /** Day ordinal `o` has weekday `(o + 6) % 7`; its week's Monday is `o`
      minus that, and the seven days from a Monday have weekdays 0..6. */
  lemma WeekArithmetic(o: int, s: int)
    requires s == o - WeekdayOfOrdinal(o)
    ensures WeekdayOfOrdinal(s) == 0 && s <= o < s + 7
    ensures WeekdayOfOrdinal(s + 6) == 6
    ensures forall k :: s <= k < s + 7 ==> WeekdayOfOrdinal(k) == k - s
    ensures forall k :: o < k < s + 7 ==> WeekdayOfOrdinal(k) != 0
  {
  }

  /** The Monday-to-Sunday and month arithmetic stays inside years 1..9999. */
  lemma RoomAroundToday(today: CalDate)
    requires today.year <= 9998
    ensures Ordinal(MinDate) <= Ordinal(today) - Weekday(today)
    ensures Ordinal(today) + 13 <= Ordinal(MaxDate)
  {
    OrdinalAtLeastOne(today);
    MondayNotBeforeMinDate(today);
    YearOfRoomBeforeMax(today);
    assert Ordinal(MinDate) == 1;
  }

  /** The first and last day of month `m` of year `y`, computed as the source
      does: the last day is the first of the following month minus one day. */
  function MonthBounds(y: int, m: int): (r: (CalDate, CalDate))
    requires 1 <= y <= 9999 && 1 <= m <= 12 && (m == 12 ==> y <= 9998)
    ensures r.0 == Date(y, m, 1) && r.1 == Date(y, m, DaysInMonth(y, m))
  {
    var first: CalDate := Date(y, m, 1);
    if m == 12 then (first, PrevDay(Date(y + 1, 1, 1)))
    else (first, PrevDay(Date(y, m + 1, 1)))
  }

  /** The Monday `shift` days after the Monday on or before `today`, and
      the Sunday six days after that. */
  function WeekOf(today: CalDate, shift: int): (r: (CalDate, CalDate))
    requires today.year <= 9998 && (shift == 0 || shift == 7)
    ensures Ordinal(r.0) == Ordinal(today) - Weekday(today) + shift
    ensures Ordinal(r.1) == Ordinal(r.0) + 6
  {
    RoomAroundToday(today);
    var start := AddDays(today, shift - Weekday(today));
    (start, AddDays(start, 6))
  }

  /** `Upcoming_Events_Form.get_date_range` for the drop-down's selected value
      and `datetime.date.today()`. */
  function GetDateRange(selected: string, today: CalDate): (r: (CalDate, CalDate))
    requires today.year <= 9998
    ensures Ordinal(r.0) <= Ordinal(r.1)
  {
    RoomAroundToday(today);
    if selected == "Today" then (today, today)
    else if selected == "Tomorrow" then
      var tomorrow := AddDays(today, 1);
      (tomorrow, tomorrow)
    else if selected == "This Week" then WeekOf(today, 0)
    else if selected == "Next Week" then WeekOf(today, 7)
    else if selected == "This Month" then
      OrdinalMonotone(Date(today.year, today.month, 1), Date(today.year, today.month, DaysInMonth(today.year, today.month)));
      MonthBounds(today.year, today.month)
    else if selected == "Next Month" then
      var nextMonth, nextYear := if today.month == 12 then 1 else today.month + 1,
                                 if today.month == 12 then today.year + 1 else today.year;
      OrdinalMonotone(Date(nextYear, nextMonth, 1), Date(nextYear, nextMonth, DaysInMonth(nextYear, nextMonth)));
      MonthBounds(nextYear, nextMonth)
    else (today, today)
  }

  /** "Today" is the single day today; "Tomorrow" the single next day;
      any unknown selection falls back to today. */
  lemma DayRanges(selected: string, today: CalDate)
    requires today.year <= 9998
    ensures selected == "Today" ==> GetDateRange(selected, today) == (today, today)
    ensures selected == "Tomorrow" ==>
      var r := GetDateRange(selected, today);
      r.0 == r.1 && Ordinal(r.0) == Ordinal(today) + 1
    ensures selected !in {"Today", "Tomorrow", "This Week", "Next Week", "This Month", "Next Month"} ==>
      GetDateRange(selected, today) == (today, today)
  {
  }

  /** "This Week" starts on the Monday on or before today and ends on the
      Sunday after it; today lies inside, and the days of the range are
      Monday..Sunday in order. */
  lemma {:induction false} ThisWeekRange(today: CalDate)
    requires today.year <= 9998
    ensures var r := GetDateRange("This Week", today);
      && Weekday(r.0) == 0
      && Ordinal(r.0) <= Ordinal(today) <= Ordinal(r.1)
      && Ordinal(r.1) == Ordinal(r.0) + 6
      && forall d: CalDate :: Ordinal(r.0) <= Ordinal(d) <= Ordinal(r.1) ==> Weekday(d) == Ordinal(d) - Ordinal(r.0)
  {
    var r := GetDateRange("This Week", today);
    RoomAroundToday(today);
    WeekArithmetic(Ordinal(today), Ordinal(r.0));
  }

  /** "Next Week" starts on the first Monday strictly after today, at most a
      week away, and ends six days later on a Sunday. */
  lemma {:induction false} NextWeekRange(today: CalDate)
    requires today.year <= 9998
    ensures var r := GetDateRange("Next Week", today);
      && Weekday(r.0) == 0 && Weekday(r.1) == 6
      && Ordinal(today) < Ordinal(r.0) <= Ordinal(today) + 7
      && Ordinal(r.1) == Ordinal(r.0) + 6
      && forall d: CalDate :: Ordinal(today) < Ordinal(d) < Ordinal(r.0) ==> Weekday(d) != 0
  {
    NextWeekBranch(today);
    FollowingWeek(today);
  }

  /** The week `WeekOf(today, 7)` is the one after today's. */
  lemma FollowingWeek(today: CalDate)
    requires today.year <= 9998
    ensures var r := WeekOf(today, 7);
      && Weekday(r.0) == 0 && Weekday(r.1) == 6
      && Ordinal(today) < Ordinal(r.0) <= Ordinal(today) + 7
      && Ordinal(r.1) == Ordinal(r.0) + 6
      && forall d: CalDate :: Ordinal(today) < Ordinal(d) < Ordinal(r.0) ==> Weekday(d) != 0
  {
    var r := WeekOf(today, 7);
    NextWeekArithmetic(Ordinal(today), Ordinal(r.0), Ordinal(r.1));
  }

  lemma NextWeekBranch(today: CalDate)
    requires today.year <= 9998
    ensures GetDateRange("Next Week", today) == WeekOf(today, 7)
  {
    assert "Next Week" != "Today" && "Next Week" != "Tomorrow" by {
      assert |"Next Week"| == 9;
    }
    assert "Next Week" != "This Week" by {
      assert "Next Week"[0] != "This Week"[0];
    }
  }

  /** The Monday after the week of day `o` is `a`, its Sunday `b`, and no
      day between `o` and `a` is a Monday. */
  lemma NextWeekArithmetic(o: int, a: int, b: int)
    requires a == o - WeekdayOfOrdinal(o) + 7 && b == a + 6
    ensures o < a <= o + 7
    ensures WeekdayOfOrdinal(a) == 0 && WeekdayOfOrdinal(b) == 6
    ensures forall k :: o < k < a ==> WeekdayOfOrdinal(k) != 0
  {
    var s := o - WeekdayOfOrdinal(o);
    WeekArithmetic(o, s);
    WeekdayPeriodic(s);
    WeekdayPeriodic(s + 6);
  }


  /** "This Month" is exactly the set of days in today's month: from day 1 to
      the month's last day (31 for December, 29 for a leap February). */
  lemma {:induction false} ThisMonthRange(today: CalDate)
    requires today.year <= 9998
    ensures var r := GetDateRange("This Month", today);
      && r.0 == Date(today.year, today.month, 1)
      && r.1 == Date(today.year, today.month, DaysInMonth(today.year, today.month))
      && forall d: CalDate :: Ordinal(r.0) <= Ordinal(d) <= Ordinal(r.1) <==> (d.year == today.year && d.month == today.month)
  {
    var r := GetDateRange("This Month", today);
    forall d: CalDate
      ensures Ordinal(r.0) <= Ordinal(d) <= Ordinal(r.1) <==> (d.year == today.year && d.month == today.month)
    {
      OrdinalMonotone(r.0, d);
      OrdinalMonotone(d, r.1);
    }
  }

  /** "Next Month" is exactly the set of days of the month after today's,
      December wrapping to January of the next year. */
  lemma {:induction false} NextMonthRange(today: CalDate)
    requires today.year <= 9998
    ensures var r := GetDateRange("Next Month", today);
      var (y, m) := if today.month == 12 then (today.year + 1, 1) else (today.year, today.month + 1);
      && r.0 == Date(y, m, 1)
      && r.1 == Date(y, m, DaysInMonth(y, m))
      && Ordinal(r.1) < Ordinal(r.0) + 31
      && Ordinal(today) < Ordinal(r.0)
      && forall d: CalDate :: Ordinal(r.0) <= Ordinal(d) <= Ordinal(r.1) <==> (d.year == y && d.month == m)
  {
    var r := GetDateRange("Next Month", today);
    var (y, m) := if today.month == 12 then (today.year + 1, 1) else (today.year, today.month + 1);
    OrdinalMonotone(today, r.0);
    OrdinalMonotone(r.0, r.1);
    forall d: CalDate
      ensures Ordinal(r.0) <= Ordinal(d) <= Ordinal(r.1) <==> (d.year == y && d.month == m)
    {
      OrdinalMonotone(r.0, d);
      OrdinalMonotone(d, r.1);
    }
  }
}
