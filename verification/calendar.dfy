/** The calendar page: the month grid (blank cells up to the weekday of the
    1st, then one cell per day), moving a month back or forward, the
    appointments falling on a day, and a day cell showing at most three of
    them with a "+n more" line. A day is an ECMA-262 day number; a cell of
    the grid is `None` (blank) or the day number of its date. */
module Calendar {
  import opened Wrappers
  import opened Seqs
  import opened Records
  import opened Dates

  /** The month on display: `currentDate.getFullYear()` and `getMonth()`
      (0 = January). */
  datatype MonthCursor = MonthCursor(year: int, month: int)
  {
    predicate Valid() { 0 <= month < 12 }
  }

  /** `date.getDate()` for a day known to lie in month `m` of year `y`. */
  function DateInMonth(y: int, m: int, day: int): int
  {
    day - MakeDay(y, m, 1) + 1
  }

  /** `new Date(year, month + 1, 0).getDate()` is the length of the month. */
  lemma LastDayIsMonthLength(y: int, m: int)
    requires 0 <= m < 12
    ensures DateInMonth(y, m, MakeDay(y, m + 1, 0)) == DaysInMonth(y, m)
  {
    DayZeroOfNextMonth(y, m);
    MakeDayInYear(y, m, DaysInMonth(y, m));
    MakeDayInYear(y, m, 1);
  }

  /** Dates of one month are consecutive day numbers. */
  lemma MakeDayOffset(y: int, m: int, d: int)
    requires 0 <= m < 12
    ensures MakeDay(y, m, d) == MakeDay(y, m, 1) + d - 1
  {
    MakeDayInYear(y, m, d);
    MakeDayInYear(y, m, 1);
  }

  /** The two loops of `getDaysInMonth`: `startingDay` blank cells, then
      one cell for each of the dates 1 to `daysInMonth`, date `i` being the
      day `i - 1` days after `firstDay`. */
  method FillGrid(startingDay: int, firstDay: int, daysInMonth: int) returns (days: seq<Option<int>>)
    requires 0 <= startingDay && 0 <= daysInMonth
    ensures |days| == startingDay + daysInMonth
    ensures forall k :: 0 <= k < startingDay ==> days[k] == None
    ensures forall k :: startingDay <= k < |days| ==> days[k] == Some(firstDay + (k - startingDay))
  {
    days := [];
    var i := 0;
    while i < startingDay
      invariant 0 <= i <= startingDay
      invariant |days| == i
      invariant forall k :: 0 <= k < i ==> days[k] == None
    {
      days := days + [None];
      i := i + 1;
    }
    i := 1;
    while i <= daysInMonth
      invariant 1 <= i <= daysInMonth + 1
      invariant |days| == startingDay + i - 1
      invariant forall k :: 0 <= k < startingDay ==> days[k] == None
      invariant forall k :: startingDay <= k < |days| ==> days[k] == Some(firstDay + (k - startingDay))
    {
      days := days + [Some(firstDay + i - 1)];
      i := i + 1;
    }
  }

  /** `getDaysInMonth`: `startingDay` blank cells, where `startingDay` is
      the weekday of the 1st, then the days 1 to `daysInMonth` in order. */
  method GetDaysInMonth(c: MonthCursor) returns (days: seq<Option<int>>)
    requires c.Valid()
    ensures var start := WeekDay(MakeDay(c.year, c.month, 1));
            |days| == start + DaysInMonth(c.year, c.month)
            && (forall k :: 0 <= k < start ==> days[k] == None)
            && (forall k :: start <= k < |days| ==> days[k] == Some(MakeDay(c.year, c.month, k - start + 1)))
  {
    var year, month := c.year, c.month;
    var firstDay := MakeDay(year, month, 1);
    var lastDay := MakeDay(year, month + 1, 0);
    var daysInMonth := DateInMonth(year, month, lastDay);
    LastDayIsMonthLength(year, month);
    var startingDay := WeekDay(firstDay);
    days := FillGrid(startingDay, firstDay, daysInMonth);
    forall k | startingDay <= k < |days|
      ensures days[k] == Some(MakeDay(year, month, k - startingDay + 1))
    {
      MakeDayOffset(year, month, k - startingDay + 1);
    }
  }

  /** Moving `j` days on moves the weekday `j` places on, modulo seven. */
  lemma WeekDayShift(day: int, j: int)
    ensures WeekDay(day + j) == (WeekDay(day) + j) % 7
  {
    var q := (day + 4) / 7;
    assert day + 4 == 7 * q + WeekDay(day);
    assert day + j + 4 == 7 * q + (WeekDay(day) + j);
  }

  /** The grid's columns are the weekdays: date `d` of the month sits at
      index `k = start + d - 1` of the grid (seven to a row, Sunday first),
      is the day `d - 1` days after the 1st, and falls on weekday `k % 7`. */
  lemma {:induction false} GridColumnsAreWeekdays(c: MonthCursor, d: int)
    requires c.Valid() && 1 <= d <= DaysInMonth(c.year, c.month)
    ensures var first := MakeDay(c.year, c.month, 1);
            var day := MakeDay(c.year, c.month, d);
            day == first + (d - 1) && WeekDay(day) == (WeekDay(first) + d - 1) % 7
  {
    var first := MakeDay(c.year, c.month, 1);
    MakeDayOffset(c.year, c.month, d);
    WeekDayShift(first, d - 1);
  }

  // ---------------------------------------------------------------------
  // Moving between months

  /** `new Date(year, month - 1, 1)`, read back as year and month: month
      -1 carries into December of the year before. */
  function PrevMonth(c: MonthCursor): (r: MonthCursor)
    requires c.Valid()
    ensures r.Valid()
    ensures c.month > 0 ==> r == MonthCursor(c.year, c.month - 1)
    ensures c.month == 0 ==> r == MonthCursor(c.year - 1, 11)
    ensures MakeDay(r.year, r.month, 1) == MakeDay(c.year, c.month - 1, 1)
  {
    if c.month == 0 then
      MakeDayNormal(c.year, -1, 1);
      assert -1 / 12 == -1 && -1 % 12 == 11;
      MonthCursor(c.year - 1, 11)
    else
      MonthCursor(c.year, c.month - 1)
  }

  /** `new Date(year, month + 1, 1)`, read back as year and month: month 12
      carries into January of the year after. */
  function NextMonth(c: MonthCursor): (r: MonthCursor)
    requires c.Valid()
    ensures r.Valid()
    ensures c.month < 11 ==> r == MonthCursor(c.year, c.month + 1)
    ensures c.month == 11 ==> r == MonthCursor(c.year + 1, 0)
    ensures MakeDay(r.year, r.month, 1) == MakeDay(c.year, c.month + 1, 1)
  {
    if c.month == 11 then
      MakeDayNormal(c.year, 12, 1);
      assert 12 / 12 == 1 && 12 % 12 == 0;
      MonthCursor(c.year + 1, 0)
    else
      MonthCursor(c.year, c.month + 1)
  }

  /** Going back a month and forward again (or the reverse) returns to the
      same month. */
  lemma PrevNextInverse(c: MonthCursor)
    requires c.Valid()
    ensures NextMonth(PrevMonth(c)) == c
    ensures PrevMonth(NextMonth(c)) == c
  {
    var p, n := PrevMonth(c), NextMonth(c);
    assert p.Valid() && n.Valid();
    if c.month == 0 {
      assert p == MonthCursor(c.year - 1, 11);
    }
    if c.month == 11 {
      assert n == MonthCursor(c.year + 1, 0);
    }
  }

  /** The 1st of the next month follows the last day of this one. */
  lemma NextMonthFollows(c: MonthCursor)
    requires c.Valid()
    ensures MakeDay(NextMonth(c).year, NextMonth(c).month, 1)
         == MakeDay(c.year, c.month, 1) + DaysInMonth(c.year, c.month)
  {
    var r := NextMonth(c);
    var first, lastDay := MakeDay(c.year, c.month, 1), MakeDay(c.year, c.month + 1, 0);
    var next := MakeDay(c.year, c.month + 1, 1);
    assert MakeDay(r.year, r.month, 1) == next;
    assert next == lastDay + 1 by {
      MakeDayStep(c.year, c.month + 1, 0);
    }
    assert lastDay == first + DaysInMonth(c.year, c.month) - 1 by {
      DayZeroOfNextMonth(c.year, c.month);
      MakeDayOffset(c.year, c.month, DaysInMonth(c.year, c.month));
    }
  }

  // ---------------------------------------------------------------------
  // Appointments of a day

  /** `toDateString()` equality: the appointment falls on that local day. */
  predicate OnDay(i: Incident, day: int)
  {
    DayOf(i.appointmentDate) == day
  }

  /** `getAppointmentsForDate`: nothing for a blank cell, otherwise the
      incidents on that day, in store order. */
  function AppointmentsForDate(incidents: seq<Incident>, cell: Option<int>): (r: seq<Incident>)
    ensures cell.None? ==> r == []
    ensures cell.Some? ==> forall i :: multiset(r)[i] == if OnDay(i, cell.value) then multiset(incidents)[i] else 0
    ensures cell.Some? ==> forall i :: i in r <==>
              i in incidents && cell.value * MsPerDay <= i.appointmentDate < (cell.value + 1) * MsPerDay
    ensures SubsequenceOf(r, incidents)
  {
    match cell
    case None => []
    case Some(day) =>
      var onDay := (i: Incident) => OnDay(i, day);
      FilterMembers(incidents, onDay);
      FilterIsSubsequence(incidents, onDay);
      assert forall i: Incident :: OnDay(i, day) <==> day * MsPerDay <= i.appointmentDate < (day + 1) * MsPerDay by {
        forall i: Incident
          ensures OnDay(i, day) <==> day * MsPerDay <= i.appointmentDate < (day + 1) * MsPerDay
        {
          DayBounds(i.appointmentDate, day);
        }
      }
      Filter(incidents, onDay)
  }

  /** An instant lies on exactly one day. */
  lemma DayBounds(t: int, day: int)
    ensures DayOf(t) == day <==> day * MsPerDay <= t < (day + 1) * MsPerDay
  {
    var d := DayOf(t);
    DayOrder(d, day);
    DayOrder(day, d);
  }

  /** A later day starts no earlier than an earlier day ends. */
  lemma DayOrder(a: int, b: int)
    ensures a < b ==> (a + 1) * MsPerDay <= b * MsPerDay
  {
    assert b * MsPerDay - (a + 1) * MsPerDay == (b - a - 1) * MsPerDay;
  }

  /** Two different cells never show the same appointment, and every
      appointment of the store shows in the cell of its own day. */
  lemma {:induction false} DayBuckets(incidents: seq<Incident>, d1: int, d2: int, i: Incident)
    ensures d1 != d2 ==> !(i in AppointmentsForDate(incidents, Some(d1)) && i in AppointmentsForDate(incidents, Some(d2)))
    ensures i in incidents ==> i in AppointmentsForDate(incidents, Some(DayOf(i.appointmentDate)))
  {
    DayBounds(i.appointmentDate, d1);
    DayBounds(i.appointmentDate, d2);
    DayBounds(i.appointmentDate, DayOf(i.appointmentDate));
  }

  // ---------------------------------------------------------------------
  // A day cell

  const CellLimit: nat := 3

  /** What a day cell shows: at most three appointments and, when more
      exist, the number left out ("+n more"). */
  datatype CellView = CellView(shown: seq<Incident>, more: Option<nat>)

  function ViewCell(appointments: seq<Incident>): (v: CellView)
    ensures |v.shown| == if |appointments| < CellLimit then |appointments| else CellLimit
    ensures forall k :: 0 <= k < |v.shown| ==> v.shown[k] == appointments[k]
    ensures v.more.Some? <==> |appointments| > CellLimit
    ensures |v.shown| + v.more.GetOr(0) == |appointments|
  {
    var shown := Take(appointments, CellLimit);
    CellView(shown, if |appointments| > CellLimit then Some(|appointments| - CellLimit) else None)
  }
}
