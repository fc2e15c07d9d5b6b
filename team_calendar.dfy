/**
 * The team calendar, task-manager-frontend/src/components/TeamCalendarView.tsx:
 * the month grid, the Gregorian month length, the `YYYY-MM-DD` day key, the
 * grouping of tasks by due day, and month navigation. The weekday of the
 * 1st and the day a due date falls on (`toISOString`, time-zone dependent)
 * are parameters.
 */
module TeamCalendar {
  import opened Common
  import opened Seqs
  import opened Strings

  /** The calendar's own view of a team task. */
  datatype CalendarTask = CalendarTask(taskName: string, dueDate: Option<string>, status: Status)

  // ------------------------------------------------------------ month length

  predicate LeapYear(y: int)
  {
    y % 4 == 0 && (y % 100 != 0 || y % 400 == 0)
  }

  /**
   * `new Date(y, m + 1, 0).getDate()`: day 0 of the next month is the last
   * day of month `m` (0-based), i.e. the Gregorian length of that month.
   */
  function DaysInMonth(y: int, m: int): (r: nat)
    requires 0 <= m < 12
    ensures 28 <= r <= 31
    ensures r == 29 <==> m == 1 && LeapYear(y)
  {
    if m == 1 then (if LeapYear(y) then 29 else 28)
    else if m == 3 || m == 5 || m == 8 || m == 10 then 30
    else 31
  }

  function YearDays(y: int, months: nat): nat
    requires months <= 12
  {
    if months == 0 then 0 else YearDays(y, months - 1) + DaysInMonth(y, months - 1)
  }

  /** The twelve month lengths add up to the length of the year. */
  lemma YearLength(y: int)
    ensures YearDays(y, 12) == if LeapYear(y) then 366 else 365
  {
    var feb := DaysInMonth(y, 1);
    assert YearDays(y, 1) == 31;
    assert YearDays(y, 2) == 31 + feb;
    assert YearDays(y, 3) == 62 + feb;
    assert YearDays(y, 4) == 92 + feb;
    assert YearDays(y, 5) == 123 + feb;
    assert YearDays(y, 6) == 153 + feb;
    assert YearDays(y, 7) == 184 + feb;
    assert YearDays(y, 8) == 215 + feb;
    assert YearDays(y, 9) == 245 + feb;
    assert YearDays(y, 10) == 276 + feb;
    assert YearDays(y, 11) == 306 + feb;
  }

  // ------------------------------------------------------------ daysArray

  /**
   * `Array.from({ length: first + n }, (_, i) => i >= first ? i - first + 1 : null)`:
   * `first` blank cells for the weekdays before the 1st, then days 1 to n.
   */
  function DaysArray(first: nat, n: nat): (r: seq<Option<nat>>)
    ensures |r| == first + n
  {
    seq(first + n, i requires 0 <= i < first + n => if i >= first then Some(i - first + 1) else None)
  }

  /**
   * The grid opens with exactly `first` blanks, every later cell holds its
   * day, the days strictly increase, and they are exactly 1 to n.
   */
  lemma DaysArraySpec(first: nat, n: nat)
    ensures forall i :: 0 <= i < first ==> DaysArray(first, n)[i].None?
    ensures forall i :: first <= i < first + n ==> DaysArray(first, n)[i] == Some(i - first + 1)
    ensures forall i, j :: first <= i < j < first + n ==>
              DaysArray(first, n)[i].value < DaysArray(first, n)[j].value
    ensures forall d: nat :: Some(d) in DaysArray(first, n) <==> 1 <= d <= n
  {
    var g := DaysArray(first, n);
    forall d: nat ensures Some(d) in g <==> 1 <= d <= n {
      if 1 <= d <= n {
        assert g[first + d - 1] == Some(d);
      }
    }
  }

  // ------------------------------------------------------------ formatDateKey

  /** `${y}-${(m + 1).toString().padStart(2, '0')}-${day.toString().padStart(2, '0')}`. */
  function FormatDateKey(y: int, m: int, day: nat): string
    requires 0 <= m < 12
  {
    IntToString(y) + "-" + PadStart2(NatToString(m + 1)) + "-" + PadStart2(NatToString(day))
  }

  /** A string of digits has no dash in it. */
  lemma DigitsHaveNoDash(s: string)
    requires forall i :: 0 <= i < |s| ==> IsDigit(s[i])
    ensures '-' !in s
  {
    forall i | 0 <= i < |s| ensures s[i] != '-' { assert IsDigit(s[i]); }
  }

  /** Three dash-free fields joined with dashes split back into those three fields. */
  lemma SplitThree(a: string, b: string, c: string)
    requires '-' !in a && '-' !in b && '-' !in c
    ensures Split(a + "-" + b + "-" + c, '-') == [a, b, c]
  {
    var segs := [a, b, c];
    assert Join(segs[2..], '-') == c;
    assert Join(segs[1..], '-') == b + "-" + c;
    assert Join(segs, '-') == a + "-" + (b + "-" + c);
    assert a + "-" + b + "-" + c == a + "-" + (b + "-" + c);
    SplitJoin(segs, '-');
  }

  /**
   * For a year from 0 on and a day below 100, the key is three dash-separated
   * fields: the year's digits, then the 1-based month and the day as two
   * digits each, which read back as those numbers.
   */
  lemma FormatDateKeyFields(y: int, m: int, day: nat)
    requires y >= 0 && 0 <= m < 12 && day < 100
    ensures var f := Split(FormatDateKey(y, m, day), '-');
      && |f| == 3 && f[0] == NatToString(y)
      && |f[1]| == 2 && (forall i :: 0 <= i < 2 ==> IsDigit(f[1][i])) && ParseDecimal(f[1]) == m + 1
      && |f[2]| == 2 && (forall i :: 0 <= i < 2 ==> IsDigit(f[2][i])) && ParseDecimal(f[2]) == day
  {
    var ys, ms, ds := NatToString(y), PadStart2(NatToString(m + 1)), PadStart2(NatToString(day));
    TwoDigits(m + 1);
    TwoDigits(day);
    DigitsHaveNoDash(ys);
    DigitsHaveNoDash(ms);
    DigitsHaveNoDash(ds);
    assert FormatDateKey(y, m, day) == ys + "-" + ms + "-" + ds;
    SplitThree(ys, ms, ds);
  }

  /** Different days of the grid never share a key (for years from 0 on). */
  lemma FormatDateKeyInjective(y1: int, m1: int, d1: nat, y2: int, m2: int, d2: nat)
    requires y1 >= 0 && 0 <= m1 < 12 && d1 < 100
    requires y2 >= 0 && 0 <= m2 < 12 && d2 < 100
    requires FormatDateKey(y1, m1, d1) == FormatDateKey(y2, m2, d2)
    ensures y1 == y2 && m1 == m2 && d1 == d2
  {
    FormatDateKeyFields(y1, m1, d1);
    FormatDateKeyFields(y2, m2, d2);
    ParseNatToString(y1);
    ParseNatToString(y2);
  }

  // ------------------------------------------------------------ taskMap

  /** `if (!task.due_date) return`: a task without a due date, or with an empty one, is skipped. */
  predicate IsDated(t: CalendarTask)
  {
    t.dueDate.Some? && t.dueDate.value != ""
  }

  /** The tasks that `taskMap` files under `key`, given the due-date-to-day function. */
  function OnDay(dayKey: string -> string, key: string): CalendarTask -> bool
  {
    (t: CalendarTask) => IsDated(t) && dayKey(t.dueDate.value) == key
  }

  /** `m` files the tasks of `ts` by day: a bucket per day that has tasks, holding them in order. */
  ghost predicate Buckets(m: map<string, seq<CalendarTask>>, ts: seq<CalendarTask>, dayKey: string -> string)
  {
    (forall k :: k in m <==> Filter(ts, OnDay(dayKey, k)) != [])
    && (forall k :: k in m ==> m[k] == Filter(ts, OnDay(dayKey, k)))
  }

  /** An undated task joins no bucket. */
  lemma BucketsSkip(m: map<string, seq<CalendarTask>>, ts: seq<CalendarTask>, dayKey: string -> string, t: CalendarTask)
    requires Buckets(m, ts, dayKey) && !IsDated(t)
    ensures Buckets(m, ts + [t], dayKey)
  {
    forall k ensures Filter(ts + [t], OnDay(dayKey, k)) == Filter(ts, OnDay(dayKey, k)) {
      FilterAppend(ts, [t], OnDay(dayKey, k));
    }
  }

  /** A dated task is appended to the bucket of its day, which is created if missing. */
  lemma BucketsPush(m: map<string, seq<CalendarTask>>, ts: seq<CalendarTask>, dayKey: string -> string, t: CalendarTask)
    requires Buckets(m, ts, dayKey) && IsDated(t)
    ensures Buckets(m[dayKey(t.dueDate.value) := DayTasks(m, dayKey(t.dueDate.value)) + [t]], ts + [t], dayKey)
  {
    var day := dayKey(t.dueDate.value);
    forall k ensures Filter(ts + [t], OnDay(dayKey, k))
                  == Filter(ts, OnDay(dayKey, k)) + (if k == day then [t] else []) {
      FilterAppend(ts, [t], OnDay(dayKey, k));
    }
  }

  /**
   * The `forEach` that builds `taskMap`: each dated task is pushed onto the
   * bucket of its day, created on first use.
   */
  method BuildTaskMap(tasks: seq<CalendarTask>, dayKey: string -> string)
    returns (m: map<string, seq<CalendarTask>>)
    ensures forall k :: k in m <==> Filter(tasks, OnDay(dayKey, k)) != []
    ensures forall k :: k in m ==> m[k] == Filter(tasks, OnDay(dayKey, k))
  {
    m := map[];
    for i := 0 to |tasks|
      invariant Buckets(m, tasks[..i], dayKey)
    {
      var t := tasks[i];
      assert tasks[..i + 1] == tasks[..i] + [t];
      if !IsDated(t) {
        BucketsSkip(m, tasks[..i], dayKey, t);
        continue;
      }
      BucketsPush(m, tasks[..i], dayKey, t);
      var day := dayKey(t.dueDate.value);
      if day !in m {
        m := m[day := []];
      }
      m := m[day := m[day] + [t]];
    }
    assert tasks[..|tasks|] == tasks;
  }

  /**
   * Every dated task lies in the bucket of its own day and in no other, and
   * an undated task lies in none.
   */
  lemma TaskMapPlacesOnce(tasks: seq<CalendarTask>, dayKey: string -> string, t: CalendarTask, k: string)
    requires t in tasks
    ensures t in Filter(tasks, OnDay(dayKey, k)) <==> IsDated(t) && dayKey(t.dueDate.value) == k
  {
    FilterMembership(tasks, OnDay(dayKey, k), t);
  }

  /** `taskMap[dateKey] || []`: the tasks shown in one grid cell. */
  function DayTasks(m: map<string, seq<CalendarTask>>, key: string): seq<CalendarTask>
  {
    if key in m then m[key] else []
  }

  // ------------------------------------------------------------ month navigation

  /** The component's `currentDate`, reduced to its calendar day (the time of day plays no part). */
  datatype Date = Date(year: int, month: int, day: int)

  predicate ValidDate(d: Date)
  {
    0 <= d.month < 12 && 1 <= d.day <= DaysInMonth(d.year, d.month)
  }

  /** A month count from year 0 split back into a year and a month of that year. */
  function YearAndMonth(total: int): (r: (int, int))
    ensures 0 <= r.1 < 12 && r.0 * 12 + r.1 == total
  {
    (total / 12, total % 12)
  }

  /** Months counted from year 0, so that month arithmetic is plain addition. */
  function MonthIndex(d: Date): int
  {
    d.year * 12 + d.month
  }

  /**
   * `newDate.setMonth(m)` as JavaScript does it: the month overflows into the
   * year, the day of the month is kept, and a day the target month does not
   * have rolls over into the following month.
   */
  function SetMonth(d: Date, m: int): (r: Date)
    requires ValidDate(d)
    ensures ValidDate(r)
    ensures MonthIndex(r) == d.year * 12 + m || MonthIndex(r) == d.year * 12 + m + 1
    ensures MonthIndex(r) == d.year * 12 + m <==> r.day == d.day
    ensures var t := YearAndMonth(d.year * 12 + m);
            MonthIndex(r) == d.year * 12 + m + 1 ==> r.day == d.day - DaysInMonth(t.0, t.1) && r.day < d.day
  {
    var (y, mm) := YearAndMonth(d.year * 12 + m);
    var length := DaysInMonth(y, mm);
    if d.day <= length then Date(y, mm, d.day)
    else if mm == 11 then Date(y + 1, 0, d.day - length)
    else Date(y, mm + 1, d.day - length)
  }

  /**
   * On the 31st of January, "Next" goes to the 3rd of March (2025 is not a
   * leap year), so the calendar shows March and February is skipped.
   */
  lemma SetMonthSkipsFebruary()
    ensures SetMonth(Date(2025, 0, 31), 0 + 1) == Date(2025, 2, 3)
    ensures MonthIndex(SetMonth(Date(2025, 0, 31), 0 + 1)) == MonthIndex(Date(2025, 0, 31)) + 2
  {
    assert !LeapYear(2025);
  }

  /**
   * `changeMonth(offset)` as evidently intended: move to the month `offset`
   * away, keeping the day of the month where that month has it and using
   * its last day otherwise.
   */
  function ShiftMonth(d: Date, offset: int): (r: Date)
    requires ValidDate(d)
    ensures ValidDate(r)
    ensures MonthIndex(r) == MonthIndex(d) + offset
    ensures r.day == if d.day <= DaysInMonth(r.year, r.month) then d.day else DaysInMonth(r.year, r.month)
  {
    var (y, m) := YearAndMonth(MonthIndex(d) + offset);
    var length := DaysInMonth(y, m);
    Date(y, m, if d.day <= length then d.day else length)
  }

  /** The source's arithmetic agrees with the intended one exactly when the day fits the target month. */
  lemma SetMonthAgreesWhenDayFits(d: Date, offset: int)
    requires ValidDate(d)
    ensures SetMonth(d, d.month + offset) == ShiftMonth(d, offset)
        <==> d.day <= DaysInMonth(ShiftMonth(d, offset).year, ShiftMonth(d, offset).month)
  {
    assert d.year * 12 + (d.month + offset) == MonthIndex(d) + offset;
  }

  /** Next then previous returns to the same month, and to the same day when the next month has it. */
  lemma ShiftMonthBack(d: Date)
    requires ValidDate(d)
    ensures MonthIndex(ShiftMonth(ShiftMonth(d, 1), -1)) == MonthIndex(d)
    ensures d.day <= DaysInMonth(ShiftMonth(d, 1).year, ShiftMonth(d, 1).month) ==>
              ShiftMonth(ShiftMonth(d, 1), -1) == d
  {
    var r := ShiftMonth(ShiftMonth(d, 1), -1);
    assert r.year * 12 + r.month == d.year * 12 + d.month;
    assert 0 <= r.month < 12 && 0 <= d.month < 12;
    assert r.year == d.year && r.month == d.month;
  }

  class CalendarState {
    var current: Date
    var selectedDate: Option<string>

    constructor (today: Date)
      requires ValidDate(today)
      ensures current == today && selectedDate == None
    {
      current := today;
      selectedDate := None;
    }

    /** The grid of the month on show, given the weekday (0 = Sunday) of its 1st. */
    function Grid(firstWeekday: nat): (r: seq<Option<nat>>)
      reads this
      requires ValidDate(current)
      ensures |r| == firstWeekday + DaysInMonth(current.year, current.month)
    {
      DaysArray(firstWeekday, DaysInMonth(current.year, current.month))
    }

    /** `changeMonth(offset)`: move `offset` months and always close the day view. */
    method ChangeMonth(offset: int)
      modifies this
      requires ValidDate(current)
      ensures current == ShiftMonth(old(current), offset)
      ensures MonthIndex(current) == MonthIndex(old(current)) + offset
      ensures ValidDate(current)
      ensures selectedDate == None
    {
      current := ShiftMonth(current, offset);
      selectedDate := None;
    }

    /** Clicking a day cell opens the list for that cell's key. */
    method SelectDay(day: nat)
      modifies this
      requires ValidDate(current)
      ensures current == old(current)
      ensures selectedDate == Some(FormatDateKey(current.year, current.month, day))
    {
      selectedDate := Some(FormatDateKey(current.year, current.month, day));
    }

    /** The Close button. */
    method Close()
      modifies this
      ensures selectedDate == None && current == old(current)
    {
      selectedDate := None;
    }
  }
}
