/**
 * `last_week_window` of weekly_digest.py: the Monday-to-Sunday week before
 * the week that holds `today`, as two ISO date strings. The clock read of
 * the source is the parameter `today`.
 */
module WeeklyWindow {
  import opened Wrappers
  import Dates

  /** `last_week_window(today)`; None where the date arithmetic raises
      OverflowError (a `today` in the first two weeks of year 1). */
  function LastWeekWindow(today: Dates.Date): Option<(string, string)>
    requires Dates.Valid(today)
  {
    match WindowDays(today)
    case None => None
    case Some((start, end)) => Some((Dates.Iso(start), Dates.Iso(end)))
  }

  /** The two dates `last_week_window` formats: `today` less its weekday
      plus seven days, and six days after that. */
  function WindowDays(today: Dates.Date): (r: Option<(Dates.Date, Dates.Date)>)
    requires Dates.Valid(today)
    ensures r.Some? ==> Dates.Valid(r.value.0) && Dates.Valid(r.value.1)
  {
    var dow := Dates.Weekday(Dates.Ordinal(today));
    match Dates.AddDays(today, -(dow + 7))
    case None => None
    case Some(start) =>
      match Dates.AddDays(start, 6)
      case None => None
      case Some(end) => Some((start, end))
  }

  /** The ordinal of the Monday one week before the week that holds day
      `n`. */
  function PreviousMonday(n: int): int
  {
    n - Dates.Weekday(n) - 7
  }

  /** The window exists unless it would start before 0001-01-01; then its
      days are the previous Monday and the day six later. */
  lemma WindowDaysAre(today: Dates.Date)
    requires Dates.Valid(today)
    ensures WindowDays(today).Some? <==> PreviousMonday(Dates.Ordinal(today)) >= 1
    ensures WindowDays(today).Some? ==>
      var m := PreviousMonday(Dates.Ordinal(today));
      && Dates.Ordinal(WindowDays(today).value.0) == m
      && Dates.Ordinal(WindowDays(today).value.1) == m + 6
  {
    var n := Dates.Ordinal(today);
    var first := Dates.AddDays(today, -(Dates.Weekday(n) + 7));
    if first.Some? {
      assert Dates.Ordinal(first.value) + 6 < n;
    }
  }

  /** The previous Monday is a Monday, the day six later a Sunday, and that
      Sunday lies one to seven days (the weekday of day `n` plus one) before
      day `n`. */
  lemma PreviousWeek(n: int, monday: int, sunday: int)
    requires monday == PreviousMonday(n) && sunday == monday + 6
    ensures Dates.Weekday(monday) == 0 && Dates.Weekday(sunday) == 6
    ensures n - sunday == Dates.Weekday(n) + 1
    ensures 1 <= n - sunday <= 7
  {
    var w := Dates.Weekday(n);
    var q := (n + 6) / 7;
    assert n + 6 == 7 * q + w;
    assert monday + 6 == 7 * (q - 1);
    assert sunday + 6 == 7 * (q - 1) + 6;
  }

  /** The window runs from a Monday to the Sunday six days later, and ends
      one to seven days (the weekday of `today` plus one) before `today`. */
  lemma WindowWeek(today: Dates.Date)
    requires Dates.Valid(today) && WindowDays(today).Some?
    ensures var (start, end) := WindowDays(today).value;
      var n := Dates.Ordinal(today);
      && Dates.Weekday(Dates.Ordinal(start)) == 0
      && Dates.Weekday(Dates.Ordinal(end)) == 6
      && n - Dates.Ordinal(end) == Dates.Weekday(n) + 1
      && 1 <= n - Dates.Ordinal(end) <= 7
  {
    var (start, end) := WindowDays(today).value;
    var n := Dates.Ordinal(today);
    WindowDaysAre(today);
    PreviousWeek(n, Dates.Ordinal(start), Dates.Ordinal(end));
  }

  /** The window exists unless it would start before 0001-01-01; then both
      strings read back as dates: the start is a Monday, the end the Sunday
      six days later, the end lies one to seven days before `today` (its
      weekday plus one), and the start is one week before the Monday of the
      week that holds `today`. */
  lemma LastWeekWindowIs(today: Dates.Date)
    requires Dates.Valid(today)
    ensures LastWeekWindow(today).Some? <==> PreviousMonday(Dates.Ordinal(today)) >= 1
    ensures LastWeekWindow(today).Some? ==>
      var (s, e) := LastWeekWindow(today).value;
      var n := Dates.Ordinal(today);
      && Dates.ParseIso(s).Some? && Dates.ParseIso(e).Some?
      && var start, end := Dates.Ordinal(Dates.ParseIso(s).value), Dates.Ordinal(Dates.ParseIso(e).value);
      && start == n - Dates.Weekday(n) - 7
      && end == start + 6
      && Dates.Weekday(start) == 0
      && Dates.Weekday(end) == 6
      && n - end == Dates.Weekday(n) + 1
      && 1 <= n - end <= 7
  {
    WindowDaysAre(today);
    if WindowDays(today).Some? {
      var (start, end) := WindowDays(today).value;
      WindowWeek(today);
      Dates.ParseIsoOfIso(start);
      Dates.ParseIsoOfIso(end);
      assert LastWeekWindow(today).value == (Dates.Iso(start), Dates.Iso(end));
    }
  }
}
