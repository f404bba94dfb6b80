/**
 * The Rails port's rule structs, RecurrenceRule::Monthly and
 * RecurrenceRule::Weekly: a rule decides, for a calendar day, whether it falls
 * on it, and renders itself for logging.
 */
module RailsRecurrence {
  import opened Wrappers
  import opened Text
  import opened Calendar

  /**
   * The struct fields. Weekly keeps `interval` and `basis` (nil being `None`)
   * but, unlike the reference model, never reads them.
   */
  datatype Rule =
    | Monthly(day: int)
    | Weekly(interval: Option<int>, day: int, basis: Option<string>)

  /** `applies?(date)`: the day of the month (Monthly) or the weekday (Weekly) equals `day`. */
  predicate Applies(rule: Rule, date: Day) {
    match rule
    case Monthly(day) => day == DayOfMonth(date)
    case Weekly(_, day, _) => day == Weekday(date)
  }

  /** A monthly rule only looks at the day of the month, never at month or year. */
  lemma MonthlyOnlyReadsDayOfMonth(day: int, d1: Day, d2: Day)
    requires DayOfMonth(d1) == DayOfMonth(d2)
    ensures Applies(Monthly(day), d1) == Applies(Monthly(day), d2)
  {
  }

  /** A monthly day outside 1..31 matches no date. */
  lemma MonthlyOutOfRange(day: int, d: Day)
    requires day < 1 || day > 31
    ensures !Applies(Monthly(day), d)
  {
  }

  /** A weekly rule's interval and basis have no effect on whether it applies. */
  lemma WeeklyIgnoresIntervalAndBasis(i1: Option<int>, i2: Option<int>, b1: Option<string>, b2: Option<string>, day: int, d: Day)
    ensures Applies(Weekly(i1, day, b1), d) == Applies(Weekly(i2, day, b2), d)
  {
  }

  /** A weekly rule repeats every seven days. */
  lemma WeeklyPeriodic(rule: Rule, d: Day)
    requires rule.Weekly?
    ensures Applies(rule, d + 7) == Applies(rule, d)
  {
    WeekdayPeriodic(d);
  }

  /** A weekly day outside 0..6 matches no date. */
  lemma WeeklyOutOfRange(rule: Rule, d: Day)
    requires rule.Weekly? && (rule.day < 0 || rule.day > 6)
    ensures !Applies(rule, d)
  {
  }

  /** `#{basis}`: nil interpolates as the empty string. */
  function BasisText(basis: Option<string>): string {
    match basis
    case None => ""
    case Some(b) => b
  }

  /**
   * `inspect`: `monthly:day=<day>` or `weekly:day=<day>;basis=<basis>`. The
   * day can be read back from the text after the tag, and a weekly rule's
   * interval is not rendered at all.
   */
  function Inspect(rule: Rule): (s: string)
    ensures rule.Monthly? ==> |s| > 12 && s[..12] == "monthly:day=" && ParseInt(s[12..]) == Some(rule.day)
    ensures rule.Weekly? ==>
      var b := BasisText(rule.basis);
      |s| > 18 + |b| && s[..11] == "weekly:day=" && ParseInt(s[11..|s| - |b| - 7]) == Some(rule.day)
      && s[|s| - |b| - 7..|s| - |b|] == ";basis=" && s[|s| - |b|..] == b
  {
    ParseIntToString(rule.day);
    match rule
    case Monthly(day) =>
      assert ("monthly:day=" + IntToString(day))[12..] == IntToString(day);
      "monthly:day=" + IntToString(day)
    case Weekly(_, day, basis) =>
      var d := IntToString(day);
      var b := BasisText(basis);
      var s := "weekly:day=" + d + ";basis=" + b;
      assert s[11..|s| - |b| - 7] == d;
      s
  }

  /** The rendering of a weekly rule does not depend on its interval. */
  lemma InspectOmitsInterval(i1: Option<int>, i2: Option<int>, day: int, basis: Option<string>)
    ensures Inspect(Weekly(i1, day, basis)) == Inspect(Weekly(i2, day, basis))
  {
  }
}
