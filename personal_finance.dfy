/**
 * The reference model of the recurrence engine (personalfinance.ts):
 * recurrence rules and when they apply, the day-by-day expansion of one
 * recurring transaction over a window, the ordering of scheduled
 * transactions, and the `Budget` aggregate that owns them.
 *
 * Dates are local calendar days (`Calendar.Day`); instants are a day plus a
 * time of day (`Calendar.Instant`). Amounts are JavaScript numbers that are
 * only ever copied, so they are modelled as `real`.
 */
module PersonalFinance {
  import opened Wrappers
  import opened Text
  import opened Seqs
  import opened Calendar

  /** A date rendered as `MM/DD/YYYY`. */
  type DateString = string

  /** A stored rule: the weekly `basis` is already a date string. */
  datatype RecurrenceRule =
    | Weekly(interval: Option<int>, day: int, basis: Option<DateString>)
    | Monthly(day: int)

  datatype RecurringTransaction =
    RecurringTransaction(id: int, name: string, amount: real, recurrenceRule: RecurrenceRule)

  datatype ScheduledTransaction = ScheduledTransaction(date: DateString, name: string, amount: real)

  /** A rule as the user interface submits it: the weekly `basis` is a `Date` or `null`. */
  datatype CreateRecurrenceRule =
    | CreateWeekly(interval: Option<int>, day: int, basis: Option<Instant>)
    | CreateMonthly(day: int)

  datatype CreateRecurringTransaction =
    CreateRecurringTransaction(name: string, amount: real, recurrenceRule: CreateRecurrenceRule)

  // ---------------------------------------------------------------------------
  // Date strings

  /** `n.toString().padStart(2, "0")`. */
  function TwoDigits(n: nat): string {
    PadStart(NatToString(n), 2, '0')
  }

  lemma TwoDigitsValue(n: nat)
    requires n < 100
    ensures |TwoDigits(n)| == 2 && AllDigits(TwoDigits(n)) && DigitsValue(TwoDigits(n)) == n
  {
    var s := NatToString(n);
    if n >= 10 {
      assert |NatToString(n / 10)| == 1;
    } else {
      var t := TwoDigits(n);
      assert t == ['0'] + s;
      assert t[..1] == ['0'];
    }
  }

  lemma SlashJoin(a: string, b: string, y: string)
    requires |a| == 2 && |b| == 2
    ensures var s := a + "/" + b + "/" + y;
      |s| == 6 + |y| && s[..2] == a && s[2] == '/' && s[3..5] == b && s[5] == '/' && s[6..] == y
  {
    var s := a + "/" + b + "/" + y;
    assert s == a + ("/" + (b + ("/" + y)));
  }

  /** `MM/DD/YYYY` for a month, day and year: month and day padded to two digits. */
  function FormatCivil(c: Civil): (s: DateString)
    requires 1 <= c.month <= 12 && 1 <= c.day <= 31
    ensures |s| >= 7 && s[2] == '/' && s[5] == '/'
    ensures AllDigits(s[..2]) && DigitsValue(s[..2]) == c.month
    ensures AllDigits(s[3..5]) && DigitsValue(s[3..5]) == c.day
    ensures s[6..] == IntToString(c.year)
  {
    TwoDigitsValue(c.month);
    TwoDigitsValue(c.day);
    var month := TwoDigits(c.month);
    var day := TwoDigits(c.day);
    var year := IntToString(c.year);
    SlashJoin(month, day, year);
    month + "/" + day + "/" + year
  }

  /**
   * dateStringFromDate: the local calendar day of `d` as `MM/DD/YYYY`, with the
   * 1-based month (getMonth() + 1) and the day zero-padded to two digits and
   * the year unpadded.
   */
  function DateStringFromDate(d: Instant): (s: DateString)
    ensures |s| >= 7 && s[2] == '/' && s[5] == '/'
    ensures AllDigits(s[..2]) && DigitsValue(s[..2]) == CivilFromDays(d.day).month
    ensures AllDigits(s[3..5]) && DigitsValue(s[3..5]) == CivilFromDays(d.day).day
    ensures s[6..] == IntToString(CivilFromDays(d.day).year)
  {
    FormatCivil(CivilFromDays(d.day))
  }

  /**
   * `new Date(s)` on a `MM/DD/YYYY` string: local midnight of that day. Any
   * other string gives an invalid date, modelled as `None`. A day past the end
   * of its month is counted on from the first of the month, into the next one.
   */
  function ParseDateString(s: string): (r: Option<Day>)
    ensures r.Some? ==>
      && |s| >= 7 && s[2] == '/' && s[5] == '/' && AllDigits(s[..2]) && AllDigits(s[3..5]) && ParseInt(s[6..]).Some?
      && 1 <= DigitsValue(s[..2]) <= 12 && 1 <= DigitsValue(s[3..5]) <= 31
      && r.value == DaysFromCivil(Civil(ParseInt(s[6..]).value, DigitsValue(s[..2]), 1)) + DigitsValue(s[3..5]) - 1
  {
    if |s| >= 7 && s[2] == '/' && s[5] == '/' && AllDigits(s[..2]) && AllDigits(s[3..5])
       && ParseInt(s[6..]).Some?
    then
      var month := DigitsValue(s[..2]);
      var day := DigitsValue(s[3..5]);
      if 1 <= month <= 12 && 1 <= day <= 31
      then Some(DaysFromCivil(Civil(ParseInt(s[6..]).value, month, day)))
      else None
    else None
  }

  /** Reading back a formatted date gives midnight of the same local day. */
  lemma ParseDateStringRoundTrip(d: Instant)
    ensures ParseDateString(DateStringFromDate(d)) == Some(d.day)
  {
    ParseIntToString(CivilFromDays(d.day).year);
  }

  /** `new Date(dateStringFromDate(d))`: drops the time of day, keeping the local day. */
  method Normalize(d: Instant) returns (r: Day)
    ensures r == d.day
  {
    ParseDateStringRoundTrip(d);
    r := ParseDateString(DateStringFromDate(d)).value;
  }

  /** Two instants format alike exactly when they fall on the same local day. */
  lemma DateStringSameDay(a: Instant, b: Instant)
    ensures DateStringFromDate(a) == DateStringFromDate(b) <==> a.day == b.day
  {
    if DateStringFromDate(a) == DateStringFromDate(b) {
      ParseDateStringRoundTrip(a);
      ParseDateStringRoundTrip(b);
    }
  }

  // ---------------------------------------------------------------------------
  // Creating a stored transaction

  /** recurringTransactionFromCreate: attach the id and store a weekly basis as its date string. */
  function RecurringTransactionFromCreate(id: int, crt: CreateRecurringTransaction): (rt: RecurringTransaction)
    ensures rt.id == id && rt.name == crt.name && rt.amount == crt.amount
    ensures crt.recurrenceRule.CreateMonthly? ==> rt.recurrenceRule == Monthly(crt.recurrenceRule.day)
    ensures crt.recurrenceRule.CreateWeekly? ==>
      && rt.recurrenceRule.Weekly?
      && rt.recurrenceRule.interval == crt.recurrenceRule.interval
      && rt.recurrenceRule.day == crt.recurrenceRule.day
      && (crt.recurrenceRule.basis.None? <==> rt.recurrenceRule.basis.None?)
      && (crt.recurrenceRule.basis.Some? ==>
            ParseDateString(rt.recurrenceRule.basis.value) == Some(crt.recurrenceRule.basis.value.day))
  {
    match crt.recurrenceRule
    case CreateWeekly(interval, day, basis) =>
      // a Date object is always truthy
      if basis.Some? then
        ParseDateStringRoundTrip(basis.value);
        RecurringTransaction(id, crt.name, crt.amount, Weekly(interval, day, Some(DateStringFromDate(basis.value))))
      else
        RecurringTransaction(id, crt.name, crt.amount, Weekly(interval, day, None))
    case CreateMonthly(day) =>
      RecurringTransaction(id, crt.name, crt.amount, Monthly(day))
  }

  // ---------------------------------------------------------------------------
  // Applicability

  /** A truthy `interval`: present and not 0. */
  predicate IntervalSet(interval: Option<int>) {
    interval.Some? && interval.value != 0
  }

  /** A truthy `basis`: present and not the empty string. */
  predicate BasisSet(basis: Option<DateString>) {
    basis.Some? && basis.value != ""
  }

  /**
   * `(dayDelta / 7.0) % interval == 0` for a whole number of days and a nonzero
   * whole interval: the quotient is zero modulo `interval` only when it is a
   * whole number of weeks that is a multiple of `interval`.
   */
  predicate WeeksMultipleOf(dayDelta: int, interval: int)
    requires interval != 0
  {
    dayDelta % 7 == 0 && (dayDelta / 7) % interval == 0
  }

  /**
   * doesWeeklyRuleApply on the local midnight of day `d`. With both `interval`
   * and `basis` set, the day delta is counted between the two local midnights
   * (exact once the time-zone offset is added back); an unparseable basis gives
   * NaN, which no comparison accepts.
   */
  predicate DoesWeeklyRuleApply(d: Day, rule: RecurrenceRule): (b: bool)
    requires rule.Weekly?
    ensures IntervalSet(rule.interval) != BasisSet(rule.basis) ==> !b
    ensures b && IntervalSet(rule.interval) ==>
              ParseDateString(rule.basis.value).Some? && Weekday(d) == Weekday(ParseDateString(rule.basis.value).value)
    ensures b && !IntervalSet(rule.interval) ==> Weekday(d) == rule.day
  {
    if IntervalSet(rule.interval) && BasisSet(rule.basis) then
      match ParseDateString(rule.basis.value)
      case None => false
      case Some(basisDay) =>
        SameWeekdayWhenWholeWeeks(d, basisDay);
        WeeksMultipleOf(d - basisDay, rule.interval.value)
    else if IntervalSet(rule.interval) || BasisSet(rule.basis) then false
    else Weekday(d) == rule.day
  }

  /** Days a whole number of weeks apart fall on the same weekday. */
  lemma SameWeekdayWhenWholeWeeks(a: Day, b: Day)
    ensures (a - b) % 7 == 0 ==> Weekday(a) == Weekday(b)
  {
    if (a - b) % 7 == 0 {
      var q := (a - b) / 7;
      assert a + 4 == (b + 4) + 7 * q;
      assert (b + 4) + 7 * q == 7 * ((b + 4) / 7 + q) + (b + 4) % 7;
    }
  }

  /**
   * The filter in expandRecurringTransaction: which days a rule selects. A
   * monthly rule selects only days with its day of the month, never a day
   * outside 1..31; a weekly rule without interval and basis never selects a
   * weekday outside 0..6.
   */
  predicate RuleApplies(rule: RecurrenceRule, d: Day): (b: bool)
    ensures b && rule.Monthly? ==> CivilFromDays(d).day == rule.day && 1 <= rule.day <= 31
    ensures b && rule.Weekly? && !IntervalSet(rule.interval) ==> 0 <= rule.day <= 6
  {
    match rule
    case Monthly(day) => DayOfMonth(d) == day
    case Weekly(_, _, _) => DoesWeeklyRuleApply(d, rule)
  }

  function Applicable(rule: RecurrenceRule): Day -> bool {
    d => RuleApplies(rule, d)
  }

  lemma MulAbsBound(m: int, t: int)
    requires m != 0 && t != 0
    ensures m * t >= m || m * t <= -m
    ensures m * t >= -m || m * t <= m
    decreases if t < 0 then 1 - t else t
  {
    if t > 0 {
      assert m * t == m + m * (t - 1);
      if t > 1 { MulAbsBound(m, t - 1); }
    } else {
      assert m * t == -(m * (-t));
      MulAbsBound(m, -t);
    }
  }

  lemma MulMod(m: int, k: int)
    requires m != 0
    ensures (m * k) % m == 0
  {
    var q := (m * k) / m;
    var r := (m * k) % m;
    assert m * k == m * q + r;
    assert m * (k - q) == r;
    if k - q != 0 {
      MulAbsBound(m, k - q);
    }
  }

  /** The weekly period test is "a multiple of 7 * interval days". */
  lemma WeeksMultipleIff(x: int, n: int)
    requires n != 0
    ensures WeeksMultipleOf(x, n) <==> x % (7 * n) == 0
  {
    if WeeksMultipleOf(x, n) {
      var q := x / 7;
      var k := q / n;
      assert q == n * k;
      assert x == (7 * n) * k;
      MulMod(7 * n, k);
    }
    if x % (7 * n) == 0 {
      var k := x / (7 * n);
      assert x == (7 * n) * k;
      assert x == 7 * (n * k);
      MulMod(7, n * k);
      assert x / 7 == n * k;
      MulMod(n, k);
    }
  }

  /**
   * With both interval and basis set, a weekly rule applies exactly on the days
   * whose distance from the basis day is a multiple of 7 * interval; the
   * basis day itself always applies, and the rule's weekday plays no part.
   */
  lemma WeeklyIntervalRule(rule: RecurrenceRule, basisDay: Day, d: Day, otherDay: int)
    requires rule.Weekly? && IntervalSet(rule.interval) && BasisSet(rule.basis)
    requires ParseDateString(rule.basis.value) == Some(basisDay)
    ensures DoesWeeklyRuleApply(d, rule) <==> (d - basisDay) % (7 * rule.interval.value) == 0
    ensures DoesWeeklyRuleApply(basisDay, rule)
    ensures DoesWeeklyRuleApply(d, rule) == DoesWeeklyRuleApply(d, rule.(day := otherDay))
  {
    WeeksMultipleIff(d - basisDay, rule.interval.value);
    WeeksMultipleIff(0, rule.interval.value);
  }

  /**
   * A weekly rule with exactly one of interval and basis set never applies;
   * with neither set it applies exactly on its weekday.
   */
  lemma WeeklyRuleWithoutPeriod(rule: RecurrenceRule, d: Day)
    requires rule.Weekly? && !(IntervalSet(rule.interval) && BasisSet(rule.basis))
    ensures IntervalSet(rule.interval) || BasisSet(rule.basis) ==> !DoesWeeklyRuleApply(d, rule)
    ensures !IntervalSet(rule.interval) && !BasisSet(rule.basis) ==>
              (DoesWeeklyRuleApply(d, rule) <==> Weekday(d) == rule.day)
  {
  }

  /** A weekly rule created with a basis and a nonzero interval applies on the basis day. */
  lemma CreatedWeeklyRuleAppliesOnBasis(id: int, crt: CreateRecurringTransaction)
    requires crt.recurrenceRule.CreateWeekly? && crt.recurrenceRule.basis.Some?
    requires IntervalSet(crt.recurrenceRule.interval)
    ensures RuleApplies(RecurringTransactionFromCreate(id, crt).recurrenceRule, crt.recurrenceRule.basis.value.day)
  {
    var rule := RecurringTransactionFromCreate(id, crt).recurrenceRule;
    var b := crt.recurrenceRule.basis.value;
    assert BasisSet(rule.basis) by {
      assert |DateStringFromDate(b)| >= 7;
    }
    WeeklyIntervalRule(rule, b.day, b.day, rule.day);
  }

  // ---------------------------------------------------------------------------
  // Expansion

  /**
   * What expandRecurringTransaction returns: nothing unless `startDt < endDt`;
   * otherwise the days from the start's local day to the end's, inclusive,
   * that the rule selects.
   */
  function Expansion(rule: RecurrenceRule, startDt: Instant, endDt: Instant): seq<Day> {
    if !InstantLess(startDt, endDt) then []
    else Filter(Applicable(rule), DayRange(startDt.day, endDt.day))
  }

  lemma DayRangeAscending(lo: Day, hi: Day)
    ensures StrictlyAscending(DayRange(lo, hi))
  {
  }

  /**
   * The expansion is strictly ascending, holds exactly the days of the window
   * the rule selects, and has at most one entry per day of the window.
   */
  lemma ExpansionSpec(rule: RecurrenceRule, startDt: Instant, endDt: Instant)
    ensures !InstantLess(startDt, endDt) ==> Expansion(rule, startDt, endDt) == []
    ensures StrictlyAscending(Expansion(rule, startDt, endDt))
    ensures forall d :: d in Expansion(rule, startDt, endDt) <==>
              InstantLess(startDt, endDt) && startDt.day <= d <= endDt.day && RuleApplies(rule, d)
    ensures InstantLess(startDt, endDt) ==> |Expansion(rule, startDt, endDt)| <= endDt.day - startDt.day + 1
  {
    if InstantLess(startDt, endDt) {
      var days := DayRange(startDt.day, endDt.day);
      DayRangeAscending(startDt.day, endDt.day);
      FilterAscending(Applicable(rule), days);
      forall d ensures d in days <==> startDt.day <= d <= endDt.day {
        DayRangeMembership(startDt.day, endDt.day, d);
      }
    }
  }

  /** A monthly rule selects exactly the days of the window with that day of the month. */
  lemma MonthlyExpansion(day: int, startDt: Instant, endDt: Instant, d: Day)
    ensures d in Expansion(Monthly(day), startDt, endDt) <==>
              InstantLess(startDt, endDt) && startDt.day <= d <= endDt.day && DayOfMonth(d) == day
  {
    ExpansionSpec(Monthly(day), startDt, endDt);
  }

  /** A weekly rule with exactly one of interval and basis set expands to nothing. */
  lemma HalfSetWeeklyExpansionEmpty(rule: RecurrenceRule, startDt: Instant, endDt: Instant)
    requires rule.Weekly? && (IntervalSet(rule.interval) != BasisSet(rule.basis))
    ensures Expansion(rule, startDt, endDt) == []
  {
    var r := Expansion(rule, startDt, endDt);
    ExpansionSpec(rule, startDt, endDt);
    if r != [] {
      assert r[0] in r;
      WeeklyRuleWithoutPeriod(rule, r[0]);
    }
  }

  /**
   * expandRecurringTransaction: walks the local days from the normalised start
   * to the normalised end one at a time, then keeps the days the rule selects.
   */
  method ExpandRecurringTransaction(rt: RecurringTransaction, startDt: Instant, endDt: Instant)
    returns (dates: seq<Day>)
    ensures dates == Expansion(rt.recurrenceRule, startDt, endDt)
    ensures !InstantLess(startDt, endDt) ==> dates == []
    ensures StrictlyAscending(dates)
    ensures forall d :: d in dates <==>
              InstantLess(startDt, endDt) && startDt.day <= d <= endDt.day && RuleApplies(rt.recurrenceRule, d)
  {
    if !InstantLess(startDt, endDt) {
      // start >= end: logged, nothing thrown
      ExpansionSpec(rt.recurrenceRule, startDt, endDt);
      return [];
    }
    var normalizedStart := Normalize(startDt);
    var normalizedEnd := Normalize(endDt);

    var datesInRange: seq<Day> := [];
    var currDt := normalizedStart;
    while currDt <= normalizedEnd
      invariant normalizedStart <= currDt <= normalizedEnd + 1
      invariant datesInRange == DayRange(normalizedStart, currDt - 1)
      decreases normalizedEnd - currDt
    {
      assert DayRange(normalizedStart, currDt) == DayRange(normalizedStart, currDt - 1) + [currDt];
      datesInRange := datesInRange + [currDt];
      // Advance by one day
      var date := DayOfMonth(currDt);
      var next := SetDate(currDt, date + 1);
      assert next == currDt + 1;
      currDt := next;
    }
    dates := Filter(Applicable(rt.recurrenceRule), datesInRange);
    ExpansionSpec(rt.recurrenceRule, startDt, endDt);
  }

  // ---------------------------------------------------------------------------
  // Ordering of scheduled transactions

  /** The stand-in for `localeCompare` on names: code-unit order, as -1, 0 or 1. */
  function CompareNames(a: string, b: string): (r: int)
    ensures -1 <= r <= 1
    ensures r < 0 <==> StrLess(a, b)
    ensures r == 0 <==> a == b
    ensures r > 0 <==> StrLess(b, a)
  {
    StrLessTotal(a, b);
    StrLessIrreflexive(a);
    if StrLess(a, b) then -1 else if a == b then 0 else 1
  }

  /** `st1` belongs strictly before `st2`: a smaller date string, or the same one and a smaller name. */
  predicate ScheduledBefore(st1: ScheduledTransaction, st2: ScheduledTransaction) {
    StrLess(st1.date, st2.date) || (st1.date == st2.date && StrLess(st1.name, st2.name))
  }

  /**
   * compareScheduledTransactions: negative when `st1` goes first, positive when
   * `st2` does, and 0 exactly when both date string and name coincide.
   */
  function CompareScheduledTransactions(st1: ScheduledTransaction, st2: ScheduledTransaction): (r: int)
    ensures -1 <= r <= 1
    ensures r < 0 <==> ScheduledBefore(st1, st2)
    ensures r > 0 <==> ScheduledBefore(st2, st1)
    ensures r == 0 <==> st1.date == st2.date && st1.name == st2.name
  {
    StrLessTotal(st1.date, st2.date);
    StrLessTotal(st1.name, st2.name);
    StrLessIrreflexive(st1.date);
    if StrLess(st1.date, st2.date) then -1       // st2.date > st1.date
    else if StrLess(st2.date, st1.date) then 1   // st2.date < st1.date
    else CompareNames(st1.name, st2.name)
  }

  predicate InOrder(a: ScheduledTransaction, b: ScheduledTransaction) {
    CompareScheduledTransactions(a, b) <= 0
  }

  /** The comparator is a total preorder, as Array.prototype.sort requires. */
  lemma InOrderTotalPreorder(a: ScheduledTransaction, b: ScheduledTransaction, c: ScheduledTransaction)
    ensures InOrder(a, b) || InOrder(b, a)
    ensures InOrder(a, b) && InOrder(b, c) ==> InOrder(a, c)
  {
    if InOrder(a, b) && InOrder(b, c) {
      if StrLess(a.date, b.date) && StrLess(b.date, c.date) { StrLessTransitive(a.date, b.date, c.date); }
      if a.date == b.date && b.date == c.date && StrLess(a.name, b.name) && StrLess(b.name, c.name) {
        StrLessTransitive(a.name, b.name, c.name);
      }
    }
  }

  predicate SortedSchedule(s: seq<ScheduledTransaction>) {
    forall i, j :: 0 <= i < j < |s| ==> InOrder(s[i], s[j])
  }

  /** Inserts `x` after every entry that does not compare greater, which keeps the sort stable. */
  function InsertScheduled(x: ScheduledTransaction, s: seq<ScheduledTransaction>): (r: seq<ScheduledTransaction>)
    requires SortedSchedule(s)
    ensures multiset(r) == multiset(s) + multiset{x}
    ensures SortedSchedule(r)
  {
    if s == [] then [x]
    else if CompareScheduledTransactions(x, s[0]) < 0 then
      assert SortedSchedule([x] + s) by {
        forall j | 0 < j < |s| + 1 ensures InOrder(x, ([x] + s)[j]) {
          InOrderTotalPreorder(x, s[0], s[j - 1]);
        }
      }
      [x] + s
    else
      assert InOrder(s[0], x) by { InOrderTotalPreorder(x, s[0], x); }
      var rest := InsertScheduled(x, s[1..]);
      assert s == [s[0]] + s[1..];
      var r := [s[0]] + rest;
      assert SortedSchedule(r) by {
        forall j | 0 < j < |r| ensures InOrder(s[0], r[j]) {
          assert r[j] in multiset(rest);
          if r[j] != x {
            assert r[j] in multiset(s[1..]);
            var k :| 0 <= k < |s[1..]| && s[1..][k] == r[j];
            assert s[k + 1] == r[j];
          }
        }
      }
      r
  }

  /**
   * `expanded.sort(compareScheduledTransactions)`, as a stable insertion sort:
   * the result is ordered by the comparator and is a permutation of the input.
   */
  function SortScheduled(s: seq<ScheduledTransaction>): (r: seq<ScheduledTransaction>)
    ensures multiset(r) == multiset(s)
    ensures SortedSchedule(r)
  {
    if s == [] then []
    else
      assert s == s[..|s| - 1] + [s[|s| - 1]];
      InsertScheduled(s[|s| - 1], SortScheduled(s[..|s| - 1]))
  }

  /** In a sorted schedule, of two entries on the same date the smaller name comes first. */
  lemma SameDateOrderedByName(s: seq<ScheduledTransaction>, i: int, j: int)
    requires SortedSchedule(s) && 0 <= i < |s| && 0 <= j < |s|
    requires s[i].date == s[j].date && StrLess(s[i].name, s[j].name)
    ensures i < j
  {
    StrLessIrreflexive(s[i].name);
    assert !InOrder(s[j], s[i]);
  }

  lemma Era1990Steps()
    ensures (7669 + 719468) / 146097 == 4 && (7669 + 719468) % 146097 == 142749
    ensures (7670 + 719468) / 146097 == 4 && (7670 + 719468) % 146097 == 142750
  {
  }

  lemma YearOfEra1990()
    ensures YearOfEra(142749) == 390 && YearOfEra(142750) == 390
    ensures DaysBeforeYear(390) == 142444
  {
  }

  lemma MonthSteps1990()
    ensures MonthIndex(305) == 9 && DaysBeforeMonthIndex(9) == 275
    ensures MonthIndex(306) == 10 && DaysBeforeMonthIndex(10) == 306
  {
  }

  /** The calendar days either side of the 1990/1991 new year. */
  lemma NewYear1991()
    ensures CivilFromDays(7669) == Civil(1990, 12, 31)
    ensures CivilFromDays(7670) == Civil(1991, 1, 1)
  {
    Era1990Steps();
    YearOfEra1990();
    MonthSteps1990();
  }

  /**
   * The order is that of the `MM/DD/YYYY` strings, which is not the order of
   * the days: any day in January sorts before any day in December, whatever
   * the years.
   */
  lemma JanuarySortsBeforeDecember(a: Day, b: Day)
    requires CivilFromDays(a).month == 1 && CivilFromDays(b).month == 12
    ensures StrLess(DateStringFromDate(Midnight(a)), DateStringFromDate(Midnight(b)))
  {
    JanuaryBeforeDecember(DateStringFromDate(Midnight(a)), DateStringFromDate(Midnight(b)));
  }

  /** 1 January 1991 (day 7670) sorts before the day before it, 31 December 1990. */
  lemma DateStringOrderIsNotChronological(newYear: Day, newYearsEve: Day)
    requires newYear == 7670 && newYearsEve == newYear - 1
    ensures StrLess(DateStringFromDate(Midnight(newYear)), DateStringFromDate(Midnight(newYearsEve)))
  {
    NewYear1991();
    JanuarySortsBeforeDecember(newYear, newYearsEve);
  }

  /** A string whose two leading digits read 1 sorts before one whose leading digits read 12. */
  lemma JanuaryBeforeDecember(a: string, b: string)
    requires |a| >= 2 && |b| >= 2 && AllDigits(a[..2]) && AllDigits(b[..2])
    requires DigitsValue(a[..2]) == 1 && DigitsValue(b[..2]) == 12
    ensures StrLess(a, b)
  {
    assert a[..2][..1] == a[..1] && b[..2][..1] == b[..1];
    assert a[0] == '0' && b[0] == '1';
  }

  // ---------------------------------------------------------------------------
  // The schedule over all stored transactions

  /** The scheduled transaction for one day of `rt`'s expansion. */
  function Occurrence(rt: RecurringTransaction, d: Day): ScheduledTransaction {
    ScheduledTransaction(DateStringFromDate(Midnight(d)), rt.name, rt.amount)
  }

  /** `.map(d => ({ date: dateStringFromDate(d), name: rt.name, amount: rt.amount }))`. */
  function Occurrences(rt: RecurringTransaction, days: seq<Day>): (r: seq<ScheduledTransaction>)
    ensures |r| == |days|
    ensures forall k :: 0 <= k < |days| ==> r[k] == Occurrence(rt, days[k])
  {
    seq(|days|, k requires 0 <= k < |days| => Occurrence(rt, days[k]))
  }

  /** The scheduled transactions one stored transaction contributes to the window. */
  function ScheduledFor(startDt: Instant, endDt: Instant): RecurringTransaction -> seq<ScheduledTransaction> {
    (rt: RecurringTransaction) => Occurrences(rt, Expansion(rt.recurrenceRule, startDt, endDt))
  }

  /** The flatMap over the stored transactions, before sorting. */
  function Expanded(rts: seq<RecurringTransaction>, startDt: Instant, endDt: Instant): seq<ScheduledTransaction> {
    FlatMap(ScheduledFor(startDt, endDt), rts)
  }

  /** What viewScheduledTransactions stores. */
  function Schedule(rts: seq<RecurringTransaction>, startDt: Instant, endDt: Instant): seq<ScheduledTransaction> {
    SortScheduled(Expanded(rts, startDt, endDt))
  }

  lemma OccurrencesMembership(rt: RecurringTransaction, days: seq<Day>, st: ScheduledTransaction)
    ensures st in Occurrences(rt, days) <==> exists d :: d in days && st == Occurrence(rt, d)
  {
    var occ := Occurrences(rt, days);
    if st in occ {
      var i :| 0 <= i < |occ| && occ[i] == st;
      assert days[i] in days;
    }
    if exists d :: d in days && st == Occurrence(rt, d) {
      var d :| d in days && st == Occurrence(rt, d);
      var i :| 0 <= i < |days| && days[i] == d;
      assert occ[i] == st;
    }
  }

  /**
   * The stored schedule is sorted by the comparator, is a permutation of the
   * flattened expansions, and holds exactly the occurrences of the stored
   * transactions; a window that does not open before it closes gives nothing.
   */
  lemma ScheduleSpec(rts: seq<RecurringTransaction>, startDt: Instant, endDt: Instant, st: ScheduledTransaction)
    ensures SortedSchedule(Schedule(rts, startDt, endDt))
    ensures multiset(Schedule(rts, startDt, endDt)) == multiset(Expanded(rts, startDt, endDt))
    ensures st in Schedule(rts, startDt, endDt) <==>
      exists k, d :: 0 <= k < |rts| && d in Expansion(rts[k].recurrenceRule, startDt, endDt) && st == Occurrence(rts[k], d)
  {
    FlatMapMembership(ScheduledFor(startDt, endDt), rts, st);
    forall k | 0 <= k < |rts| {
      OccurrencesMembership(rts[k], Expansion(rts[k].recurrenceRule, startDt, endDt), st);
    }
    assert st in Schedule(rts, startDt, endDt) <==> st in multiset(Schedule(rts, startDt, endDt));
  }

  /** One more stored transaction adds its occurrences at the end of the flatMap. */
  lemma ExpandedStep(rts: seq<RecurringTransaction>, i: int, startDt: Instant, endDt: Instant, dates: seq<Day>)
    requires 0 <= i < |rts| && dates == Expansion(rts[i].recurrenceRule, startDt, endDt)
    ensures Expanded(rts[..i + 1], startDt, endDt) == Expanded(rts[..i], startDt, endDt) + Occurrences(rts[i], dates)
  {
    assert rts[..i + 1][..i] == rts[..i];
  }

  // ---------------------------------------------------------------------------
  // Id counters

  /** The counter type under which stored transactions get their ids. */
  const RecurringTransactionType: string := "RecurringTransaction"

  /** The counter genId keeps for `t`: the last id handed out; 0 when there is none (absent and 0 are both falsy). */
  function IdCounter(ids: map<string, int>, t: string): int {
    if t in ids then ids[t] else 0
  }

  /**
   * genId's effect on the counters, as (counters after, id returned): the id is
   * one past the counter, so 1 when the entry is absent or 0, and only the
   * entry for `t` changes.
   */
  function NextId(ids: map<string, int>, t: string): (r: (map<string, int>, int))
    ensures r.1 == IdCounter(ids, t) + 1
    ensures r.0 == ids[t := r.1]
    ensures forall u :: u != t ==> IdCounter(r.0, u) == IdCounter(ids, u)
  {
    if t in ids && ids[t] != 0 then (ids[t := ids[t] + 1], ids[t] + 1)
    else (ids[t := 1], 1)
  }

  /** The ids returned by `n` successive genId(t) calls. */
  function IdsHandedOut(ids: map<string, int>, t: string, n: nat): seq<int>
    decreases n
  {
    if n == 0 then []
    else
      var next := NextId(ids, t);
      [next.1] + IdsHandedOut(next.0, t, n - 1)
  }

  /** Successive calls count up from the counter; for a fresh type the k-th call (from 1) returns k. */
  lemma {:induction false} IdsCountUp(ids: map<string, int>, t: string, n: nat)
    ensures |IdsHandedOut(ids, t, n)| == n
    ensures forall k :: 0 <= k < n ==> IdsHandedOut(ids, t, n)[k] == IdCounter(ids, t) + k + 1
    ensures t !in ids ==> forall k :: 0 <= k < n ==> IdsHandedOut(ids, t, n)[k] == k + 1
    decreases n
  {
    if n > 0 {
      var next := NextId(ids, t);
      IdsCountUp(next.0, t, n - 1);
      assert IdCounter(next.0, t) == IdCounter(ids, t) + 1;
    }
  }

  // ---------------------------------------------------------------------------
  // The Budget aggregate

  class Budget {
    var recurringTransactions: seq<RecurringTransaction>
    var scheduledTransactions: seq<ScheduledTransaction>
    var error: Option<string>
    var ids: map<string, int>

    /**
     * The stored transactions carry strictly increasing ids, each at least 1
     * and at most the counter for their type.
     */
    ghost predicate Valid()
      reads this
    {
      var top := IdCounter(ids, RecurringTransactionType);
      0 <= top
      && (forall i :: 0 <= i < |recurringTransactions| ==> 1 <= recurringTransactions[i].id <= top)
      && (forall i, j :: 0 <= i < j < |recurringTransactions| ==>
            recurringTransactions[i].id < recurringTransactions[j].id)
    }

    constructor ()
      ensures recurringTransactions == [] && scheduledTransactions == []
      ensures error == None && ids == map[]
      ensures Valid()
    {
      recurringTransactions := [];
      scheduledTransactions := [];
      error := None;
      ids := map[];
    }

    /** genId: bumps the counter for `t` and returns the new value; nothing else changes. */
    method GenId(t: string) returns (id: int)
      modifies this
      ensures (ids, id) == NextId(old(ids), t)
      ensures recurringTransactions == old(recurringTransactions)
      ensures scheduledTransactions == old(scheduledTransactions) && error == old(error)
      ensures old(Valid()) ==> Valid()
    {
      if t in ids && ids[t] != 0 {
        ids := ids[t := ids[t] + 1];
        return ids[t];
      }
      ids := ids[t := 1];
      return 1;
    }

    /**
     * addRecurringTransaction: appends one stored transaction built from `crt`
     * with the next id, leaving the earlier ones as they were.
     */
    method AddRecurringTransaction(crt: CreateRecurringTransaction)
      modifies this
      ensures var id := IdCounter(old(ids), RecurringTransactionType) + 1;
        ids == old(ids)[RecurringTransactionType := id]
        && recurringTransactions == old(recurringTransactions) + [RecurringTransactionFromCreate(id, crt)]
      ensures scheduledTransactions == old(scheduledTransactions) && error == old(error)
      ensures old(Valid()) ==> Valid()
    {
      var id := GenId(RecurringTransactionType);
      recurringTransactions := recurringTransactions + [RecurringTransactionFromCreate(id, crt)];
    }

    /** viewRecurringTransactions: the stored list itself. */
    method ViewRecurringTransactions() returns (r: seq<RecurringTransaction>)
      ensures r == recurringTransactions
    {
      r := recurringTransactions;
    }

    /**
     * viewScheduledTransactions: stores the sorted schedule of the stored
     * transactions over [start, end] and changes nothing else, so a second call
     * with the same window stores the same schedule.
     */
    method ViewScheduledTransactions(start: Instant, end: Instant)
      modifies this
      ensures scheduledTransactions == Schedule(old(recurringTransactions), start, end)
      ensures recurringTransactions == old(recurringTransactions)
      ensures ids == old(ids) && error == old(error)
    {
      var rts := recurringTransactions;
      var expanded: seq<ScheduledTransaction> := [];
      var i := 0;
      while i < |rts|
        invariant 0 <= i <= |rts|
        invariant expanded == Expanded(rts[..i], start, end)
        invariant unchanged(this)
      {
        var rt := rts[i];
        var dates := ExpandRecurringTransaction(rt, start, end);
        ExpandedStep(rts, i, start, end, dates);
        expanded := expanded + Occurrences(rt, dates);
        i := i + 1;
      }
      assert rts[..|rts|] == rts;
      expanded := SortScheduled(expanded);
      scheduledTransactions := expanded;
    }
  }
}
