/** The Rails port's expansion of one stored transaction over a window of days. */
module RailsSchedule {
  import opened Seqs
  import opened Calendar
  import opened RailsRecurrence

  /** The stored row as the expansion reads it. */
  datatype RecurringTransaction = RecurringTransaction(name: string, amount: real, recurrenceRule: Rule)

  /** The ScheduledTransaction struct: a Date, a name and an amount. */
  datatype ScheduledTransaction = ScheduledTransaction(date: Day, name: string, amount: real)

  function Dates(sts: seq<ScheduledTransaction>): (r: seq<Day>)
    ensures |r| == |sts| && forall k :: 0 <= k < |sts| ==> r[k] == sts[k].date
  {
    seq(|sts|, k requires 0 <= k < |sts| => sts[k].date)
  }

  /** The filter `rt.recurrence_rule.applies?` over days. */
  function AppliesTo(rule: Rule): Day -> bool {
    d => Applies(rule, d)
  }

  /** The days of `start_date.upto(end_date)` the rule applies to; none unless `start_date < end_date`. */
  function ApplicableDays(rule: Rule, startDate: Day, endDate: Day): seq<Day> {
    if startDate >= endDate then [] else Filter(AppliesTo(rule), DayRange(startDate, endDate))
  }

  /**
   * `expand_recurring_transaction`: one entry per applicable day, in that
   * order, carrying the transaction's name and amount.
   */
  function ExpandRecurringTransaction(rt: RecurringTransaction, startDate: Day, endDate: Day): (r: seq<ScheduledTransaction>)
    ensures Dates(r) == ApplicableDays(rt.recurrenceRule, startDate, endDate)
    ensures forall k :: 0 <= k < |r| ==> r[k].name == rt.name && r[k].amount == rt.amount
  {
    var days := ApplicableDays(rt.recurrenceRule, startDate, endDate);
    var r := seq(|days|, k requires 0 <= k < |days| => ScheduledTransaction(days[k], rt.name, rt.amount));
    assert Dates(r) == days;
    r
  }

  /**
   * The expansion is empty when the window is empty or reversed; otherwise its
   * dates lie in the window, ascend strictly, are exactly the days the rule
   * applies to, and number at most the days of the window.
   */
  lemma ExpansionSpec(rt: RecurringTransaction, startDate: Day, endDate: Day)
    ensures startDate >= endDate ==> ExpandRecurringTransaction(rt, startDate, endDate) == []
    ensures forall k :: 0 <= k < |ExpandRecurringTransaction(rt, startDate, endDate)| ==>
      startDate <= ExpandRecurringTransaction(rt, startDate, endDate)[k].date <= endDate
    ensures StrictlyAscending(Dates(ExpandRecurringTransaction(rt, startDate, endDate)))
    ensures forall d :: d in Dates(ExpandRecurringTransaction(rt, startDate, endDate)) <==>
      startDate < endDate && startDate <= d <= endDate && Applies(rt.recurrenceRule, d)
    ensures startDate < endDate ==> |ExpandRecurringTransaction(rt, startDate, endDate)| <= endDate - startDate + 1
  {
    var r := ExpandRecurringTransaction(rt, startDate, endDate);
    if startDate < endDate {
      var days := DayRange(startDate, endDate);
      assert StrictlyAscending(days);
      FilterAscending(AppliesTo(rt.recurrenceRule), days);
      DayRangeMembers(startDate, endDate);
      forall k | 0 <= k < |r| ensures startDate <= r[k].date <= endDate {
        assert Dates(r)[k] in Dates(r);
      }
    }
  }
}
