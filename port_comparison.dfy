/**
 * The reference model and the Rails port side by side: where their rules and
 * expansions agree, and inputs on which they do not.
 */
module PortComparison {
  import opened Wrappers
  import opened Seqs
  import opened Text
  import opened Calendar
  import PF = PersonalFinance
  import RR = RailsRecurrence
  import RS = RailsSchedule

  /** The Rails struct holding the same fields as a reference rule. */
  function ToRails(rule: PF.RecurrenceRule): RR.Rule {
    match rule
    case Monthly(day) => RR.Monthly(day)
    case Weekly(interval, day, basis) => RR.Weekly(interval, day, basis)
  }

  /** Monthly rules, and weekly rules with neither interval nor basis set, apply on the same days in both. */
  lemma RulesAgree(rule: PF.RecurrenceRule, d: Day)
    requires rule.Monthly? || (!PF.IntervalSet(rule.interval) && !PF.BasisSet(rule.basis))
    ensures PF.RuleApplies(rule, d) == RR.Applies(ToRails(rule), d)
  {
  }

  /**
   * A weekly rule with only one of interval and basis set never applies in the
   * reference model, while the Rails port applies it on every matching weekday.
   */
  lemma HalfSetWeeklyDiverges(rule: PF.RecurrenceRule, d: Day)
    requires rule.Weekly? && PF.IntervalSet(rule.interval) != PF.BasisSet(rule.basis)
    requires Weekday(d) == rule.day
    ensures !PF.RuleApplies(rule, d) && RR.Applies(ToRails(rule), d)
  {
  }

  /**
   * A fortnightly rule whose basis reads back as day `b`: one week after the
   * basis, on the same weekday, the reference model skips the day and the
   * Rails port, ignoring interval and basis, does not.
   */
  lemma FortnightlyDiverges(basis: string, b: Day)
    requires PF.ParseDateString(basis) == Some(b)
    ensures var rule := PF.Weekly(Some(2), Weekday(b), Some(basis));
      !PF.RuleApplies(rule, b + 7) && RR.Applies(ToRails(rule), b + 7)
  {
    var rule := PF.Weekly(Some(2), Weekday(b), Some(basis));
    assert PF.BasisSet(rule.basis);
    PF.WeeklyIntervalRule(rule, b, b + 7, Weekday(b));
    WeekdayPeriodic(b);
  }

  /** Every other Thursday from 1 January 1970: 8 January is where the ports part. */
  lemma FortnightlyFromEpoch()
    ensures var rule := PF.Weekly(Some(2), 4, Some("01/01/1970"));
      !PF.RuleApplies(rule, 7) && RR.Applies(ToRails(rule), 7)
  {
    var s := "01/01/1970";
    assert s[..2] == "01" && s[3..5] == "01" && s[6..] == "1970";
    assert DigitsValue("01") == 1 by {
      assert "01"[..1] == "0";
    }
    assert DigitsValue("1970") == 1970 by {
      assert "1970"[..3] == "197" && "197"[..2] == "19" && "19"[..1] == "1";
    }
    assert DaysFromCivil(Civil(1970, 1, 1)) == 0;
    assert PF.ParseDateString(s) == Some(0);
    FortnightlyDiverges("01/01/1970", 0);
  }

  /**
   * Over a window of whole days, the two expansions select the same days
   * whenever the rules agree day by day.
   */
  lemma ExpansionsAgree(rule: PF.RecurrenceRule, a: Day, b: Day)
    requires rule.Monthly? || (!PF.IntervalSet(rule.interval) && !PF.BasisSet(rule.basis))
    ensures PF.Expansion(rule, Midnight(a), Midnight(b)) == RS.ApplicableDays(ToRails(rule), a, b)
  {
    if a < b {
      var days := DayRange(a, b);
      forall k | 0 <= k < |days| ensures PF.Applicable(rule)(days[k]) == RS.AppliesTo(ToRails(rule))(days[k]) {
        RulesAgree(rule, days[k]);
      }
      FilterCongruent(PF.Applicable(rule), RS.AppliesTo(ToRails(rule)), days);
    }
  }

  /**
   * Two instants on the same day, the first earlier: the reference model
   * expands over that one day, the Rails port (comparing dates) gives nothing.
   */
  lemma SameDayWindowDiverges(rule: PF.RecurrenceRule, d: Day, t: TimeOfDay)
    requires t > 0 && PF.RuleApplies(rule, d)
    ensures PF.Expansion(rule, Midnight(d), Instant(d, t)) == [d]
    ensures RS.ApplicableDays(ToRails(rule), d, d) == []
  {
    assert DayRange(d, d) == [d];
  }
}
