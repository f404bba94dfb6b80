# Recurring transactions and their schedule, in Dafny

A user defines recurring transactions, for example "rent, monthly on the 3rd" or
"gym, every other Thursday". The system shows the dated occurrences
(scheduled transactions) that fall inside a window of days. This project
models the engine that does this, in both of its implementations.

- **Reference model** (`personalfinance.ts`), module `PersonalFinance`:
  - dates formatted as `MM/DD/YYYY` strings;
  - creation requests turned into stored transactions;
  - the monthly and weekly rules;
  - the day-by-day expansion of one transaction;
  - the comparator for scheduled transactions;
  - the `Budget` aggregate, a class with id counters and a cached, sorted schedule.
- **Rails port**:
  - the rule structs `RecurrenceRule::Monthly` and `RecurrenceRule::Weekly`, module `RailsRecurrence`;
  - `ScheduledTransaction.expand_recurring_transaction`, module `RailsSchedule`;
  - the database string codec `RecurrenceRuleType`, which stores a rule as `<type>::k1=v1;k2=v2`, module `RecurrenceRuleType`.
- **UI client** (`react_ui/src/state.ts`), module `ClientState`: the JSON normalisers and the synchronous state updates of class `Client`.
- **Port comparison**, module `PortComparison`: where the two implementations agree, and concrete inputs where they do not.

Shared modules:

- `Calendar` models a date as a local calendar day: an integer counted from 1 January 1970. An instant is a day plus the local time of day. It converts days to and from the proleptic Gregorian (year, month, day) triple. `CivilFromDays` is proved to give a valid date that maps back to the same day.
- `Text` holds decimal rendering and parsing, padding, code-unit string order, `join` and substring search.
- `Seqs` holds `filter`, `flatMap` and ascending order.

Imperative code stays imperative:

- `expandRecurringTransaction` is a `while` loop that pushes each day and then advances with `setDate`.
- `Budget.viewScheduledTransactions` loops over the stored transactions.
- `RecurrenceRuleType.cast` builds its attribute map pair by pair.

Each of these is proved against a specification function (`Expansion`, `Schedule`, `CastSpec`). The properties of those functions are proved as lemmas.

Modelling choices:

- **Weekly interval test.** `(dayDelta / 7.0) % interval == 0` becomes `dayDelta % 7 == 0 && (dayDelta / 7) % interval == 0`. This is exact for an integer day delta and a nonzero integer interval, because a fractional quotient never has a zero remainder. `WeeksMultipleIff` shows that the test means "a multiple of 7·interval days".
- **Truthiness.** `interval` counts as set when it is present and not 0. A basis string counts as set when it is present and not empty.
- **Reading a basis back.** The reference model stores a weekly basis as a `MM/DD/YYYY` string and reads it back with `new Date(...)`. Reading is modelled for the `MM/DD/YYYY` form the model writes: two-digit month 1..12, two-digit day 1..31, then a year. An overlong day rolls over into the next month, as `Date` does. Every other string is an invalid date, so the rule does not apply.
- **Instants and days.** `startDt >= endDt` is compared on the full instants. The walk itself runs over the local days of the two instants.

## Model

| member | source | states |
|---|---|---|
| Calendar.CivilFromDays | personalfinance.ts:6-8 | the month, day and year a `Date` reports for a local day form a valid Gregorian date that maps back to that day |
| Calendar.SetDate | personalfinance.ts:117-120 | `setDate(getDate() + 1)` moves to the next day, month and year boundaries included |
| PersonalFinance.DateStringFromDate | personalfinance.ts:5-11 | the result is `MM/DD/YYYY`: two digits holding the 1-based month, a slash, two digits holding the day, a slash, then the unpadded year |
| PersonalFinance.DateStringSameDay | personalfinance.ts:5-11 | two instants get the same date string exactly when they fall on the same local day |
| PersonalFinance.ParseDateString | personalfinance.ts:86 | a string reads as a date only in the form `MM/DD/YYYY` with month 1..12 and day 1..31; the day is counted on from the first of that month, so a day past the month's end rolls into the next month |
| PersonalFinance.ParseDateStringRoundTrip | personalfinance.ts:109-110 | `new Date(dateStringFromDate(d))` is local midnight of `d`'s day |
| PersonalFinance.Normalize | personalfinance.ts:109-110 | normalising an instant yields its local day |
| PersonalFinance.NewYear1991 | personalfinance.ts:5-11 | day 7669 is 31 December 1990 and day 7670 is 1 January 1991 |
| PersonalFinance.RecurringTransactionFromCreate | personalfinance.ts:62-74 | the id is set; name and amount are copied; a monthly rule passes through; a weekly rule keeps interval and day; its basis is null exactly when the request's basis is, and otherwise reads back as the request's day |
| PersonalFinance.CreatedWeeklyRuleAppliesOnBasis | personalfinance.ts:62-92 | a created weekly rule with a set interval and a basis applies on the basis day |
| PersonalFinance.WeeksMultipleIff | personalfinance.ts:87-91 | the whole-weeks test with interval n holds exactly when the day delta is a multiple of 7·n |
| PersonalFinance.DoesWeeklyRuleApply | personalfinance.ts:84-99 | a rule with exactly one of interval and basis set never applies; when a rule with an interval applies, its basis reads as a date and the day falls on the basis's weekday; when a rule without one applies, the day falls on weekday `day` |
| PersonalFinance.SameWeekdayWhenWholeWeeks | personalfinance.ts:87-91 | days a whole number of weeks apart fall on the same weekday |
| PersonalFinance.WeeklyIntervalRule | personalfinance.ts:84-92 | with interval and basis both set, the rule applies exactly when the day's distance from the basis is a multiple of 7·interval; it applies on the basis; `day` plays no part |
| PersonalFinance.WeeklyRuleWithoutPeriod | personalfinance.ts:94-98 | with exactly one of interval and basis set the rule never applies; with neither set it applies exactly on weekday `day` |
| PersonalFinance.RuleApplies | personalfinance.ts:123-132 | a monthly rule selects only days whose calendar date has its day of the month, and so never a day outside 1..31; a weekly rule without an interval never selects a weekday outside 0..6 |
| PersonalFinance.ExpansionSpec | personalfinance.ts:103-133 | the expansion is empty unless start < end; otherwise it holds exactly the days from the start's day to the end's day that the rule selects, strictly ascending, at most one per day |
| PersonalFinance.MonthlyExpansion | personalfinance.ts:123-126 | a monthly rule selects exactly the days of the window with that day of the month |
| PersonalFinance.HalfSetWeeklyExpansionEmpty | personalfinance.ts:94-96 | a weekly rule with only one of interval and basis set expands to nothing over any window |
| PersonalFinance.ExpandRecurringTransaction | personalfinance.ts:103-133 | the day walk returns exactly the expansion: empty when start >= end, strictly ascending, and holding exactly the in-window days the rule selects |
| PersonalFinance.CompareNames | personalfinance.ts:143 | the name comparison is negative, zero or positive exactly when the first name sorts before, equals, or sorts after the second |
| PersonalFinance.CompareScheduledTransactions | personalfinance.ts:137-145 | negative exactly when the first entry has the smaller date string, or the same one and the smaller name; positive in the mirror case; zero exactly when date and name coincide |
| PersonalFinance.InOrderTotalPreorder | personalfinance.ts:137-145 | the comparator is total and transitive |
| PersonalFinance.InsertScheduled | personalfinance.ts:168 | inserting into a sorted list gives a sorted list holding the old entries plus the new one |
| PersonalFinance.SortScheduled | personalfinance.ts:168 | the sort gives a permutation of its input, ordered by the comparator |
| PersonalFinance.SameDateOrderedByName | personalfinance.ts:137-145 | in a sorted schedule, of two entries on the same date the one with the smaller name ("A") comes before the larger ("B") |
| PersonalFinance.DateStringOrderIsNotChronological | personalfinance.ts:138-141 | the date-string order puts 1 January 1991 (day 7670) before the day before it, 31 December 1990 |
| PersonalFinance.JanuarySortsBeforeDecember | personalfinance.ts:138-141 | the date string of any day in January sorts before that of any day in December, whatever the years |
| PersonalFinance.JanuaryBeforeDecember | personalfinance.ts:138-141 | a date string with month 01 sorts before one with month 12, whatever the years |
| PersonalFinance.Occurrences | personalfinance.ts:164-165 | each expanded day becomes one entry with that day's date string and the transaction's name and amount, in order |
| PersonalFinance.OccurrencesMembership | personalfinance.ts:164-165 | an entry is among a transaction's occurrences exactly when it is the occurrence of one of its days |
| PersonalFinance.ExpandedStep | personalfinance.ts:163-166 | the flatMap over one more transaction appends that transaction's occurrences |
| PersonalFinance.ScheduleSpec | personalfinance.ts:162-171 | the stored schedule is sorted, is a permutation of the flattened expansions, and holds exactly the occurrences of the stored transactions' expanded days |
| PersonalFinance.NextId | personalfinance.ts:173-183 | `genId(t)` returns one past the old counter (so 1 when it is absent or 0) and changes only the entry for `t` |
| PersonalFinance.IdsCountUp | personalfinance.ts:173-183 | successive `genId(t)` calls return consecutive ids; for a fresh type the n-th call returns n |
| PersonalFinance.Budget.constructor | personalfinance.ts:148-152 | a new budget has no transactions, an empty schedule, no error and no counters |
| PersonalFinance.Budget.GenId | personalfinance.ts:173-183 | the counters and the returned id are those of `NextId`; nothing else changes; the id invariant is kept |
| PersonalFinance.Budget.AddRecurringTransaction | personalfinance.ts:154-156 | exactly one transaction, built with the next id, is appended; earlier ones are untouched; the counter moves on by one; the id invariant is kept |
| PersonalFinance.Budget.ViewRecurringTransactions | personalfinance.ts:158-160 | returns the stored list |
| PersonalFinance.Budget.ViewScheduledTransactions | personalfinance.ts:162-171 | the stored schedule becomes the sorted schedule of the stored transactions over the window; transactions, counters and error are unchanged, so repeating the call stores the same schedule |
| RailsRecurrence.Applies | rails_api/app/models/recurrence_rule/weekly.rb:3-5 | a weekly rule applies exactly when the weekday equals `day`; a monthly rule exactly when the day of the month does |
| RailsRecurrence.MonthlyOnlyReadsDayOfMonth | rails_api/app/models/recurrence_rule/monthly.rb:3-5 | a monthly rule gives the same answer on two days with the same day of the month, whatever their month and year |
| RailsRecurrence.MonthlyOutOfRange | rails_api/app/models/recurrence_rule/monthly.rb:4 | a monthly day outside 1..31 never applies |
| RailsRecurrence.WeeklyIgnoresIntervalAndBasis | rails_api/app/models/recurrence_rule/weekly.rb:2-5 | interval and basis have no effect on whether a weekly rule applies |
| RailsRecurrence.WeeklyPeriodic | rails_api/app/models/recurrence_rule/weekly.rb:4 | a weekly rule gives the same answer on `d` and `d + 7` |
| RailsRecurrence.WeeklyOutOfRange | rails_api/app/models/recurrence_rule/weekly.rb:4 | a weekly day outside 0..6 never applies |
| RailsRecurrence.Inspect | rails_api/app/models/recurrence_rule/monthly.rb:7-9 | `monthly:day=` followed by text that parses back to the day; for the weekly rule (weekly.rb:7-9) `weekly:day=` followed by the day, `;basis=` and the basis text (empty for nil) |
| RailsRecurrence.InspectOmitsInterval | rails_api/app/models/recurrence_rule/weekly.rb:7-9 | the weekly rendering is the same whatever the interval |
| RailsSchedule.ExpandRecurringTransaction | rails_api/app/models/scheduled_transaction.rb:11-13 | the entries' dates are the applicable days in order, and every entry carries the transaction's name and amount |
| RailsSchedule.ExpansionSpec | rails_api/app/models/scheduled_transaction.rb:2-18 | empty when `start_date >= end_date`; otherwise every date lies in the window, dates strictly ascend, a day appears exactly when the rule applies to it, and there are at most as many entries as days |
| RecurrenceRuleType.ResolveRruleType | rails_api/app/types/recurrence_rule_type.rb:9-18 | succeeds exactly for `monthly` and `weekly`, with the kind of that name; any other type string, or nil, raises |
| RecurrenceRuleType.SplitFields | rails_api/app/types/recurrence_rule_type.rb:22 | no field between the separators holds the separator |
| RecurrenceRuleType.RubySplit | rails_api/app/types/recurrence_rule_type.rb:30 | `split`'s fields hold no separator, the last one is not empty, and the empty string splits into no fields |
| RecurrenceRuleType.SplitFieldsJoin | rails_api/app/types/recurrence_rule_type.rb:22 | joining the split fields with the separator gives back the string |
| RecurrenceRuleType.DropTrailingEmpty | rails_api/app/types/recurrence_rule_type.rb:22 | `split` keeps a prefix of the fields that ends in a non-empty field and drops only empty ones |
| RecurrenceRuleType.SplitFieldsOfJoin | rails_api/app/types/recurrence_rule_type.rb:30 | splitting a `;`-join of parts without `;` gives the parts back |
| RecurrenceRuleType.AddPair | rails_api/app/types/recurrence_rule_type.rb:32-35 | one pair never removes an attribute; any attribute it adds or changes has a key and a value without `=`; a pair without `=` adds nothing |
| RecurrenceRuleType.AttrsOf | rails_api/app/types/recurrence_rule_type.rb:31-36 | the map built from the pairs has only keys and values without `=` |
| RecurrenceRuleType.ReadAttrs | rails_api/app/types/recurrence_rule_type.rb:31-36 | the pair-by-pair loop yields exactly the map `AttrsOf` describes |
| RecurrenceRuleType.PairWithoutValueDropped | rails_api/app/types/recurrence_rule_type.rb:32-35 | a pair `k=` with nothing after `=`, or an empty pair, adds no attribute |
| RecurrenceRuleType.PairRead | rails_api/app/types/recurrence_rule_type.rb:32-35 | a pair `k=v` sets attribute `k` to `v` |
| RecurrenceRuleType.CastString | rails_api/app/types/recurrence_rule_type.rb:21-38 | a string is handed back unchanged exactly when it does not match the pattern; a matching one raises the component error exactly when it does not split on `::` into two components; a rule it yields has the kind its first component names and attributes without `=` |
| RecurrenceRuleType.Cast | rails_api/app/types/recurrence_rule_type.rb:20-46 | the loop over the pairs yields exactly what `CastSpec` describes, errors included |
| RecurrenceRuleType.Serialize | rails_api/app/types/recurrence_rule_type.rb:48-60 | a rule object becomes a string starting with its type name and `::`, and when no key or value holds `;` the rest splits on `;` into the `k=v` texts of its attributes, in order; any other value is handed back unchanged |
| RecurrenceRuleType.RoundTrip | rails_api/app/types/recurrence_rule_type.rb:20-56 | casting the serialized string of a rule with at least one attribute gives back its kind and attribute map, when keys and values hold no `;`, `=` or `::` and values are non-empty; a single `:` anywhere, even right after the type's `::`, is carried |
| RecurrenceRuleType.EmptyAttributesDoNotCastBack | rails_api/app/types/recurrence_rule_type.rb:22-26 | a rule with no attributes serializes to `<type>::`, which has one component and raises on cast |
| RecurrenceRuleType.MalformedStringRaises | rails_api/app/types/recurrence_rule_type.rb:22-26 | a matching string that does not split into exactly two components raises |
| RecurrenceRuleType.UnknownTypeRaises | rails_api/app/types/recurrence_rule_type.rb:28-38 | a matching two-component string whose type is neither `monthly` nor `weekly` raises |
| RecurrenceRuleType.PassThrough | rails_api/app/types/recurrence_rule_type.rb:43-45 | a string outside the pattern, a rule object and any other value are returned unchanged |
| RecurrenceRuleType.HashBranch | rails_api/app/types/recurrence_rule_type.rb:39-42 | a hash casts exactly when its `recurrence_type` is `monthly` or `weekly`; the kind is that type and the attributes are exactly the other entries, with their values, without `recurrence_type` |
| ClientState.NormalizeRecurrenceRule | react_ui/src/state.ts:86-96 | monthly stays monthly with its day; weekly keeps day and interval, and gets a date from the basis exactly when the JSON basis is truthy |
| ClientState.NormalizeRecurringTransaction | react_ui/src/state.ts:98-105 | id, name and amount carry over; the rule is normalised |
| ClientState.NormalizeAll | react_ui/src/state.ts:154 | the normalised list has the same length, element by element |
| ClientState.Client.constructor | react_ui/src/state.ts:107-116 | a new client is not loading, has no error and holds two empty lists |
| ClientState.Client.UpdateNewRecurringTransaction | react_ui/src/state.ts:118-130 | a created transaction is appended, normalised, and earlier ones are kept; an error sets `error` and keeps the list; loading ends; the schedule is untouched; an error is never cleared |
| ClientState.Client.UpdateRecurringTransactions | react_ui/src/state.ts:149-162 | a list response replaces the list by its normalisation; an error sets `error` and keeps the list; loading ends; an error is never cleared |
| ClientState.Client.UpdateLoading | react_ui/src/state.ts:164-166 | sets `loading` and nothing else |
| ClientState.Client.UpdateScheduledTransactions | react_ui/src/state.ts:175-185 | a schedule response replaces the scheduled list; an error sets `error` and keeps it; loading ends; the transactions are untouched; an error is never cleared |
| PortComparison.RulesAgree | rails_api/app/models/recurrence_rule/weekly.rb:3-5 | monthly rules, and weekly rules with neither interval nor basis, apply on the same days in both implementations |
| PortComparison.HalfSetWeeklyDiverges | rails_api/app/models/recurrence_rule/weekly.rb:3-5 | a weekly rule with only one of interval and basis set never applies in the reference model but applies on its weekday in the port |
| PortComparison.FortnightlyDiverges | rails_api/app/models/recurrence_rule/weekly.rb:2-5 | one week after the basis of a fortnightly rule, on its weekday, the reference model skips the day and the port does not |
| PortComparison.FortnightlyFromEpoch | rails_api/app/models/recurrence_rule/weekly.rb:2-5 | every other Thursday from `01/01/1970`: the implementations differ on 8 January 1970 |
| PortComparison.ExpansionsAgree | rails_api/app/models/scheduled_transaction.rb:11-12 | over whole days, both expansions select the same days for rules on which they agree |
| PortComparison.SameDayWindowDiverges | rails_api/app/models/scheduled_transaction.rb:3-6 | a window from midnight to later the same day expands to that day in the reference model and to nothing in the port |

## Left out

- Time zones and epoch milliseconds. `getTimezoneOffset` and `getTime` are not modelled, and neither are daylight-saving changes. An instant is a local day plus a local time of day. The day delta in the weekly test is a difference of local days.
- Parsing of arbitrary date strings by `new Date(...)`. Only the `MM/DD/YYYY` form is read; anything else is an invalid date.
- ParseDateString: years 0 to 99 are read as written, however many digits they have. `dateStringFromDate` writes such years with one or two digits (`01/01/5`, `01/01/50`), and host parsers read those back as 2000–2049 or 1950–1999, going by the value. So for years 0 to 99, ParseDateStringRoundTrip, Normalize, CreatedWeeklyRuleAppliesOnBasis and the day walk of ExpandRecurringTransaction describe the model's reading, not the program's. Negative years are not checked against a host parser either.
- Ruby `Date` uses the Julian calendar before 15 October 1582. The model uses the proleptic Gregorian calendar for both implementations.
- CompareNames: `localeCompare` depends on the locale. It is replaced by plain code-unit order.
- CompareScheduledTransactions: JavaScript compares strings by UTF-16 code units. The model compares Dafny characters, which agrees outside surrogate pairs.
- SortScheduled: `Array.prototype.sort` sorts `expanded` in place. The model sorts with a stable insertion sort on values. The result is specified as sorted and a permutation; stability is not stated.
- The `default` branches that match no rule kind are not modelled. The rule types are closed datatypes, so an unknown rule kind cannot be written.
- Budget.ViewRecurringTransactions: the method returns the stored list as a value. Aliasing of the live array is not modelled.
- Edit and delete operations for recurring transactions are not modelled. `Budget` has neither, and it never writes `error`. `react_ui/src/state.ts` defines no `EditRecurringTransaction` type either, although `simulation.ts:1` and `simulationtests.ts:1` import one.
- NextId: type names inherited from `Object.prototype` are not modelled. `ids` is a plain object literal, so `genId("constructor")` finds the truthy inherited `Object` function and appends `1` to its text. The model reads an absent name as counter 0 for every string, so IdsCountUp's "the first call returns 1" holds in the model only. The one caller passes `"RecurringTransaction"`.
- The `console.log` and `puts` logging.
- Integer and real widths. Amounts are `real`, and days, intervals and ids are unbounded integers. Floating-point rounding in `amount` and non-integer intervals are not modelled.
- The async `Client` methods `addRecurringTransaction`, `viewRecurringTransactions`, `viewScheduledTransactions`, `setup` and `teardown`. They are network I/O, so the model starts from their responses, which are the parameters of the `update*` methods.
- The `Client` constructor's configuration callback.
- `new Date(json.basis)` in the client. It is kept as an uninterpreted `JsDate` built from the basis text.
- `from_attrs` and `db_serialize` of the rule classes. Their source is not part of this model. A cast yields the rule kind and the attribute map; a rule to serialize is given as its kind and attribute list. `super` in `cast` and `serialize` is taken to return the value unchanged.
- Hash values in the cast hash branch are modelled as strings only.
- The wording of every raised message in `cast` and `resolve_rrule_type` is left out. The model records only the kind of failure: an unknown type string, or the number of components.
- Controllers, routes, migrations, the React components and the test harnesses. They are HTTP, database, UI and test plumbing.
