/**
 * The UI client's synchronous state: what the server's JSON responses turn
 * into, and how each response updates `loading`, `error` and the two lists.
 * The requests themselves (fetch) are not part of this module.
 */
module ClientState {
  import opened Wrappers

  /** A rule as the server sends it; `basis` is whatever JSON value came (null being `None`). */
  datatype RecurrenceRuleJson =
    | MonthlyJson(day: int)
    | WeeklyJson(interval: Option<int>, day: int, basis: Option<string>)

  datatype RecurringTransactionJson = RecurringTransactionJson(id: int, name: string, amount: real, recurrenceRule: RecurrenceRuleJson)

  /** A scheduled transaction as the server sends it; the client keeps it as it came. */
  datatype ScheduledTransactionJson = ScheduledTransactionJson(date: string, name: string, amount: real)

  /**
   * A response: the expected payload (`type` is the payload's tag), an
   * `error` with its message, or a body with any other `type`.
   */
  datatype Response<T> = Payload(body: T) | AppError(message: string) | OtherType

  /** `new Date(source)`: the date the client builds from a JSON basis, not interpreted further here. */
  datatype JsDate = DateFrom(source: string)

  datatype RecurrenceRule =
    | Monthly(day: int)
    | Weekly(interval: Option<int>, day: int, basis: Option<JsDate>)

  datatype RecurringTransaction = RecurringTransaction(id: int, name: string, amount: real, recurrenceRule: RecurrenceRule)

  /** A JSON basis is truthy when present and not the empty string. */
  predicate BasisTruthy(basis: Option<string>) {
    basis.Some? && basis.value != ""
  }

  /**
   * normalizeRecurrenceRule: a monthly rule keeps its day; a weekly rule keeps
   * day and interval, and gets a date built from the basis exactly when the
   * basis is truthy.
   */
  function NormalizeRecurrenceRule(json: RecurrenceRuleJson): (r: RecurrenceRule)
    ensures json.MonthlyJson? <==> r.Monthly?
    ensures r.day == json.day
    ensures json.WeeklyJson? ==> r.interval == json.interval
    ensures json.WeeklyJson? ==> (r.basis.None? <==> !BasisTruthy(json.basis))
    ensures json.WeeklyJson? && r.basis.Some? ==> r.basis.value.source == json.basis.value
  {
    match json
    case MonthlyJson(day) => Monthly(day)
    case WeeklyJson(interval, day, basis) =>
      Weekly(interval, day, if BasisTruthy(basis) then Some(DateFrom(basis.value)) else None)
  }

  /** normalizeRecurringTransaction: id, name and amount carry over; the rule is normalised. */
  function NormalizeRecurringTransaction(json: RecurringTransactionJson): (r: RecurringTransaction)
    ensures r.id == json.id && r.name == json.name && r.amount == json.amount
    ensures r.recurrenceRule == NormalizeRecurrenceRule(json.recurrenceRule)
  {
    RecurringTransaction(json.id, json.name, json.amount, NormalizeRecurrenceRule(json.recurrenceRule))
  }

  /** `.map(normalizeRecurringTransaction)`. */
  function NormalizeAll(jsons: seq<RecurringTransactionJson>): (r: seq<RecurringTransaction>)
    ensures |r| == |jsons|
    ensures forall k :: 0 <= k < |jsons| ==> r[k] == NormalizeRecurringTransaction(jsons[k])
  {
    seq(|jsons|, k requires 0 <= k < |jsons| => NormalizeRecurringTransaction(jsons[k]))
  }

  class Client {
    var loading: bool
    var error: Option<string>
    var recurringTransactions: seq<RecurringTransaction>
    var scheduledTransactions: seq<ScheduledTransactionJson>

    constructor ()
      ensures !loading && error == None
      ensures recurringTransactions == [] && scheduledTransactions == []
    {
      loading := false;
      error := None;
      recurringTransactions := [];
      scheduledTransactions := [];
    }

    /**
     * updateNewRecurringTransaction: a created transaction is appended,
     * normalised; an error response records its message; another type only
     * clears `loading`. The scheduled list never changes and an error, once
     * set, is never cleared.
     */
    method UpdateNewRecurringTransaction(json: Response<RecurringTransactionJson>)
      modifies this
      ensures !loading
      ensures json.Payload? ==>
        recurringTransactions == old(recurringTransactions) + [NormalizeRecurringTransaction(json.body)]
        && error == old(error)
      ensures json.AppError? ==> error == Some(json.message) && recurringTransactions == old(recurringTransactions)
      ensures json.OtherType? ==> error == old(error) && recurringTransactions == old(recurringTransactions)
      ensures scheduledTransactions == old(scheduledTransactions)
      ensures old(error).Some? ==> error.Some?
    {
      loading := false;
      match json
      case Payload(body) =>
        recurringTransactions := recurringTransactions + [NormalizeRecurringTransaction(body)];
      case AppError(message) =>
        error := Some(message);
      case OtherType =>
    }

    /**
     * updateRecurringTransactions: a list response replaces the stored list
     * by its element-wise normalisation; an error response records its
     * message; another type only clears `loading`.
     */
    method UpdateRecurringTransactions(json: Response<seq<RecurringTransactionJson>>)
      modifies this
      ensures !loading
      ensures json.Payload? ==> recurringTransactions == NormalizeAll(json.body) && error == old(error)
      ensures json.AppError? ==> error == Some(json.message) && recurringTransactions == old(recurringTransactions)
      ensures json.OtherType? ==> error == old(error) && recurringTransactions == old(recurringTransactions)
      ensures scheduledTransactions == old(scheduledTransactions)
      ensures old(error).Some? ==> error.Some?
    {
      loading := false;
      match json
      case Payload(body) =>
        recurringTransactions := NormalizeAll(body);
      case AppError(message) =>
        error := Some(message);
      case OtherType =>
    }

    /** updateLoading: sets `loading` and nothing else. */
    method UpdateLoading(l: bool)
      modifies this
      ensures loading == l
      ensures error == old(error)
      ensures recurringTransactions == old(recurringTransactions)
      ensures scheduledTransactions == old(scheduledTransactions)
    {
      loading := l;
    }

    /**
     * updateScheduledTransactions: a schedule response replaces the scheduled
     * list as it came; an error response records its message and keeps the
     * list; the stored transactions never change.
     */
    method UpdateScheduledTransactions(json: Response<seq<ScheduledTransactionJson>>)
      modifies this
      ensures !loading
      ensures json.Payload? ==> scheduledTransactions == json.body && error == old(error)
      ensures json.AppError? ==> error == Some(json.message) && scheduledTransactions == old(scheduledTransactions)
      ensures json.OtherType? ==> error == old(error) && scheduledTransactions == old(scheduledTransactions)
      ensures recurringTransactions == old(recurringTransactions)
      ensures old(error).Some? ==> error.Some?
    {
      UpdateLoading(false);
      match json
      case Payload(body) =>
        scheduledTransactions := body;
      case AppError(message) =>
        error := Some(message);
      case OtherType =>
    }
  }
}
