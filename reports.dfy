/** The record every state returns to the configuration-management framework. */
module StateReports {
  import opened Optional

  /** The `changes` dictionary: empty; the `old` (`before`) and `new` (`after`) note lists; or one
      `old`/`new` pair of texts. */
  datatype Changes =
    | NoChanges
    | Notes(before: seq<string>, after: seq<string>)
    | Summary(oldText: string, newText: string)

  /** `name`, `changes`, `result` (`None` for "would change" or "nothing to
      do") and `comment`. */
  datatype Report = Report(name: string, changes: Changes, result: Option<bool>, comment: string)

  /** How a state function ends: with a report, with a bare `False` in place of
      one, or by raising. */
  datatype StateOutcome = Returned(report: Report) | ReturnedFalse | Raised(error: string)
}
