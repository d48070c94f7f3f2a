/** Running one analysis inside the paired auditor and exchange database transactions. */
module Transaction {

  /** Database status codes, from best to worst. */
  datatype Status = OneResult | NoResults | SoftError | HardError {
    predicate Failed() { SoftError? || HardError? }
  }

  datatype Code = Ok | Retry | SysErr

  /** What an analysis run leaves behind: its status and the auditor database it wants to store. */
  datatype Analysis<S> = Analysis(status: Status, written: S)

  datatype Result<S> = Result(stored: S, code: Code)

  function CodeOf(qs: Status): Code {
    match qs
    case OneResult => Ok
    case NoResults => Ok
    case SoftError => Retry
    case HardError => SysErr
  }

  /** The exchange transaction is committed first, the auditor's only when that succeeded. */
  function Transact<S>(before: S, run: Analysis<S>, edbCommit: Status, adbCommit: Status): Result<S> {
    if run.status != OneResult then Result(before, CodeOf(run.status))
    else if edbCommit.Failed() then Result(before, CodeOf(edbCommit))
    else if adbCommit.Failed() then Result(before, CodeOf(adbCommit))
    else Result(run.written, CodeOf(adbCommit))
  }

  /** All or nothing: the auditor database holds the old state or the whole new one. */
  lemma {:induction false} TransactIsAtomic<S>(before: S, run: Analysis<S>, edbCommit: Status, adbCommit: Status)
    ensures var r := Transact(before, run, edbCommit, adbCommit);
      var committed := run.status == OneResult && !edbCommit.Failed() && !adbCommit.Failed();
      && r.stored == (if committed then run.written else before)
      && (committed ==> r.code == Ok)
      && (r.code == Ok && !committed ==> run.status == NoResults)
  {
  }

  /** The tools only treat a hard error as failure: `Retry` counts as success. */
  predicate ReportsSuccess(code: Code) { code != SysErr }

  /**
   * A tool reports success without having stored anything exactly when the analysis found
   * nothing to store or the first failing step was a serialization failure.
   */
  lemma {:induction false} SuccessWithoutProgress<S>(before: S, run: Analysis<S>, edbCommit: Status, adbCommit: Status)
    requires run.written != before
    ensures var r := Transact(before, run, edbCommit, adbCommit);
      (ReportsSuccess(r.code) && r.stored == before) <==>
      || run.status == NoResults
      || run.status == SoftError
      || (run.status == OneResult && edbCommit == SoftError)
      || (run.status == OneResult && !edbCommit.Failed() && adbCommit == SoftError)
  {
  }
}
