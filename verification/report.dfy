/** What a command leaves behind: the lines it printed, in order, and the
    uncaught exception that ended it early, if any. */
module Report {
  import opened Wrappers
  import Api

  /** The uncaught exceptions of the two commands: a failed request, a
      missing dictionary key (`KeyError`), or `len(None)` (`TypeError`). */
  datatype Fault =
    | ApiFailed(error: Api.ApiError)
    | KeyMissing(key: string)
    | NoLength

  datatype Run = Run(lines: seq<string>, fault: Option<Fault>)
}
