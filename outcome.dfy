/** Results of the monitor's parsers. Every place where the Go code panics
    becomes an `Err` carrying the reason it would have panicked with. */
module Outcome {

  datatype Option<T> = None | Some(value: T)

  /** Why a parse step gives up (each one is a panic in the monitor). */
  datatype Failure =
    | MalformedStatusLine(line: string)    // a status line that is not exactly one `Key: Value` pair
    | BadNumber(token: string)             // strconv.ParseUint / strconv.Atoi refused a token
    | UnrecognizedSizeLabel(size: string)  // no branch of parseLabeledSize matched
    | NoTotalTime                          // the system-wide tick total came out as 0
    | MalformedStat(blob: string)          // fewer than 15 space-separated fields in a stat line
    | ChildListingFailed                   // pgrep printed something and still reported an error

  datatype Result<T> = Ok(value: T) | Err(failure: Failure)
}
