/** The ways a run of the program ends early, named after the exception Python raises. */
module Failures {
  import opened Text

  /** The extraction whose match object is `None` when `.groups()` or `.group(1)` is
      called on it (an `AttributeError`). */
  datatype Field =
    | SourceField        // `: from` is present but the full source pattern does not match
    | DestinationField   // `: to` is present but the full destination pattern does not match
    | TimestampField     // the blob does not start with three space-separated tokens
    | AttachmentField    // an isolated attachment entry lacks file=, type=, size= or a=
    | StatusField        // no `stat=X (Y)` anywhere
    | StatusDetailField  // the status detail has no token followed by a space
    | SpamDetailField    // a spam-details token has no `=`

  datatype Failure =
    | DateOverflow              // `OverflowError`: the day after 9999-12-31
    | YearBefore1900            // `ValueError` from Python 2's `strftime`
    | LogUnavailable(name: String)  // `IOError` opening the log
    | Malformed(field: Field)   // `AttributeError` on a failed match
    | MissingEndpoint(block: String) // `TypeError`: the Source or Destination block reads `None`
    | NotAnInteger(text: String)     // `ValueError` from `int()`
}
