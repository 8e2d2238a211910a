// What the control plane's handlers share: the If-Match check.
module Preconditions {
  import opened Wrappers

  // The header is absent, names a revision in either of its two spellings, or is
  // something else.
  datatype IfMatch = NoHeader | Names(revision: int) | Unrecognised

  datatype Mismatch = PreconditionRequired | RevisionMismatch

  function Precondition(header: IfMatch, current: int): Option<Mismatch> {
    match header
    case NoHeader => Some(PreconditionRequired)
    case Names(revision) => if revision == current then None else Some(RevisionMismatch)
    case Unrecognised => Some(RevisionMismatch)
  }
}
