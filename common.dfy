/** Shared vocabulary of the request portal: optional values, the four-value
    request status, identifiers, timestamps and handler responses. */
module Common {

  datatype Option<+T> = None | Some(value: T)

  /** A document identifier, as the client sends it (a string). */
  type Id = string

  /** A timestamp in milliseconds, as `new Date()` gives it. */
  type Time = nat

  /** The workflow state of a request. */
  datatype Status = Pending | Completed | Approved | Rejected

  /** The wire spelling of each status. */
  function StatusName(s: Status): string
  {
    match s
    case Pending => "pending"
    case Completed => "completed"
    case Approved => "approved"
    case Rejected => "rejected"
  }

  /** The enum check of the schemas: exactly the four spellings are accepted. */
  function ParseStatus(text: string): (r: Option<Status>)
    ensures r.Some? <==> text in {"pending", "completed", "approved", "rejected"}
    ensures r.Some? ==> StatusName(r.value) == text
  {
    if text == "pending" then Some(Pending)
    else if text == "completed" then Some(Completed)
    else if text == "approved" then Some(Approved)
    else if text == "rejected" then Some(Rejected)
    else None
  }

  /** Parsing inverts spelling, so every status survives the wire. */
  lemma ParseStatusName(s: Status)
    ensures ParseStatus(StatusName(s)) == Some(s)
  {
  }

  /** HTTP status codes the handlers answer with. */
  const OkCode: nat := 200
  const CreatedCode: nat := 201
  const BadRequestCode: nat := 400
  const NotFoundCode: nat := 404
  const ServerErrorCode: nat := 500

  /** The JSON answer of a handler: a success body or an error message. */
  datatype Response<+T> = Ok(code: nat, value: T) | Fail(code: nat, error: string)

  const InvalidInput := "Invalid input"
  const UnknownError := "An unknown error occurred"
}
