/** Values shared by every part of the API: options, request-body fields as
    JavaScript sees them, lifecycle enums and the HTTP error responses. */
module Common {

  datatype Option<+T> = None | Some(value: T)

  /** Prisma row ids and Clerk user ids are opaque strings. */
  type Id = string

  /** One field of a parsed request body: absent (`undefined`), JSON `null`,
      or a string. */
  datatype Input = Undefined | Null | Text(text: string) {
    /** JavaScript truthiness of the field. */
    predicate Truthy() { Text? && text != "" }
  }

  /** JavaScript truthiness of a nullable stored string column. */
  predicate Present(s: Option<string>) {
    s.Some? && s.value != ""
  }

  /** `s || fallback` for a nullable string column. */
  function OrDefault(s: Option<string>, fallback: string): (r: string)
    ensures Present(s) ==> r == s.value
    ensures !Present(s) ==> r == fallback
  {
    if Present(s) then s.value else fallback
  }

  datatype Status = DRAFT | ANALYZING | REVIEW | GENERATING | COMPLETE

  datatype PaymentStatus = UNPAID | PAID

  /** The error responses the handlers send: the HTTP status is carried by the
      constructor and the JSON `error` text by `message`. */
  datatype Error =
    | BadRequest(message: string)
    | NotFound(message: string)
    | ServerError(message: string)
  {
    function Code(): int {
      match this
      case BadRequest(_) => 400
      case NotFound(_) => 404
      case ServerError(_) => 500
    }
  }

  datatype Result<+T> = Ok(value: T) | Err(error: Error)
}
