/**
 * The wire contract shared by both contact-form controllers: what the form
 * posts to `/api/contact`, the response it gets back, the JavaScript
 * truthiness rules the handlers apply to it, and the status texts both
 * handlers have in common.
 */
module ContactApi {
  import opened Lookup

  /** The extracted form data: `Object.fromEntries(new FormData(form).entries())`. */
  type Fields = map<string, string>

  /** `data[key]` is truthy: a missing key reads as `undefined`, and "" is the only falsy string. */
  predicate Filled(fields: Fields, key: string)
  {
    key in fields && fields[key] != ""
  }

  /** `name`, `email` and `message` are all truthy (no trimming: " " is truthy). */
  predicate RequiredFilled(fields: Fields)
  {
    Filled(fields, "name") && Filled(fields, "email") && Filled(fields, "message")
  }

  /** The outgoing `fetch`: always a JSON POST to the contact endpoint with the field map as body. */
  datatype Request = Request(httpMethod: string, url: string, contentType: string, body: Fields)

  function ContactRequest(fields: Fields): Request
  {
    Request("POST", "/api/contact", "application/json", fields)
  }

  /**
   * `payload.ok` as the handlers see it: missing (or `undefined`), the
   * literal `false`, or any other JSON value, of which only the truthiness
   * matters (`true`, `1`, `"no"` are truthy; `0`, `""`, `null` are not).
   */
  datatype OkField = Absent | False | Other(truthy: bool)

  /** `payload.error`: missing, or a string shown verbatim when it is truthy. */
  datatype Payload = Payload(ok: OkField, error: Option<string>)

  /** `{}`: what `res.json().catch(() => ({}))` gives for a body that is not JSON. */
  const EmptyPayload := Payload(Absent, None)

  /**
   * The parsed body. A JSON primitive other than `null` has no `ok` or
   * `error` property and is written `Json(EmptyPayload)`; `null` is kept
   * apart because reading a property of it throws.
   */
  datatype Body = Unparseable | JsonNull | Json(payload: Payload)

  /** What `await fetch(...)` produced: a thrown transport error, or a response (`res.ok`, body). */
  datatype Response = Threw | Received(httpOk: bool, body: Body)

  /** The classified result of the request, which decides the status text. */
  datatype Outcome = Succeeded | Rejected(message: string) | NetworkFailure

  /**
   * The object the handler reads `ok` and `error` from, or None when that
   * read throws a TypeError inside the `try` (a JSON `null` body).
   */
  function PayloadOf(body: Body): Option<Payload>
  {
    match body
    case Unparseable => Some(EmptyPayload)
    case JsonNull => None
    case Json(p) => Some(p)
  }

  /** `payload.error || fallback`. */
  function ErrorOr(p: Payload, fallback: string): string
  {
    if p.error.Some? && p.error.value != "" then p.error.value else fallback
  }

  /** The status text a handler with thank-you text `thanks` writes for an outcome. */
  function OutcomeText(o: Outcome, thanks: string): string
  {
    match o
    case Succeeded => thanks
    case Rejected(m) => m
    case NetworkFailure => NetworkErrorText
  }

  const MissingFieldsText := "Please fill in name, email, and message."
  const GenericFailureText := "Something went wrong. Please try again."
  const NetworkErrorText := "Network error. Please try again."
}
