/** Values shared by every part of the backend model: optional values, request-body
    fields as JavaScript sees them, JSON scalars, the caller's connection details and
    the shape of an HTTP reply. */
module Common {

  datatype Option<+T> = None | Some(value: T)

  /** Record identifiers (the database generates them; here a counter does). */
  type Id = nat

  /** Instants, as JavaScript `Date` values: milliseconds since the epoch. */
  type Millis = int

  const DayMs: int := 24 * 60 * 60 * 1000

  /** An octet of a `Buffer`. */
  type Byte = x: int | 0 <= x < 256

  /** A field of a JSON request body: left out, explicitly `null`, or given. */
  datatype Input<+T> = Undefined | Null | Given(value: T)

  /** JavaScript truthiness of a string-valued body field. */
  predicate Truthy(x: Input<string>)
  {
    x.Given? && x.value != ""
  }

  /** JavaScript truthiness of a query-string parameter (absent or empty is falsy). */
  predicate Present(q: Option<string>)
  {
    q.Some? && q.value != ""
  }

  /** `x !== undefined ? x : current` for a nullable column. */
  function Assign(current: Option<string>, x: Input<string>): Option<string>
  {
    match x
    case Undefined => current
    case Null => None
    case Given(v) => Some(v)
  }

  /** `x || null` for a nullable column. */
  function OrNull(x: Input<string>): Option<string>
  {
    if Truthy(x) then Some(x.value) else None
  }

  /** `x || fallback` for a nullable text column. */
  function OrElse(x: Option<string>, fallback: string): (r: string)
    ensures x.Some? && x.value != "" ==> r == x.value
    ensures !(x.Some? && x.value != "") ==> r == fallback
  {
    if x.Some? && x.value != "" then x.value else fallback
  }

  /** A JSON scalar, as stored in an audit entry's details or in an export cell. */
  datatype Val = Str(s: string) | Num(n: int) | Flag(b: bool) | Nothing

  /** The `details` object of an audit entry. */
  type Details = map<string, Val>

  /** What a handler reads from the request besides its parameters. */
  datatype Client = Client(ip: Option<string>, userAgent: Option<string>, forwardedFor: Option<string>)

  /** `req.ip || undefined`. */
  function IpOrNone(c: Client): Option<string>
  {
    if c.ip == Some("") then None else c.ip
  }

  /** An HTTP reply: a status with a JSON body, or a status with `{ error }`. */
  datatype Reply<+T> = Ok(status: int, body: T) | Fail(status: int, error: string)
}
