/** Values shared by every handler of the model: JavaScript's optional
    fields and truthiness, JSON payloads, thrown errors and JSON replies. */
module Common {

  /** A field that may be `undefined`. */
  datatype Option<+T> = None | Some(value: T)

  /** The outcome of an awaited remote call: its resolved value, or the error it rejected with. */
  datatype Outcome<+T> = Ok(value: T) | Fail(error: Error)

  /** A JSON value as a request body or an API payload carries it. */
  datatype Json =
    | JNull
    | JBool(b: bool)
    | JNum(n: int)
    | JStr(s: string)
    | JArr(items: seq<Json>)
    | JObj(fields: map<string, Json>)

  /** JavaScript truthiness of a JSON value: null, false, 0 and "" are falsy,
      every array and object is truthy. */
  predicate Truthy(v: Json)
  {
    match v
    case JNull => false
    case JBool(b) => b
    case JNum(n) => n != 0
    case JStr(s) => s != ""
    case _ => true
  }

  /** Truthiness of an optional string field: `undefined` and "" are falsy. */
  predicate Present(s: Option<string>)
  {
    s.Some? && s.value != ""
  }

  /** Truthiness of an optional JSON field. */
  predicate PresentJson(v: Option<Json>)
  {
    v.Some? && Truthy(v.value)
  }

  /** `s || fallback` for an optional string. */
  function StringOr(s: Option<string>, fallback: string): (r: string)
    ensures Present(s) ==> r == s.value
    ensures !Present(s) ==> r == fallback
  {
    if Present(s) then s.value else fallback
  }

  /** A filesystem entry as the remote API returns it. `kind` is the entry's
      `type` field ('file', 'directory', 'symlink', or anything else the API
      sends); `size`, `content` and `tags` may be missing. */
  datatype FileEntry = FileEntry(
    id: string,
    name: string,
    kind: string,
    size: Option<int>,
    content: Option<string>,
    tags: Option<seq<Json>>,
    deletedAt: int)

  /** The HTTP response attached to a failed API call: its status and `data.message`. */
  datatype HttpResponse = HttpResponse(status: int, message: Option<string>)

  /** A thrown error as the handlers read it: `status` and `message` (set by the
      services), `response` (set by the HTTP client when the server answered)
      and whether a request had been sent. */
  datatype Error = Error(status: Option<int>, message: Option<string>, response: Option<HttpResponse>, requestSent: bool)

  /** A JSON reply `{ success, message }` sent with an HTTP status. */
  datatype Reply = Reply(status: int, success: bool, message: string)

  /** `error.status || 500`: a missing or zero status becomes 500. */
  function StatusOr500(e: Error): (r: int)
    ensures r != 0
    ensures e.status.Some? && e.status.value != 0 ==> r == e.status.value
    ensures e.status.None? || e.status.value == 0 ==> r == 500
  {
    if e.status.Some? && e.status.value != 0 then e.status.value else 500
  }

  /** The catch block shared by most handlers:
      `res.status(error.status || 500).json({ success: false, message: error.message || fallback })`. */
  function FailureReply(e: Error, fallback: string): (r: Reply)
    ensures !r.success && r.status == StatusOr500(e)
    ensures r.message == StringOr(e.message, fallback)
  {
    Reply(StatusOr500(e), false, StringOr(e.message, fallback))
  }
}
