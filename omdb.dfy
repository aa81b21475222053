/**
 * What is left of an OMDb request once the HTTP and JSON libraries have run, and the checks
 * both OMDb screens make on it before reading any data: the status code must be 200, the body
 * must parse as a JSON object, and its `Response` member must not be `"False"`.
 */
module Omdb {
  import opened Outcomes
  import opened Text

  /** A JSON object, each member's value as `optString` renders it. */
  type JsonObject = map<string, string>

  /** One element of the `Search` array: an object, or a value `getJSONObject` rejects with `error`. */
  datatype JsonElement = ObjectElement(obj: JsonObject) | OtherElement(error: Exception)

  /** A parsed body: its members, and its `Search` member when that is an array (`optJSONArray`). */
  datatype Payload = Payload(obj: JsonObject, search: Option<seq<JsonElement>>)

  /** The body as `JSONObject(text)` sees it: an object, or the exception that the parse (or the read) threw. */
  datatype Body = Parsed(payload: Payload) | Malformed(error: Exception)

  /** One request: it threw before a status was read, or it was answered with a status and a body. */
  datatype Exchange = Threw(error: Exception) | Answered(code: int, body: Body)

  /** `HttpURLConnection.HTTP_OK`. */
  const HttpOk: int := 200

  /** The placeholder both screens compare the configured key against. */
  const PlaceholderKey: string := "YOUR_API_KEY"

  const StatusErrorPrefix: string := "OMDb API error: "

  /** `optString(key)`: the member's value, or `""` when the key is missing. */
  function OptString(obj: JsonObject, key: string): (r: string)
    ensures key in obj ==> r == obj[key]
    ensures key !in obj ==> r == ""
  {
    if key in obj then obj[key] else ""
  }

  /** `optString(key, fallback)`: the member's value, or `fallback` when the key is missing. */
  function OptStringOr(obj: JsonObject, key: string, fallback: string): (r: string)
    ensures key in obj ==> r == obj[key]
    ensures key !in obj ==> r == fallback
  {
    if key in obj then obj[key] else fallback
  }

  /** `optString(key, null)`: the member's value, or null when the key is missing. */
  function OptStringOrNull(obj: JsonObject, key: string): (r: Option<string>)
    ensures key in obj <==> r.Some?
    ensures key in obj ==> r.value == obj[key]
  {
    if key in obj then Some(obj[key]) else None
  }

  /** The failure for a status other than 200: `Exception("OMDb API error: $responseCode")`. */
  function StatusError(code: int): (e: Exception)
    ensures e.message.Some? && |e.message.value| > |StatusErrorPrefix|
    ensures e.message.value[..|StatusErrorPrefix|] == StatusErrorPrefix
  {
    Raise(StatusErrorPrefix + IntToString(code))
  }

  /** The status code can be read back from the message: different codes give different messages. */
  lemma StatusErrorInjective(a: int, b: int)
    requires StatusError(a) == StatusError(b)
    ensures a == b
  {
    var ma, mb := StatusError(a).message.value, StatusError(b).message.value;
    assert ma[|StatusErrorPrefix|..] == IntToString(a);
    assert mb[|StatusErrorPrefix|..] == IntToString(b);
    IntToStringInjective(a, b);
  }

  /** The server reported a failed lookup: `optString("Response") == "False"`. */
  function ReportsFailure(obj: JsonObject): (failed: bool)
    ensures failed <==> "Response" in obj && obj["Response"] == "False"
  {
    OptString(obj, "Response") == "False"
  }

  /** The request got a 200 answer whose body is an object that does not report a failure. */
  predicate Accepted(ex: Exchange) {
    ex.Answered? && ex.code == HttpOk && ex.body.Parsed? && !ReportsFailure(ex.body.payload.obj)
  }

  /**
   * The checks shared by both screens, in their order: an exception is passed on, a status other
   * than 200 gives the status failure, a body that does not parse passes on the parse exception,
   * and `Response == "False"` gives the `Error` member, or `notFound` when there is none.
   */
  function Envelope(ex: Exchange, notFound: string): (r: Result<Payload>)
    ensures r.Success? <==> Accepted(ex)
    ensures r.Success? ==> r.value == ex.body.payload
  {
    match ex
    case Threw(e) => Failure(e)
    case Answered(code, body) =>
      if code != HttpOk then Failure(StatusError(code))
      else
        match body
        case Malformed(e) => Failure(e)
        case Parsed(p) =>
          if ReportsFailure(p.obj) then Failure(Raise(OptStringOr(p.obj, "Error", notFound)))
          else Success(p)
  }

  /** Every way the shared checks can fail, with the exception each one gives. */
  lemma EnvelopeFailures(ex: Exchange, notFound: string)
    ensures ex.Threw? ==> Envelope(ex, notFound) == Failure(ex.error)
    ensures ex.Answered? && ex.code != HttpOk ==> Envelope(ex, notFound) == Failure(StatusError(ex.code))
    ensures ex.Answered? && ex.code == HttpOk && ex.body.Malformed? ==>
      Envelope(ex, notFound) == Failure(ex.body.error)
    ensures ex.Answered? && ex.code == HttpOk && ex.body.Parsed? && ReportsFailure(ex.body.payload.obj) ==>
      Envelope(ex, notFound) == Failure(Raise(OptStringOr(ex.body.payload.obj, "Error", notFound)))
  {
  }
}
