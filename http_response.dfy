/** The HTTP response constructors of packages/api/src/http-response.ts. */
module Http {
  import opened Wrappers

  /** A JSON value as the handlers build it; `Undefined` is a missing body or property. */
  datatype Json =
    | Undefined
    | Null
    | Bool(b: bool)
    | Num(n: int)
    | Str(s: string)
    | Arr(items: seq<Json>)
    | Obj(fields: map<string, Json>)

  /** `HttpResponseInit` restricted to what the handlers set: a status and a JSON body. */
  datatype HttpResponse = HttpResponse(status: int, jsonBody: Json)

  /** What a handler returns besides a plain response: the `data(...)` helper the handlers import
      for streamed and JSON data replies is not part of this model, so such a reply is
      represented by its content (the headers, the lines and the end of a stream, or the JSON
      value). */
  datatype Reply =
    | Respond(response: HttpResponse)
    | Stream(headers: seq<(string, string)>, lines: seq<string>, end: StreamEnd)
    | Data(body: Json)

  /** How a streamed body ends after its lines: normally, with a stream error that cuts the
      response short, or never. */
  datatype StreamEnd = Finished | Failed | Open

  /** The headers every NDJSON stream reply is sent with. */
  const NdjsonHeaders: seq<(string, string)> :=
    [("Content-Type", "application/x-ndjson"), ("Transfer-Encoding", "chunked")]

  /** The `error` property of a response body, as a client reads it. */
  function ErrorMessage(r: HttpResponse): Option<string>
  {
    match r.jsonBody
    case Obj(fields) =>
      if "error" in fields && fields["error"].Str? then Some(fields["error"].s) else None
    case _ => None
  }

  function ErrorBody(message: string): Json
  {
    Obj(map["error" := Str(message)])
  }

  function BadRequest(message: string): (r: HttpResponse)
    ensures r.status == 400 && ErrorMessage(r) == Some(message)
  {
    HttpResponse(400, ErrorBody(message))
  }

  function NotFound(message: string): (r: HttpResponse)
    ensures r.status == 404 && ErrorMessage(r) == Some(message)
  {
    HttpResponse(404, ErrorBody(message))
  }

  function ServiceUnavailable(message: string): (r: HttpResponse)
    ensures r.status == 503 && ErrorMessage(r) == Some(message)
  {
    HttpResponse(503, ErrorBody(message))
  }

  function InternalServerError(message: string): (r: HttpResponse)
    ensures r.status == 500 && ErrorMessage(r) == Some(message)
  {
    HttpResponse(500, ErrorBody(message))
  }

  function Unauthorized(message: string): (r: HttpResponse)
    ensures r.status == 401 && ErrorMessage(r) == Some(message)
  {
    HttpResponse(401, ErrorBody(message))
  }

  function NoContent(): (r: HttpResponse)
    ensures r.status == 204 && r.jsonBody.Undefined? && ErrorMessage(r).None?
  {
    HttpResponse(204, Undefined)
  }

  function Created(body: Json): (r: HttpResponse)
    ensures r.status == 201 && r.jsonBody == body
  {
    HttpResponse(201, body)
  }

  /** `ok(body)`; `ok()` with no argument is `Ok(Undefined)`. */
  function Ok(body: Json): (r: HttpResponse)
    ensures r.status == 200 && r.jsonBody == body
  {
    HttpResponse(200, body)
  }
}
