/** The HTTP response constructors of packages/api/src/utils/http-response.ts: the same responses
    as packages/api/src/http-response.ts, built from an `Error` instead of a message. Each is
    proved to agree with its message-taking twin on the error's message. */
module HttpFromError {
  import Http

  /** A JavaScript `Error`: only its `message` reaches a response. */
  datatype Error = Error(name: string, message: string)

  function BadRequest(error: Error): (r: Http.HttpResponse)
    ensures r == Http.BadRequest(error.message)
    ensures r.status == 400 && Http.ErrorMessage(r).Some? && Http.ErrorMessage(r).value == error.message
  {
    Http.HttpResponse(400, Http.Obj(map["error" := Http.Str(error.message)]))
  }

  function NotFound(error: Error): (r: Http.HttpResponse)
    ensures r == Http.NotFound(error.message)
    ensures r.status == 404 && Http.ErrorMessage(r).Some? && Http.ErrorMessage(r).value == error.message
  {
    Http.HttpResponse(404, Http.Obj(map["error" := Http.Str(error.message)]))
  }

  function ServiceUnavailable(error: Error): (r: Http.HttpResponse)
    ensures r == Http.ServiceUnavailable(error.message)
    ensures r.status == 503 && Http.ErrorMessage(r).Some? && Http.ErrorMessage(r).value == error.message
  {
    Http.HttpResponse(503, Http.Obj(map["error" := Http.Str(error.message)]))
  }

  function InternalServerError(error: Error): (r: Http.HttpResponse)
    ensures r == Http.InternalServerError(error.message)
    ensures r.status == 500 && Http.ErrorMessage(r).Some? && Http.ErrorMessage(r).value == error.message
  {
    Http.HttpResponse(500, Http.Obj(map["error" := Http.Str(error.message)]))
  }

  function Unauthorized(error: Error): (r: Http.HttpResponse)
    ensures r == Http.Unauthorized(error.message)
    ensures r.status == 401 && Http.ErrorMessage(r).Some? && Http.ErrorMessage(r).value == error.message
  {
    Http.HttpResponse(401, Http.Obj(map["error" := Http.Str(error.message)]))
  }

  function NoContent(): (r: Http.HttpResponse)
    ensures r == Http.NoContent()
    ensures r.status == 204 && r.jsonBody.Undefined?
  {
    Http.HttpResponse(204, Http.Undefined)
  }

  function Created(body: Http.Json): (r: Http.HttpResponse)
    ensures r == Http.Created(body)
    ensures r.status == 201 && r.jsonBody == body
  {
    Http.HttpResponse(201, body)
  }

  function Ok(body: Http.Json): (r: Http.HttpResponse)
    ensures r == Http.Ok(body)
    ensures r.status == 200 && r.jsonBody == body
  {
    Http.HttpResponse(200, body)
  }
}
