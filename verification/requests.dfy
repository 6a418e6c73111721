/**
 The buffered request path of `OllamaInstance` and the status rules built on
 it: the status-code check, the copy/delete status mapping, the single-shot
 JSON decode and the version lookup. The HTTP exchange itself is a parameter:
 what `session.data(for:)` returned, or the error it threw.
 */
module Requests {
  import opened Wrappers
  import opened Bytes

  /** `OllamaError`. */
  datatype OllamaError = InvalidResponse | InvalidStatusCode | InvalidVersion | ModelNotFound

  /** Anything the request layer throws: one of its own errors, or an error
      from the transport or the JSON decoder passed through unchanged. */
  datatype ClientError<E> = Ollama(kind: OllamaError) | Underlying(cause: E)

  /** The response of one HTTP exchange; `status` is `None` when the response
      is not an `HTTPURLResponse`. */
  datatype Reply = Reply(status: Option<int>, body: Bytes)

  const STATUS_OK: int := 200
  const STATUS_NOT_FOUND: int := 404

  /** The exchange completed with an HTTP response whose status is exactly 200. */
  predicate Succeeded<E>(sent: Result<Reply, E>)
  {
    sent.Ok? && sent.value.status == Some(STATUS_OK)
  }

  /** The buffered `request` returning the body: only an HTTP 200 response is accepted. */
  function RequestData<E>(sent: Result<Reply, E>): (r: Result<Bytes, ClientError<E>>)
    ensures r.Ok? <==> Succeeded(sent)
    ensures r.Ok? ==> r.value == sent.value.body
    ensures sent.Err? ==> r == Err(Underlying(sent.error))
    ensures sent.Ok? && !Succeeded(sent) ==> r == Err(Ollama(InvalidResponse))
  {
    match sent
    case Err(e) => Err(Underlying(e))
    case Ok(reply) =>
      if reply.status.Some? && reply.status.value == STATUS_OK then Ok(reply.body)
      else Err(Ollama(InvalidResponse))
  }

  /** The `request` overload returning the status code: any HTTP response is accepted. */
  function RequestStatus<E>(sent: Result<Reply, E>): (r: Result<int, ClientError<E>>)
    ensures r.Ok? <==> sent.Ok? && sent.value.status.Some?
    ensures r.Ok? ==> r.value == sent.value.status.value
    ensures sent.Err? ==> r == Err(Underlying(sent.error))
    ensures sent.Ok? && sent.value.status.None? ==> r == Err(Ollama(InvalidResponse))
  {
    match sent
    case Err(e) => Err(Underlying(e))
    case Ok(reply) =>
      match reply.status
      case None => Err(Ollama(InvalidResponse))
      case Some(code) => Ok(code)
  }

  /** The `switch code` shared by `copyModel` and `deleteModel`. */
  function ModelStatus<E>(code: int): Outcome<ClientError<E>>
  {
    if code == STATUS_OK then Pass
    else if code == STATUS_NOT_FOUND then Fail(Ollama(ModelNotFound))
    else Fail(Ollama(InvalidStatusCode))
  }

  /** A model request judged by its status code. */
  function ModelRequest<E>(sent: Result<Reply, E>): Outcome<ClientError<E>>
  {
    match RequestStatus(sent)
    case Err(e) => Fail(e)
    case Ok(code) => ModelStatus(code)
  }

  /** `copyModel`: 200 is success, 404 is a missing model, any other status is
      rejected, and a failed exchange throws what the exchange threw. */
  function CopyModel<E>(sent: Result<Reply, E>): (r: Outcome<ClientError<E>>)
    ensures r == Pass <==> Succeeded(sent)
    ensures r == Fail(Ollama(ModelNotFound)) <==> sent.Ok? && sent.value.status == Some(404)
    ensures r == Fail(Ollama(InvalidStatusCode))
        <==> sent.Ok? && sent.value.status.Some? && sent.value.status.value !in {200, 404}
    ensures r == Fail(Ollama(InvalidResponse)) <==> sent.Ok? && sent.value.status.None?
    ensures sent.Err? ==> r == Fail(Underlying(sent.error))
  {
    ModelRequest(sent)
  }

  /** `deleteModel`: the same status mapping as `copyModel`. */
  function DeleteModel<E>(sent: Result<Reply, E>): (r: Outcome<ClientError<E>>)
    ensures r == Pass <==> Succeeded(sent)
    ensures r == Fail(Ollama(ModelNotFound)) <==> sent.Ok? && sent.value.status == Some(404)
    ensures r == Fail(Ollama(InvalidStatusCode))
        <==> sent.Ok? && sent.value.status.Some? && sent.value.status.value !in {200, 404}
    ensures r == Fail(Ollama(InvalidResponse)) <==> sent.Ok? && sent.value.status.None?
    ensures sent.Err? ==> r == Fail(Underlying(sent.error))
  {
    ModelRequest(sent)
  }

  /** A model request succeeds exactly when the buffered request would accept
      the same exchange: both insist on status 200. */
  lemma ModelRequestAgreesWithRequestData<E>(sent: Result<Reply, E>)
    ensures CopyModel(sent).Pass? <==> RequestData(sent).Ok?
    ensures DeleteModel(sent) == CopyModel(sent)
  {
  }

  /** `jsonRequest`: the body of an accepted response, decoded once. */
  function JsonRequest<T, E>(sent: Result<Reply, E>, decode: Bytes -> Result<T, E>)
    : (r: Result<T, ClientError<E>>)
    ensures r.Ok? <==> Succeeded(sent) && decode(sent.value.body).Ok?
    ensures r.Ok? ==> r.value == decode(sent.value.body).value
    ensures Succeeded(sent) && decode(sent.value.body).Err?
        ==> r == Err(Underlying(decode(sent.value.body).error))
    ensures !Succeeded(sent) ==> r.Err? && r.error == RequestData(sent).error
  {
    match RequestData(sent)
    case Err(e) => Err(e)
    case Ok(body) =>
      match decode(body)
      case Err(e) => Err(Underlying(e))
      case Ok(v) => Ok(v)
  }

  /** `getOllamaVersion`: the value under `"version"` of the decoded
      dictionary, or `invalidVersion` when that key is absent; the errors of
      the underlying `jsonRequest` pass through unchanged. */
  function GetOllamaVersion<E>(sent: Result<Reply, E>, decode: Bytes -> Result<map<string, string>, E>)
    : (r: Result<string, ClientError<E>>)
    ensures r.Ok? <==> Succeeded(sent) && decode(sent.value.body).Ok?
                        && "version" in decode(sent.value.body).value
    ensures r.Ok? ==> r.value == decode(sent.value.body).value["version"]
    ensures r == Err(Ollama(InvalidVersion))
        <==> Succeeded(sent) && decode(sent.value.body).Ok?
             && "version" !in decode(sent.value.body).value
    ensures Succeeded(sent) && decode(sent.value.body).Err?
        ==> r == Err(Underlying(decode(sent.value.body).error))
    ensures !Succeeded(sent) ==> r.Err? && r.error == RequestData(sent).error
  {
    match JsonRequest(sent, decode)
    case Err(e) => Err(e)
    case Ok(response) =>
      if "version" in response then Ok(response["version"])
      else Err(Ollama(InvalidVersion))
  }
}
