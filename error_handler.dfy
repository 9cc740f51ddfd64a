/** `handleApiError` (src/utils/errorHandler.js): the message shown for a
    failed request, from the shape of the error axios raised. */
module ErrorHandler {
  import opened Js

  /** `error.response`: the status and the parsed body of the reply. */
  datatype Response = Response(status: int, data: Value)

  /** The parts of an axios error the function reads: the reply, if one came
      back, and whether a request went out. */
  datatype ApiError = ApiError(response: Option<Response>, request: bool)

  /** The fixed message for the statuses the switch names, if any. */
  function StatusMessage(status: int): (r: Option<string>)
    ensures r.Some? <==> status in {400, 401, 403, 404, 500}
    ensures r.Some? ==> r.value != []
  {
    if status == 400 then Some("Datos inválidos. Por favor, verifica la información.")
    else if status == 401 then Some("Sesión expirada. Por favor, vuelve a iniciar sesión.")
    else if status == 403 then Some("No tienes permiso para realizar esta acción.")
    else if status == 404 then Some("Recurso no encontrado.")
    else if status == 500 then Some("Error en el servidor. Por favor, intenta más tarde.")
    else None
  }

  /** `data?.message`: the property of an object body; `undefined` for a
      missing body and for any value that has no such property. */
  function DataMessage(data: Value): (r: Value)
    ensures !data.Obj? ==> r == Undefined
    ensures data.Obj? ==> r == Get(data.fields, "message")
  {
    match data
    case Obj(fields) => Get(fields, "message")
    case _ => Undefined
  }

  const ConnectionMessage: string := "Error de conexión. Por favor, verifica tu conexión a internet."
  const ApplicationMessage: string := "Error en la aplicación. Por favor, recarga la página."
  const UnknownMessage: string := "Error desconocido."

  /** `handleApiError(error)`. */
  function HandleApiError(e: ApiError): (r: Value)
    ensures Truthy(r)
    ensures e.response.Some? && StatusMessage(e.response.value.status).Some? ==>
              r == Str(StatusMessage(e.response.value.status).value)
    ensures e.response.Some? && StatusMessage(e.response.value.status).None? ==>
              r == Or(DataMessage(e.response.value.data), Str(UnknownMessage))
    ensures e.response.None? && e.request ==> r == Str(ConnectionMessage)
    ensures e.response.None? && !e.request ==> r == Str(ApplicationMessage)
  {
    match e.response
    case Some(resp) =>
      (match StatusMessage(resp.status)
       case Some(m) => Str(m)
       case None => Or(DataMessage(resp.data), Str(UnknownMessage)))
    case None =>
      if e.request then Str(ConnectionMessage) else Str(ApplicationMessage)
  }

  /** A reply decides the message whether or not a request is recorded. */
  lemma ResponseTakesPrecedence(resp: Response, request: bool)
    ensures HandleApiError(ApiError(Some(resp), request)) == HandleApiError(ApiError(Some(resp), !request))
  {
  }

  /** For the five named statuses the body is ignored. */
  lemma NamedStatusIgnoresBody(status: int, a: Value, b: Value, request: bool)
    requires status in {400, 401, 403, 404, 500}
    ensures HandleApiError(ApiError(Some(Response(status, a)), request))
         == HandleApiError(ApiError(Some(Response(status, b)), request))
  {
  }

  /** The five fixed messages are pairwise different, so each tells its
      status apart. */
  lemma StatusMessagesDistinct(s: int, t: int)
    requires StatusMessage(s).Some? && StatusMessage(t).Some? && s != t
    ensures StatusMessage(s) != StatusMessage(t)
  {
  }

  /** Any other status shows the server's message when it is truthy, and the
      unknown-error text otherwise. */
  lemma OtherStatusShowsServerMessage(status: int, data: Value, request: bool)
    requires status !in {400, 401, 403, 404, 500}
    ensures Truthy(DataMessage(data)) ==>
              HandleApiError(ApiError(Some(Response(status, data)), request)) == DataMessage(data)
    ensures !Truthy(DataMessage(data)) ==>
              HandleApiError(ApiError(Some(Response(status, data)), request)) == Str(UnknownMessage)
  {
  }
}
