/**
 * The application's exception rendering: two callbacks registered in order. The framework offers an
 * exception to a callback only when it is an instance of the type of the callback's first parameter,
 * and stops at the first callback that answers. The first callback answers authentication failures of
 * JSON requests; the second maps every failure of an API request to a status and a JSON body.
 */
module Exceptions {
  import opened Common

  /** The exceptions the handler tells apart. */
  datatype Failure =
    | AuthenticationFailure
    | ValidationFailure(errors: map<string, seq<string>>)
    | ModelNotFound
    | AuthorizationFailure
    | HttpFailure(code: int, message: string)
    | OtherFailure(message: string, className: string)

  /** What the handler needs from a request: the JSON `Accept` flag and the path without leading slash. */
  datatype Request = Request(expectsJson: bool, path: string)

  /** A rendered JSON error: status, `error` code ("" when absent), message and validation errors. */
  datatype Rendered = Rendered(status: int, error: string, message: string, errors: map<string, seq<string>>)

  const SesionExpirada: string := "Tu sesión ha expirado. Por favor, inicia sesión nuevamente."
  const ErrorInterno: string := "Error interno del servidor"
  const ErrorEnLaSolicitud: string := "Error en la solicitud"

  /** The API path test of the handler: the path starts with `api/`. */
  predicate IsApiPath(path: string) {
    |path| >= 4 && path[..4] == "api/"
  }

  /** PHP truthiness of a string, as `?:` reads it: the empty string and "0" are false. */
  predicate Truthy(s: string) {
    s != "" && s != "0"
  }

  /** The first callback: a JSON request that failed authentication gets 401 `unauthenticated`. */
  function RenderAuthentication(req: Request): (r: Option<Rendered>)
    ensures r.Some? <==> req.expectsJson
    ensures r.Some? ==> r.value.status == 401 && r.value.error == "unauthenticated"
  {
    if req.expectsJson then Some(Rendered(401, "unauthenticated", SesionExpirada, map[])) else None
  }

  /**
   * The second callback: nothing for a non-JSON request outside the `api/` prefix; otherwise 422 with the field
   * errors, 404, 403, the HTTP exception's own status, or 500 whose message and class are shown only in
   * debug mode.
   */
  function RenderApi(e: Failure, req: Request, debug: bool): (r: Option<Rendered>)
    ensures r.Some? <==> req.expectsJson || IsApiPath(req.path)
    ensures r.Some? && e.ValidationFailure? ==> r.value.status == 422 && r.value.errors == e.errors
    ensures r.Some? && e.ModelNotFound? ==> r.value.status == 404
    ensures r.Some? && e.AuthorizationFailure? ==> r.value.status == 403
    ensures r.Some? && e.HttpFailure? ==> r.value.status == e.code && Truthy(r.value.message)
    ensures r.Some? && (e.OtherFailure? || e.AuthenticationFailure?) ==> r.value.status == 500
    ensures r.Some? && (e.OtherFailure? || e.AuthenticationFailure?) && !debug ==>
              r.value.message == ErrorInterno && r.value.error == "server_error"
  {
    if !(req.expectsJson || IsApiPath(req.path)) then None
    else
      match e
      case ValidationFailure(errors) => Some(Rendered(422, "", "Error de validación", errors))
      case ModelNotFound => Some(Rendered(404, "", "Recurso no encontrado", map[]))
      case AuthorizationFailure => Some(Rendered(403, "", "No tienes permisos para realizar esta acción", map[]))
      case HttpFailure(code, message) =>
        Some(Rendered(code, "", if Truthy(message) then message else ErrorEnLaSolicitud, map[]))
      case AuthenticationFailure =>
        Some(Rendered(500, if debug then "Illuminate\\Auth\\AuthenticationException" else "server_error",
                      if debug then "Unauthenticated." else ErrorInterno, map[]))
      case OtherFailure(message, className) =>
        Some(Rendered(500, if debug then className else "server_error", if debug then message else ErrorInterno, map[]))
  }

  /** The declared type of a callback's first parameter. */
  datatype ParamType = AuthenticationExceptionType | RequestType | ThrowableType

  /** Whether the exception is an instance of the type, which is when the framework offers it. */
  predicate InstanceOf(e: Failure, ty: ParamType) {
    match ty
    case AuthenticationExceptionType => e.AuthenticationFailure?
    case RequestType => false
    case ThrowableType => true
  }

  datatype Callback = AuthenticationCallback | ApiCallback

  /** A registered callback: the type of its first parameter and its body. */
  type Registration = (ParamType, Callback)

  function Invoke(cb: Callback, e: Failure, req: Request, debug: bool): Option<Rendered> {
    match cb
    case AuthenticationCallback => RenderAuthentication(req)
    case ApiCallback => RenderApi(e, req, debug)
  }

  /**
   * The framework's dispatch: the first registered callback that accepts the exception's type and
   * answers. No answer leaves the exception to the framework's own rendering.
   */
  function Dispatch(callbacks: seq<Registration>, e: Failure, req: Request, debug: bool): (r: Option<Rendered>)
    decreases |callbacks|
    ensures r.Some? ==> exists i :: 0 <= i < |callbacks| && InstanceOf(e, callbacks[i].0)
                                    && r == Invoke(callbacks[i].1, e, req, debug)
    ensures (forall i | 0 <= i < |callbacks| :: !InstanceOf(e, callbacks[i].0)) ==> r.None?
  {
    if callbacks == [] then None
    else
      var rest := Dispatch(callbacks[1..], e, req, debug);
      assert forall i | 1 <= i < |callbacks| :: callbacks[i] == callbacks[1..][i - 1];
      if InstanceOf(e, callbacks[0].0) && Invoke(callbacks[0].1, e, req, debug).Some? then
        Invoke(callbacks[0].1, e, req, debug)
      else rest
  }

  /** The registrations as written: the API callback's first parameter is the request. */
  const AsWritten: seq<Registration> := [(AuthenticationExceptionType, AuthenticationCallback), (RequestType, ApiCallback)]

  /** The registrations as intended: the API callback takes the exception first. */
  const Intended: seq<Registration> := [(AuthenticationExceptionType, AuthenticationCallback), (ThrowableType, ApiCallback)]

  /** The rendering of the handler as written. */
  function RenderAsWritten(e: Failure, req: Request, debug: bool): Option<Rendered> {
    Dispatch(AsWritten, e, req, debug)
  }

  /** The rendering with the API callback reachable. */
  function Render(e: Failure, req: Request, debug: bool): Option<Rendered> {
    Dispatch(Intended, e, req, debug)
  }

  /**
   * As written, the API callback is never offered an exception: only a JSON authentication failure is
   * rendered by the application, and a validation failure on an API route is not.
   */
  lemma ApiCallbackUnreachable(e: Failure, req: Request, debug: bool)
    ensures RenderAsWritten(e, req, debug) == (if e.AuthenticationFailure? then RenderAuthentication(req) else None)
    ensures RenderAsWritten(ValidationFailure(map["rut" := ["Las credenciales son incorrectas."]]),
                            Request(true, "api/auth/login"), false).None?
  {
    assert AsWritten[1..][1..] == [];
    assert AsWritten[1..] == [(RequestType, ApiCallback)];
  }

  /**
   * With the API callback reachable, every failure of an API or JSON request is rendered, an
   * authentication failure of a JSON request is the first callback's 401, and every other failure gets
   * the API callback's mapping.
   */
  lemma RenderCoversApi(e: Failure, req: Request, debug: bool)
    ensures Render(e, req, debug).Some? <==> req.expectsJson || IsApiPath(req.path)
    ensures e.AuthenticationFailure? && req.expectsJson ==> Render(e, req, debug) == RenderAuthentication(req)
    ensures !(e.AuthenticationFailure? && req.expectsJson) ==> Render(e, req, debug) == RenderApi(e, req, debug)
  {
    assert Intended[1..] == [(ThrowableType, ApiCallback)];
    assert Intended[1..][1..] == [];
  }

  /** The exception a failed controller reply stands for. */
  function FailureOf<T>(r: Reply<T>): Failure
    requires !r.Ok? && !r.Created? && !r.Refused?
  {
    match r
    case Invalid(fields) => ValidationFailure(map f | f in fields :: ["invalid"])
    case Rejected(field, message) => ValidationFailure(map[field := [message]])
    case NotFound => ModelNotFound
    case ServerError => OtherFailure("database error", "Illuminate\\Database\\QueryException")
  }

  /** The status a controller reply is given agrees with what the handler renders for its exception. */
  lemma ReplyStatusAgrees<T>(r: Reply<T>, path: string, debug: bool)
    requires !r.Ok? && !r.Created? && !r.Refused? && IsApiPath(path)
    ensures Render(FailureOf(r), Request(false, path), debug).Some?
    ensures Render(FailureOf(r), Request(false, path), debug).value.status == r.Status()
  {
    RenderCoversApi(FailureOf(r), Request(false, path), debug);
  }
}
