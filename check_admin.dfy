/** `CheckAdmin`, the administrator guard: authentication is checked first, the administrator role second. */
module CheckAdmin {
  import opened Common
  import opened Schema
  import Resolver

  const NoAutenticado: JsonError := JsonError(401, "", "No autenticado")
  const NoEsAdministrador: JsonError :=
    JsonError(403, "", "No tienes permisos de administrador para acceder a este recurso")

  /**
   * `handle` for the authenticated user `user` (none when the request is anonymous): an anonymous request
   * gets 401 and never 403, a non-administrator gets 403, and an administrator passes.
   */
  function Handle(t: Tables, user: Option<int>): (r: Option<JsonError>)
    ensures r.None? <==> user.Some? && Resolver.EsAdministrador(t, user.value)
    ensures user.None? ==> r == Some(NoAutenticado)
    ensures user.Some? && !Resolver.EsAdministrador(t, user.value) ==> r == Some(NoEsAdministrador)
  {
    if user.None? then Some(NoAutenticado)
    else if !Resolver.EsAdministrador(t, user.value) then Some(NoEsAdministrador)
    else None
  }
}
