/**
 * `AuthController`: the login that issues a session token, the logout and refresh that replace or revoke
 * it, and the read-only endpoints that report a user's modules, roles and permissions. The caller of a
 * protected endpoint (`current` token and `user`) is what the request gate established.
 */
module AuthController {
  import opened Common
  import opened Schema
  import opened Database
  import opened Sessions
  import Resolver

  const CredencialesIncorrectas: string := "Las credenciales son incorrectas."
  const CuentaDesactivada: string := "Tu cuenta está desactivada. Contacta al administrador."
  const SinAccesoAlModulo: string := "No tienes acceso a este módulo"

  /** What a successful login returns: the user, the new token and the configured lifetime in minutes. */
  datatype Session = Session(userId: int, tokenId: int, expiresInMinutes: Option<nat>)

  /** The roles (by name) and permissions (by name) a user holds in one module. */
  datatype Acceso = Acceso(roles: set<string>, permisos: set<string>)

  /** One entry of the module list: the module's name and the user's access in it. */
  datatype ModuloAcceso = ModuloAcceso(nombre: string, acceso: Acceso)

  /** The user whose login identifier is `rut`; identifiers are unique, so there is at most one. */
  function UserByRut(t: Tables, rut: string): (r: Option<int>)
    requires Integrity(t)
    ensures r.Some? ==> r.value in t.users && t.users[r.value].rut == rut
    ensures r.None? ==> forall u | u in t.users :: t.users[u].rut != rut
  {
    if exists u | u in t.users :: t.users[u].rut == rut then
      var u :| u in t.users && t.users[u].rut == rut;
      Some(u)
    else
      None
  }

  /** User `u` has login identifier `rut` and the stored hash accepts `password`. */
  predicate Accepts(t: Tables, hasher: Hasher, rut: string, password: string, u: int) {
    u in t.users && t.users[u].rut == rut && hasher.check(password, t.users[u].password)
  }

  /**
   * The checks of `login` before anything is written, on the request as the middleware leaves it (the
   * identifier trimmed, the password untouched): both fields present; then a user with that identifier
   * whose hash accepts the password; then an active account. An unknown identifier and a wrong password
   * give the same rejection, and the inactive-account rejection needs the right password.
   */
  function Authenticate(t: Tables, hasher: Hasher, rut: Option<string>, password: Option<string>): (r: Reply<int>)
    requires Integrity(t)
    ensures r.Invalid? <==> !Present(rut) || !Present(password)
    ensures r.Invalid? ==> ("rut" in r.fields <==> !Present(rut)) && ("password" in r.fields <==> !Present(password))
    ensures r.Ok? <==> (Present(rut) && Present(password)
                        && exists u :: Accepts(t, hasher, Trim(rut.value), password.value, u) && t.users[u].estado)
    ensures r.Ok? ==> r.value in t.users && t.users[r.value].rut == Trim(rut.value) && t.users[r.value].estado
    ensures r == Rejected("rut", CuentaDesactivada) <==>
              (Present(rut) && Present(password)
               && exists u :: Accepts(t, hasher, Trim(rut.value), password.value, u) && !t.users[u].estado)
    ensures r.Ok? || r.Invalid? || r == Rejected("rut", CredencialesIncorrectas) || r == Rejected("rut", CuentaDesactivada)
  {
    var recibido := Entrada(rut);
    if recibido.None? || !Present(password) then
      Invalid((if Present(rut) then {} else {"rut"}) + (if Present(password) then {} else {"password"}))
    else
      match UserByRut(t, recibido.value)
      case None => Rejected("rut", CredencialesIncorrectas)
      case Some(u) =>
        if !hasher.check(password.value, t.users[u].password) then Rejected("rut", CredencialesIncorrectas)
        else if !t.users[u].estado then Rejected("rut", CuentaDesactivada)
        else Ok(u)
  }

  /**
   * The rejection for an identifier nobody has is the rejection for a known identifier with a wrong
   * password, whatever else the two databases hold: the reply does not tell the two apart.
   */
  lemma UnknownRutIndistinguishable(t: Tables, t': Tables, hasher: Hasher, rut: string, password: string)
    requires Integrity(t) && Integrity(t') && Present(Some(rut)) && Present(Some(password))
    requires forall u | u in t.users :: t.users[u].rut != Trim(rut)
    requires exists u :: u in t'.users && t'.users[u].rut == Trim(rut) && !hasher.check(password, t'.users[u].password)
    ensures Authenticate(t, hasher, Some(rut), Some(password)) == Authenticate(t', hasher, Some(rut), Some(password))
  {
    var w :| w in t'.users && t'.users[w].rut == Trim(rut) && !hasher.check(password, t'.users[w].password);
    assert UserByRut(t', Trim(rut)) == Some(w);
  }

  /** An identifier padded with spaces finds the same account as the bare one: the middleware trims it. */
  lemma RutConEspacios(t: Tables, hasher: Hasher, rut: string, password: string)
    requires Integrity(t) && rut != [] && !EsEspacio(rut[0]) && !EsEspacio(rut[|rut| - 1])
    ensures Authenticate(t, hasher, Some(" " + rut + " "), Some(password)) == Authenticate(t, hasher, Some(rut), Some(password))
  {
    var x := " " + rut + " ";
    TrimRecorta(rut);
    assert x[1] == rut[0];
    assert Present(Some(x)) && Present(Some(rut));
    assert Entrada(Some(x)) == Entrada(Some(rut)) == Some(rut);
  }

  /**
   * The tables after a successful `login` of user `u`: their expired tokens are deleted and a token with
   * the given expiry is issued under the next id, which is then advanced.
   */
  function Emitir(t: Tables, u: int, now: nat, expira: Option<nat>): (r: Tables)
    requires Integrity(t) && u in t.users
    ensures Integrity(r)
    ensures r.tokens.Keys == Purge(t.tokens, u, now).Keys + {t.nextTokenId} && r.tokens[t.nextTokenId] == Token(u, expira)
    ensures r == t.(tokens := r.tokens, nextTokenId := t.nextTokenId + 1)
  {
    t.(tokens := Purge(t.tokens, u, now)[t.nextTokenId := Token(u, expira)], nextTokenId := t.nextTokenId + 1)
  }

  /**
   * `login`: on success, the user's expired tokens are deleted and a fresh token is issued with the
   * configured expiry; on any rejection nothing is written.
   */
  method Login(db: Db, hasher: Hasher, rut: Option<string>, password: Option<string>, now: nat, ttl: Option<nat>)
    returns (r: Reply<Session>)
    requires db.Valid()
    modifies db
    ensures db.Valid()
    ensures var a := Authenticate(old(db.State()), hasher, rut, password);
            && (r.Ok? <==> a.Ok?)
            && (!a.Ok? ==> r == a.Retype() && db.State() == old(db.State()))
            && (a.Ok? ==> && r.value == Session(a.value, old(db.nextTokenId), ttl)
                          && db.State() == Emitir(old(db.State()), a.value, now, ExpiresAt(now, ttl)))
  {
    var t := db.State();
    var a := Authenticate(t, hasher, rut, password);
    if !a.Ok? {
      return a.Retype();
    }
    var u := a.value;
    var id := t.nextTokenId;
    db.Store(Emitir(t, u, now, ExpiresAt(now, ttl)));
    r := Ok(Session(u, id, ttl));
  }

  /** `logout`: deletes the token the request was made with, and only it. */
  method Logout(db: Db, current: int) returns (r: Reply<string>)
    requires db.Valid() && current in db.tokens
    modifies db
    ensures db.Valid() && r == Ok("Logout exitoso")
    ensures db.State() == old(db.State()).(tokens := old(db.tokens) - {current})
  {
    db.tokens := db.tokens - {current};
    r := Ok("Logout exitoso");
  }

  /**
   * `refresh`: deletes the current token and issues a new one for the same user. No expiry is set on
   * the new token, so the middleware never finds it expired.
   */
  method Refresh(db: Db, current: int, user: int) returns (r: Reply<int>)
    requires db.Valid() && current in db.tokens && db.tokens[current].userId == user
    modifies db
    ensures db.Valid()
    ensures r == Ok(old(db.nextTokenId))
    ensures db.State() == old(db.State()).(
              tokens := (old(db.tokens) - {current})[old(db.nextTokenId) := Token(user, None)],
              nextTokenId := old(db.nextTokenId) + 1)
    ensures forall later: nat :: r.value in Live(db.tokens, user, later)
  {
    var id := db.nextTokenId;
    db.tokens := (db.tokens - {current})[id := Token(user, None)];
    db.nextTokenId := id + 1;
    r := Ok(id);
  }

  /** The user's roles and permissions in module `m`, by name. */
  function AccesoEn(t: Tables, u: int, m: int): (r: Acceso)
    ensures forall n :: n in r.roles <==> Resolver.TieneRol(t, u, n, m)
    ensures forall n :: n in r.permisos <==> Resolver.TienePermiso(t, u, n, m)
  {
    var roles := set rol | rol in Resolver.RolesEnModulo(t, u, m) && rol in t.roles :: t.roles[rol].nombre;
    var permisos := set p | p in Resolver.PermisosEnModulo(t, u, m) :: t.permisos[p].nombre;
    assert forall n | Resolver.TieneRol(t, u, n, m) :: n in roles by {
      forall n | Resolver.TieneRol(t, u, n, m) ensures n in roles {
        var rol :| (u, rol, m) in t.usuarioRoles && rol in t.roles && t.roles[rol].nombre == n;
        assert rol in Resolver.RolesEnModulo(t, u, m);
      }
    }
    assert forall n | Resolver.TienePermiso(t, u, n, m) :: n in permisos by {
      forall n | Resolver.TienePermiso(t, u, n, m) ensures n in permisos {
        var rol, p :| (u, rol, m) in t.usuarioRoles && (rol, p) in t.rolPermisos && p in t.permisos
                      && t.permisos[p] == Permiso(n, m);
        assert p in Resolver.PermisosEnModulo(t, u, m);
      }
    }
    assert forall n | n in permisos :: Resolver.TienePermiso(t, u, n, m) by {
      forall n | n in permisos ensures Resolver.TienePermiso(t, u, n, m) {
        var p :| p in Resolver.PermisosEnModulo(t, u, m) && t.permisos[p].nombre == n;
        var rol :| (u, rol, m) in t.usuarioRoles && (rol, p) in t.rolPermisos;
        assert t.permisos[p] == Permiso(n, m);
      }
    }
    Acceso(roles, permisos)
  }

  /**
   * `getModulos`: one entry per active module in which the user holds a role, carrying that module's
   * roles and its module-filtered permissions.
   */
  function GetModulos(t: Tables, u: int): (r: map<int, ModuloAcceso>)
    ensures forall m :: m in r <==> m in t.modulos && t.modulos[m].estado && Resolver.TieneAccesoAModulo(t, u, m)
    ensures forall m | m in r :: r[m].nombre == t.modulos[m].nombre
    ensures forall m, n | m in r :: n in r[m].acceso.permisos <==> Resolver.TienePermiso(t, u, n, m)
    ensures forall m, n | m in r :: n in r[m].acceso.roles <==> Resolver.TieneRol(t, u, n, m)
  {
    map m | m in Resolver.Modulos(t, u) :: ModuloAcceso(t.modulos[m].nombre, AccesoEn(t, u, m))
  }

  /**
   * `getPermisosModulo`: 403 without a role in the module, 404 for a module that does not exist, and
   * otherwise the module's name with the user's roles and permissions there. The module's state is not
   * consulted.
   */
  function GetPermisosModulo(t: Tables, u: int, m: int): (r: Reply<ModuloAcceso>)
    ensures r == Refused(403, SinAccesoAlModulo) <==> !Resolver.TieneAccesoAModulo(t, u, m)
    ensures r.Ok? <==> Resolver.TieneAccesoAModulo(t, u, m) && m in t.modulos
    ensures r.Ok? ==> r.value.nombre == t.modulos[m].nombre
                      && (forall n :: n in r.value.acceso.permisos <==> Resolver.TienePermiso(t, u, n, m))
                      && (forall n :: n in r.value.acceso.roles <==> Resolver.TieneRol(t, u, n, m))
    ensures r.Ok? || r.Refused? || r.NotFound?
  {
    if !Resolver.TieneAccesoAModulo(t, u, m) then Refused(403, SinAccesoAlModulo)
    else if m !in t.modulos then NotFound
    else Ok(ModuloAcceso(t.modulos[m].nombre, AccesoEn(t, u, m)))
  }

  /**
   * A deactivated module disappears from `getModulos` but `getPermisosModulo` still answers for it: the
   * two endpoints disagree exactly on inactive modules the user has a role in.
   */
  lemma InactiveModuleStillAnswers(t: Tables, u: int, m: int)
    requires m in t.modulos && !t.modulos[m].estado && Resolver.TieneAccesoAModulo(t, u, m)
    ensures m !in GetModulos(t, u)
    ensures GetPermisosModulo(t, u, m).Ok?
  {
  }

  /** The `exists:modulos,id` rule: the field is present and names an existing module. */
  predicate ModuloExiste(t: Tables, moduloId: Option<int>) {
    moduloId.Some? && moduloId.value in t.modulos
  }

  /**
   * `verificarPermiso`: after validation of the trimmed name, whether the user holds the named
   * permission in the module.
   */
  function VerificarPermiso(t: Tables, u: int, permiso: Option<string>, moduloId: Option<int>): (r: Reply<bool>)
    ensures r.Invalid? <==> !Present(permiso) || !ModuloExiste(t, moduloId)
    ensures r.Invalid? ==> ("permiso" in r.fields <==> !Present(permiso)) && ("modulo_id" in r.fields <==> !ModuloExiste(t, moduloId))
    ensures r.Ok? <==> !r.Invalid?
    ensures r.Ok? ==> (r.value <==> Resolver.TienePermiso(t, u, Trim(permiso.value), moduloId.value))
  {
    var recibido := Entrada(permiso);
    if recibido.None? || !ModuloExiste(t, moduloId) then
      Invalid((if Present(permiso) then {} else {"permiso"}) + (if ModuloExiste(t, moduloId) then {} else {"modulo_id"}))
    else
      Ok(Resolver.TienePermiso(t, u, recibido.value, moduloId.value))
  }

  /**
   * `validarToken`, the check external modules call: 422 for a missing or unknown module, 403 (with
   * `valid` false) without a role there, and otherwise `valid` true with the roles and permissions.
   */
  function ValidarToken(t: Tables, u: int, moduloId: Option<int>): (r: Reply<Acceso>)
    ensures r.Invalid? <==> !ModuloExiste(t, moduloId)
    ensures r == Refused(403, SinAccesoAlModulo) <==> ModuloExiste(t, moduloId) && !Resolver.TieneAccesoAModulo(t, u, moduloId.value)
    ensures r.Ok? <==> ModuloExiste(t, moduloId) && Resolver.TieneAccesoAModulo(t, u, moduloId.value)
    ensures r.Ok? ==> forall n :: n in r.value.permisos <==> Resolver.TienePermiso(t, u, n, moduloId.value)
    ensures r.Ok? ==> forall n :: n in r.value.roles <==> Resolver.TieneRol(t, u, n, moduloId.value)
  {
    if !ModuloExiste(t, moduloId) then Invalid({"modulo_id"})
    else if !Resolver.TieneAccesoAModulo(t, u, moduloId.value) then Refused(403, SinAccesoAlModulo)
    else Ok(AccesoEn(t, u, moduloId.value))
  }
}
