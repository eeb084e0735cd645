/**
 * `UserManagementController`: the administrator's actions on another user's assignments and account.
 * Role assignment works one module at a time: the user's rows for that module are replaced as a whole
 * (delete, then one insert), or one row is removed. Deactivating or deleting an account ends its
 * sessions. The acting administrator (`caller`) may not deactivate or delete their own account.
 */
module UserManagement {
  import opened Common
  import opened Schema
  import opened Database
  import opened Sessions
  import Resolver
  import AuthController

  const RolesAsignados: string := "Roles asignados exitosamente"
  const RolRemovido: string := "Rol removido exitosamente"
  const UsuarioEliminado: string := "Usuario eliminado exitosamente"
  const NoPuedesEliminarte: string := "No puedes eliminar tu propio usuario"
  const NoPuedesDesactivarte: string := "No puedes desactivar tu propio usuario"

  // ---------------------------------------------------------------------------------------------------
  // Replacing a user's roles in one module
  // ---------------------------------------------------------------------------------------------------

  /** The rows after user `u`'s roles in module `m` are replaced by `roles`; every other row is kept. */
  function Reemplazar(ur: set<Assignment>, u: int, m: int, roles: set<int>): (r: set<Assignment>)
    ensures forall a :: a in r <==> if a.0 == u && a.2 == m then a.1 in roles else a in ur
  {
    var r := (set a | a in ur && !(a.0 == u && a.2 == m)) + set rol | rol in roles :: (u, rol, m);
    assert forall a: Assignment | a.0 == u && a.2 == m && a.1 in roles :: a in r by {
      forall a: Assignment | a.0 == u && a.2 == m && a.1 in roles ensures a in r {
        var rol: int := a.1;
        assert a == (u, rol, m);
      }
    }
    r
  }

  /** Replacing twice with the same roles is replacing once. */
  lemma ReemplazarIdempotent(ur: set<Assignment>, u: int, m: int, roles: set<int>)
    ensures Reemplazar(Reemplazar(ur, u, m, roles), u, m, roles) == Reemplazar(ur, u, m, roles)
  {
  }

  /** Removing one role after a replacement is the replacement without that role. */
  lemma QuitarTrasReemplazar(ur: set<Assignment>, u: int, m: int, roles: set<int>, rol: int)
    ensures Reemplazar(ur, u, m, roles) - {(u, rol, m)} == Reemplazar(ur, u, m, roles - {rol})
  {
    var lhs, rhs := Reemplazar(ur, u, m, roles) - {(u, rol, m)}, Reemplazar(ur, u, m, roles - {rol});
    forall a | a in lhs ensures a in rhs {
    }
    forall a | a in rhs ensures a in lhs {
    }
  }

  /**
   * What a replacement means to the resolver: in module `m` the user holds exactly the given roles and
   * has exactly the module's own permissions some of them are granted; every other user and every other
   * module keeps its roles.
   */
  lemma ReemplazarResolves(t: Tables, u: int, m: int, roles: set<int>)
    ensures var t' := t.(usuarioRoles := Reemplazar(t.usuarioRoles, u, m, roles));
            && (forall rol :: rol in Resolver.RolesEnModulo(t', u, m) <==> rol in roles)
            && (forall p :: p in Resolver.PermisosEnModulo(t', u, m) <==>
                  p in t.permisos && t.permisos[p].moduloId == m && exists rol :: rol in roles && (rol, p) in t.rolPermisos)
            && (forall v, n, rol | v != u || n != m ::
                  rol in Resolver.RolesEnModulo(t', v, n) <==> rol in Resolver.RolesEnModulo(t, v, n))
  {
    var t' := t.(usuarioRoles := Reemplazar(t.usuarioRoles, u, m, roles));
    forall p ensures p in Resolver.PermisosEnModulo(t', u, m) <==>
                       p in t.permisos && t.permisos[p].moduloId == m && exists rol :: rol in roles && (rol, p) in t.rolPermisos {
      if exists rol :: rol in roles && (rol, p) in t.rolPermisos {
        var rol :| rol in roles && (rol, p) in t.rolPermisos;
        assert (u, rol, m) in t'.usuarioRoles;
      }
      if exists rol :: (u, rol, m) in t'.usuarioRoles && (rol, p) in t.rolPermisos {
        var rol :| (u, rol, m) in t'.usuarioRoles && (rol, p) in t.rolPermisos;
        assert rol in roles;
      }
    }
  }

  /** The validation rules of `assignRoles`: a module that exists, and role ids that all exist. */
  function FallasAsignacion(t: Tables, moduloId: Option<int>, rolIds: Option<seq<int>>): (r: set<string>)
    ensures r <= {"modulo_id", "rol_ids"}
    ensures "modulo_id" !in r <==> moduloId.Some? && moduloId.value in t.modulos
    ensures "rol_ids" !in r <==> forall rol | rol in rolIds.GetOr([]) :: rol in t.roles
  {
    (if moduloId.Some? && moduloId.value in t.modulos then {} else {"modulo_id"})
    + (if forall rol | rol in rolIds.GetOr([]) :: rol in t.roles then {} else {"rol_ids"})
  }

  /** Clearing the module and then adding its new rows is the replacement; the new rows are all absent. */
  lemma ReemplazarPorPartes(ur: set<Assignment>, u: int, m: int, roles: set<int>, rows: set<Assignment>)
    requires forall a :: a in rows <==> a.0 == u && a.2 == m && a.1 in roles
    ensures rows !! Reemplazar(ur, u, m, {})
    ensures Reemplazar(ur, u, m, {}) + rows == Reemplazar(ur, u, m, roles)
  {
  }

  /** Replacing with existing roles, for an existing user and module, keeps every foreign key. */
  lemma ReemplazarKeepsIntegrity(t: Tables, u: int, m: int, roles: set<int>)
    requires Integrity(t) && u in t.users && m in t.modulos && forall rol | rol in roles :: rol in t.roles
    ensures Integrity(t.(usuarioRoles := Reemplazar(t.usuarioRoles, u, m, roles)))
  {
  }

  /** The batch of `assignRoles`: it repeats a row exactly when the list repeats a role. */
  lemma FilasDeRoles(u: int, m: int, ids: seq<int>, inserts: seq<Assignment>)
    requires |inserts| == |ids| && forall k | 0 <= k < |ids| :: inserts[k] == ((rol: int) => (u, rol, m))(ids[k])
    ensures HasDuplicates(inserts) <==> HasDuplicates(ids)
    ensures forall a :: a in Elems(inserts) <==> a.0 == u && a.2 == m && a.1 in Elems(ids)
  {
    var fila := (rol: int) => (u, rol, m);
    BuildRowsFacts(ids, fila, inserts);
    forall a: Assignment | a.0 == u && a.2 == m && a.1 in Elems(ids) ensures a in Elems(inserts) {
      var rol: int := a.1;
      assert a == fila(rol);
    }
  }

  /**
   * The writes of `assignRoles`: delete the user's rows for the module, then insert one row per listed
   * role in a single statement (none for an empty list), which fails as a whole when a role repeats.
   */
  method ReemplazarRoles(db: Db, u: int, m: int, ids: seq<int>) returns (ok: bool)
    requires db.Valid() && u in db.users && m in db.modulos && forall rol | rol in ids :: rol in db.roles
    modifies db
    ensures db.Valid()
    ensures ok <==> !HasDuplicates(ids)
    ensures db.State() == old(db.State()).(usuarioRoles :=
              Reemplazar(old(db.usuarioRoles), u, m, if ok then Elems(ids) else {}))
  {
    db.usuarioRoles := Reemplazar(db.usuarioRoles, u, m, {});
    var inserts := BuildRows(ids, (rol: int) => (u, rol, m));
    FilasDeRoles(u, m, ids, inserts);
    ReemplazarPorPartes(old(db.usuarioRoles), u, m, Elems(ids), Elems(inserts));
    ok := true;
    if inserts != [] {
      var res := InsertRows(db.usuarioRoles, inserts);
      ok := res.Some?;
      if ok {
        db.usuarioRoles := res.value;
      }
    }
    assert db.State() == old(db.State()).(usuarioRoles := db.usuarioRoles);
    ReemplazarKeepsIntegrity(old(db.State()), u, m, if ok then Elems(ids) else {});
  }

  /**
   * `assignRoles`: an unknown user is 404 and a failed rule 422, with nothing written. Otherwise the
   * user's rows for the module are deleted and one row per listed role is inserted in a single
   * statement; an omitted list inserts nothing. A role listed twice makes that insert violate the unique
   * index after the delete has happened: the reply is a server error and the user is left with no role
   * in the module.
   */
  method AssignRoles(db: Db, u: int, moduloId: Option<int>, rolIds: Option<seq<int>>) returns (r: Reply<string>)
    requires db.Valid()
    modifies db
    ensures db.Valid()
    ensures r.NotFound? <==> u !in old(db.users)
    ensures r.Invalid? <==> u in old(db.users) && FallasAsignacion(old(db.State()), moduloId, rolIds) != {}
    ensures r.NotFound? || r.Invalid? ==> db.State() == old(db.State())
    ensures r.Ok? ==> && r.value == RolesAsignados
                      && db.State() == old(db.State()).(usuarioRoles :=
                           Reemplazar(old(db.usuarioRoles), u, moduloId.value, Elems(rolIds.GetOr([]))))
    ensures r.ServerError? <==> (u in old(db.users) && FallasAsignacion(old(db.State()), moduloId, rolIds) == {}
                                 && HasDuplicates(rolIds.GetOr([])))
    ensures r.ServerError? ==> db.State() == old(db.State()).(usuarioRoles := Reemplazar(old(db.usuarioRoles), u, moduloId.value, {}))
    ensures r.Ok? || r.NotFound? || r.Invalid? || r.ServerError?
  {
    if u !in db.users {
      return NotFound;
    }
    var fallas := FallasAsignacion(db.State(), moduloId, rolIds);
    if fallas != {} {
      return Invalid(fallas);
    }
    var ok := ReemplazarRoles(db, u, moduloId.value, rolIds.GetOr([]));
    r := if ok then Ok(RolesAsignados) else ServerError;
  }

  /** The validation rules of `removeRole`: a role and a module that both exist. */
  function FallasRemocion(t: Tables, rolId: Option<int>, moduloId: Option<int>): (r: set<string>)
    ensures "rol_id" !in r <==> rolId.Some? && rolId.value in t.roles
    ensures "modulo_id" !in r <==> moduloId.Some? && moduloId.value in t.modulos
    ensures r <= {"rol_id", "modulo_id"}
  {
    (if rolId.Some? && rolId.value in t.roles then {} else {"rol_id"})
    + (if moduloId.Some? && moduloId.value in t.modulos then {} else {"modulo_id"})
  }

  /**
   * `removeRole`: deletes the single row (user, role, module) and nothing else; the reply is the same
   * whether or not the row existed.
   */
  method RemoveRole(db: Db, u: int, rolId: Option<int>, moduloId: Option<int>) returns (r: Reply<string>)
    requires db.Valid()
    modifies db
    ensures db.Valid()
    ensures r.NotFound? <==> u !in old(db.users)
    ensures r.Invalid? <==> u in old(db.users) && FallasRemocion(old(db.State()), rolId, moduloId) != {}
    ensures !r.Ok? ==> db.State() == old(db.State())
    ensures r.Ok? ==> && r.value == RolRemovido
                      && db.State() == old(db.State()).(usuarioRoles := old(db.usuarioRoles) - {(u, rolId.value, moduloId.value)})
    ensures r.Ok? || r.NotFound? || r.Invalid?
  {
    if u !in db.users {
      return NotFound;
    }
    var fallas := FallasRemocion(db.State(), rolId, moduloId);
    if fallas != {} {
      return Invalid(fallas);
    }
    db.usuarioRoles := db.usuarioRoles - {(u, rolId.value, moduloId.value)};
    r := Ok(RolRemovido);
  }

  /** Removing a role the user does not hold in the module changes nothing the resolver can see. */
  lemma RemoveAbsentIsNoOp(t: Tables, u: int, rol: int, m: int)
    requires (u, rol, m) !in t.usuarioRoles
    ensures t.(usuarioRoles := t.usuarioRoles - {(u, rol, m)}) == t
  {
  }

  // ---------------------------------------------------------------------------------------------------
  // Account state
  // ---------------------------------------------------------------------------------------------------

  /** The state after `toggleStatus` on user `id`: the flag flips; a deactivation deletes every token. */
  function Conmutar(t: Tables, id: int): (r: Tables)
    requires id in t.users
    ensures id in r.users && r.users[id].estado == !t.users[id].estado
    ensures r.users == t.users[id := t.users[id].(estado := !t.users[id].estado)]
    ensures r.users[id].estado ==> r.tokens == t.tokens
    ensures !r.users[id].estado ==> r.tokens == RevokeAll(t.tokens, id)
    ensures r == t.(users := r.users, tokens := r.tokens)
  {
    var estado := !t.users[id].estado;
    t.(users := t.users[id := t.users[id].(estado := estado)],
       tokens := if estado then t.tokens else RevokeAll(t.tokens, id))
  }

  /**
   * A deactivated account has no live session left, every other user keeps their tokens, and no
   * password lets it log in again.
   */
  lemma DesactivarCierraSesiones(t: Tables, id: int, hasher: Hasher, rut: Option<string>, password: Option<string>)
    requires Integrity(t) && id in t.users && t.users[id].estado
    ensures Integrity(Conmutar(t, id))
    ensures forall now: nat, k :: k !in Live(Conmutar(t, id).tokens, id, now)
    ensures forall k | k in t.tokens && t.tokens[k].userId != id :: k in Conmutar(t, id).tokens
    ensures AuthController.Authenticate(Conmutar(t, id), hasher, rut, password) != Ok(id)
  {
    var t' := Conmutar(t, id);
    assert !t'.users[id].estado;
  }

  /** Toggling twice restores every account flag; the sessions a deactivation ended stay ended. */
  lemma ConmutarDosVeces(t: Tables, id: int)
    requires id in t.users
    ensures Conmutar(Conmutar(t, id), id).users == t.users
    ensures t.users[id].estado ==> Conmutar(Conmutar(t, id), id).tokens == RevokeAll(t.tokens, id)
  {
    assert t.users[id := t.users[id].(estado := t.users[id].estado)] == t.users;
  }

  /**
   * `toggleStatus`: 404 for an unknown user and 403 for the caller's own account, with nothing written;
   * otherwise the state becomes `Conmutar` of the old one and the reply carries the new flag.
   */
  method ToggleStatus(db: Db, caller: int, id: int) returns (r: Reply<bool>)
    requires db.Valid()
    modifies db
    ensures db.Valid()
    ensures r.NotFound? <==> id !in old(db.users)
    ensures r == Refused(403, NoPuedesDesactivarte) <==> id in old(db.users) && id == caller
    ensures !r.Ok? ==> db.State() == old(db.State())
    ensures r.Ok? ==> && id in old(db.users) && r.value == !old(db.users[id].estado)
                      && db.State() == Conmutar(old(db.State()), id)
    ensures r.Ok? || r.NotFound? || r == Refused(403, NoPuedesDesactivarte)
  {
    if id !in db.users {
      return NotFound;
    }
    if id == caller {
      return Refused(403, NoPuedesDesactivarte);
    }
    var estado := !db.users[id].estado;
    db.users := db.users[id := db.users[id].(estado := estado)];
    if !estado {
      db.tokens := RevokeAll(db.tokens, id);
    }
    r := Ok(estado);
  }

  /** The state after `destroy` of user `id`: the user's rows, then tokens, then the user are deleted. */
  function Eliminar(t: Tables, id: int): (r: Tables)
    ensures r == DeleteUser(t.(tokens := RevokeAll(t.tokens, id)), id)
  {
    DeleteUser(t.(tokens := RevokeAll(t.tokens, id)), id)
  }

  /**
   * After `destroy`, the deleted user holds no role in any module and has no session, while every other
   * user keeps exactly their roles; integrity is kept.
   */
  lemma EliminarQuitaAcceso(t: Tables, id: int)
    requires Integrity(t)
    ensures Integrity(Eliminar(t, id))
    ensures forall m :: !Resolver.TieneAccesoAModulo(Eliminar(t, id), id, m)
    ensures forall now: nat, k :: k !in Live(Eliminar(t, id).tokens, id, now)
    ensures forall v, m, rol | v != id :: rol in Resolver.RolesEnModulo(Eliminar(t, id), v, m) <==> rol in Resolver.RolesEnModulo(t, v, m)
  {
    DeleteUserKeepsIntegrity(t.(tokens := RevokeAll(t.tokens, id)), id);
  }

  /**
   * `destroy`: 404 for an unknown user and 403 for the caller's own account, with nothing written;
   * otherwise the state becomes `Eliminar` of the old one.
   */
  method Destroy(db: Db, caller: int, id: int) returns (r: Reply<string>)
    requires db.Valid()
    modifies db
    ensures db.Valid()
    ensures r.NotFound? <==> id !in old(db.users)
    ensures r == Refused(403, NoPuedesEliminarte) <==> id in old(db.users) && id == caller
    ensures !r.Ok? ==> db.State() == old(db.State())
    ensures r.Ok? ==> r.value == UsuarioEliminado && db.State() == Eliminar(old(db.State()), id)
    ensures r.Ok? || r.NotFound? || r == Refused(403, NoPuedesEliminarte)
  {
    if id !in db.users {
      return NotFound;
    }
    if id == caller {
      return Refused(403, NoPuedesEliminarte);
    }
    EliminarQuitaAcceso(db.State(), id);
    db.usuarioRoles := set a | a in db.usuarioRoles && a.0 != id;
    db.tokens := RevokeAll(db.tokens, id);
    db.users := db.users - {id};
    r := Ok(UsuarioEliminado);
  }

  // ---------------------------------------------------------------------------------------------------
  // Reading a user's roles
  // ---------------------------------------------------------------------------------------------------

  /**
   * `getUserRoles`: the user's rows joined with their role and module and grouped by module id. Every
   * group is non-empty, and a role appears in a module's group exactly when the user holds it there.
   */
  function RolesPorModulo(t: Tables, u: int): (r: map<int, set<int>>)
    ensures forall m, rol :: m in r && rol in r[m] <==> (u, rol, m) in t.usuarioRoles && rol in t.roles && m in t.modulos
    ensures forall m | m in r :: exists rol :: rol in r[m]
  {
    var filas := set a | a in t.usuarioRoles && a.0 == u && a.1 in t.roles && a.2 in t.modulos;
    var r := map a | a in filas :: a.2 := set b | b in filas && b.2 == a.2 :: b.1;
    assert forall m | m in r :: exists rol :: rol in r[m] by {
      forall m | m in r ensures exists rol :: rol in r[m] {
        var a :| a in filas && a.2 == m;
        var rol: int := a.1;
        assert r[m] == set b | b in filas && b.2 == m :: b.1;
        assert rol in r[m];
      }
    }
    assert forall m, rol | (u, rol, m) in t.usuarioRoles && rol in t.roles && m in t.modulos :: m in r && rol in r[m] by {
      forall m, rol | (u, rol, m) in t.usuarioRoles && rol in t.roles && m in t.modulos ensures m in r && rol in r[m] {
        var a := (u, rol, m);
        assert a in filas;
      }
    }
    r
  }

  /** Under integrity the grouping drops nothing: its groups are the resolver's roles per module. */
  lemma RolesPorModuloIsResolver(t: Tables, u: int)
    requires Integrity(t)
    ensures forall m, rol :: m in RolesPorModulo(t, u) && rol in RolesPorModulo(t, u)[m] <==> rol in Resolver.RolesEnModulo(t, u, m)
    ensures forall m :: m in RolesPorModulo(t, u) <==> Resolver.TieneAccesoAModulo(t, u, m)
  {
    var r := RolesPorModulo(t, u);
    forall m ensures m in r <==> Resolver.TieneAccesoAModulo(t, u, m) {
      if Resolver.TieneAccesoAModulo(t, u, m) {
        var rol :| rol in Resolver.RolesEnModulo(t, u, m);
        assert rol in r[m];
      }
      if m in r {
        var rol :| rol in r[m];
        assert rol in Resolver.RolesEnModulo(t, u, m);
      }
    }
  }
}
