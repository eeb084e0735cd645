/**
 * `RoleManagementController`: the administrator's catalog of roles and each role's permission set. The
 * role named exactly `administrador` may not be edited, deleted or deactivated; a role still assigned to
 * someone may not be deleted; a role's permissions are replaced as a whole (delete, then one insert).
 * The model's `fillable` list names only `nombre` and `descripcion`, so a requested `estado` is dropped
 * by both `store` and `update`: a new role always starts active and `update` never changes the flag.
 */
module RoleManagement {
  import opened Common
  import opened Schema
  import opened Database
  import Resolver
  import RolModel

  const RolCreado: string := "Rol creado exitosamente"
  const RolActualizado: string := "Rol actualizado exitosamente"
  const RolEliminado: string := "Rol eliminado exitosamente"
  const PermisosAsignados: string := "Permisos asignados exitosamente"
  const NoEditarAdministrador: string := "No se puede editar el rol administrador"
  const NoEliminarAdministrador: string := "No se puede eliminar el rol administrador"
  const RolEnUso: string := "No se puede eliminar el rol porque está asignado a usuarios"
  const NoDesactivarAdministrador: string := "No se puede desactivar el rol administrador"

  // ---------------------------------------------------------------------------------------------------
  // store / update
  // ---------------------------------------------------------------------------------------------------

  /**
   * The state after `store`: a new active role under the next id, which is then advanced; every other
   * role and every other table is kept.
   */
  function Crear(t: Tables, nombre: string): (r: Tables)
    ensures r.roles.Keys == t.roles.Keys + {t.nextRolId} && r.roles[t.nextRolId] == Rol(nombre, true)
    ensures forall id | id in t.roles && id != t.nextRolId :: r.roles[id] == t.roles[id]
    ensures r.nextRolId > t.nextRolId
    ensures r == t.(roles := r.roles, nextRolId := r.nextRolId)
  {
    t.(roles := t.roles[t.nextRolId := Rol(nombre, true)], nextRolId := t.nextRolId + 1)
  }

  /**
   * Creating a role under a free name keeps integrity, and the name is then taken: a second `store` with
   * it is refused.
   */
  lemma CrearOcupaNombre(t: Tables, nombre: string)
    requires Integrity(t) && NombreLibre(NombresDeRoles(t), nombre, None)
    ensures Integrity(Crear(t, nombre))
    ensures FallasNombre(NombresDeRoles(Crear(t, nombre)), Some(nombre), None) == {"nombre"}
  {
    var t' := Crear(t, nombre);
    assert t.nextRolId !in t.roles;
    assert t'.roles[t.nextRolId].nombre == nombre;
  }

  /**
   * `store`: the requested name, trimmed by the middleware, creates an active role (201) when it is
   * present and unused; anything else is 422.
   */
  method Store(db: Db, nombre: Option<string>) returns (r: Reply<int>)
    requires db.Valid()
    modifies db
    ensures db.Valid()
    ensures r.Created? <==> FallasNombre(NombresDeRoles(old(db.State())), Entrada(nombre), None) == {}
    ensures r.Created? ==> r.value == old(db.nextRolId) && db.State() == Crear(old(db.State()), Entrada(nombre).value)
    ensures !r.Created? ==> r == Invalid({"nombre"}) && db.State() == old(db.State())
  {
    var t := db.State();
    var recibido := Entrada(nombre);
    var fallas := FallasNombre(NombresDeRoles(t), recibido, None);
    if fallas != {} {
      return Invalid(fallas);
    }
    CrearOcupaNombre(t, recibido.value);
    db.Store(Crear(t, recibido.value));
    r := Created(t.nextRolId);
  }

  /** The state after `update`: the role's name changes and its flag is kept. */
  function Renombrar(t: Tables, id: int, nombre: string): (r: Tables)
    requires id in t.roles
    ensures id in r.roles && r.roles[id] == Rol(nombre, t.roles[id].estado)
    ensures r == t.(roles := t.roles[id := t.roles[id].(nombre := nombre)])
  {
    t.(roles := t.roles[id := t.roles[id].(nombre := nombre)])
  }

  /** Renaming a role to a name no other role has keeps every foreign key and index. */
  lemma RenombrarKeepsIntegrity(t: Tables, id: int, nombre: string)
    requires Integrity(t) && id in t.roles && NombreLibre(NombresDeRoles(t), nombre, Some(id))
    ensures Integrity(Renombrar(t, id, nombre))
  {
  }

  /**
   * `update`: 404 for an unknown role; 403 for the role named `administrador`, before any validation;
   * 422 when the trimmed name is missing or taken by another role; otherwise the role is renamed.
   */
  method Update(db: Db, id: int, nombre: Option<string>) returns (r: Reply<string>)
    requires db.Valid()
    modifies db
    ensures db.Valid()
    ensures r.NotFound? <==> id !in old(db.roles)
    ensures r == Refused(403, NoEditarAdministrador) <==> id in old(db.roles) && old(db.roles[id].nombre) == AdminRoleName
    ensures r.Invalid? <==> (id in old(db.roles) && old(db.roles[id].nombre) != AdminRoleName
                             && FallasNombre(NombresDeRoles(old(db.State())), Entrada(nombre), Some(id)) != {})
    ensures !r.Ok? ==> db.State() == old(db.State())
    ensures r.Ok? ==> r.value == RolActualizado && db.State() == Renombrar(old(db.State()), id, Entrada(nombre).value)
    ensures r.Ok? || r.NotFound? || r.Invalid? || r == Refused(403, NoEditarAdministrador)
  {
    if id !in db.roles {
      return NotFound;
    }
    if db.roles[id].nombre == AdminRoleName {
      return Refused(403, NoEditarAdministrador);
    }
    var t := db.State();
    var recibido := Entrada(nombre);
    var fallas := FallasNombre(NombresDeRoles(t), recibido, Some(id));
    if fallas != {} {
      return Invalid(fallas);
    }
    RenombrarKeepsIntegrity(t, id, recibido.value);
    db.Store(Renombrar(t, id, recibido.value));
    r := Ok(RolActualizado);
  }

  /**
   * The edit guard protects only a role already named `administrador`. While no role has that name,
   * `update` may give it to any other role, and every holder of that role becomes an administrator.
   */
  lemma RenombrarOtorgaAdministrador(t: Tables, id: int, u: int, m: int)
    requires Integrity(t) && id in t.roles && t.roles[id].nombre != AdminRoleName
    requires NombreLibre(NombresDeRoles(t), AdminRoleName, Some(id)) && (u, id, m) in t.usuarioRoles
    ensures FallasNombre(NombresDeRoles(t), Some(AdminRoleName), Some(id)) == {}
    ensures Integrity(Renombrar(t, id, AdminRoleName))
    ensures Resolver.EsAdministrador(Renombrar(t, id, AdminRoleName), u)
  {
    assert !EsEspacio(AdminRoleName[0]);
    var t' := Renombrar(t, id, AdminRoleName);
    assert Resolver.TieneRol(t', u, AdminRoleName, m);
  }

  // ---------------------------------------------------------------------------------------------------
  // destroy / toggleStatus
  // ---------------------------------------------------------------------------------------------------

  /**
   * `destroy`: 404 for an unknown role; 403 for `administrador`; 422 while any assignment row names the
   * role; otherwise the role's grants and then the role are deleted.
   */
  method Destroy(db: Db, id: int) returns (r: Reply<string>)
    requires db.Valid()
    modifies db
    ensures db.Valid()
    ensures r.NotFound? <==> id !in old(db.roles)
    ensures r == Refused(403, NoEliminarAdministrador) <==> id in old(db.roles) && old(db.roles[id].nombre) == AdminRoleName
    ensures r == Refused(422, RolEnUso) <==> (id in old(db.roles) && old(db.roles[id].nombre) != AdminRoleName
                                              && RolModel.CantidadUsuarios(old(db.State()), id) > 0)
    ensures !r.Ok? ==> db.State() == old(db.State())
    ensures r.Ok? ==> r.value == RolEliminado && db.State() == DeleteRol(old(db.State()), id)
    ensures r.Ok? || r.NotFound? || r == Refused(403, NoEliminarAdministrador) || r == Refused(422, RolEnUso)
  {
    if id !in db.roles {
      return NotFound;
    }
    if db.roles[id].nombre == AdminRoleName {
      return Refused(403, NoEliminarAdministrador);
    }
    if RolModel.CantidadUsuarios(db.State(), id) > 0 {
      return Refused(422, RolEnUso);
    }
    DeleteRolKeepsIntegrity(db.State(), id);
    db.rolPermisos := set g | g in db.rolPermisos && g.0 != id;
    db.roles := db.roles - {id};
    assert db.usuarioRoles == set a | a in old(db.usuarioRoles) && a.1 != id;
    r := Ok(RolEliminado);
  }

  /**
   * Deleting a role nobody holds takes nothing from anybody: no assignment is lost, and every user keeps
   * exactly their permissions in every module.
   */
  lemma DeleteUnusedRolKeepsAccess(t: Tables, id: int)
    requires RolModel.CantidadUsuarios(t, id) == 0
    ensures DeleteRol(t, id).usuarioRoles == t.usuarioRoles
    ensures forall u, m, p :: p in Resolver.PermisosEnModulo(DeleteRol(t, id), u, m) <==> p in Resolver.PermisosEnModulo(t, u, m)
  {
    var t' := DeleteRol(t, id);
    assert t'.usuarioRoles == t.usuarioRoles;
    forall u, m, p | p in Resolver.PermisosEnModulo(t, u, m) ensures p in Resolver.PermisosEnModulo(t', u, m) {
      var rol :| (u, rol, m) in t.usuarioRoles && (rol, p) in t.rolPermisos;
      assert rol != id;
      assert (rol, p) in t'.rolPermisos;
    }
  }

  /** `toggleStatus` refuses exactly an active role named `administrador`. */
  predicate ConmutacionBloqueada(rol: Rol) {
    rol.nombre == AdminRoleName && rol.estado
  }

  /**
   * `toggleStatus`: 404 for an unknown role; 403 for an active `administrador` (an inactive one may be
   * reactivated); otherwise the flag flips.
   */
  method ToggleStatus(db: Db, id: int) returns (r: Reply<bool>)
    requires db.Valid()
    modifies db
    ensures db.Valid()
    ensures r.NotFound? <==> id !in old(db.roles)
    ensures r == Refused(403, NoDesactivarAdministrador) <==> id in old(db.roles) && ConmutacionBloqueada(old(db.roles[id]))
    ensures !r.Ok? ==> db.State() == old(db.State())
    ensures r.Ok? ==> && id in old(db.roles) && r.value == !old(db.roles[id].estado)
                      && db.State() == old(db.State()).(roles := old(db.roles)[id := old(db.roles[id]).(estado := r.value)])
    ensures r.Ok? || r.NotFound? || r == Refused(403, NoDesactivarAdministrador)
  {
    if id !in db.roles {
      return NotFound;
    }
    if ConmutacionBloqueada(db.roles[id]) {
      return Refused(403, NoDesactivarAdministrador);
    }
    var estado := !db.roles[id].estado;
    db.roles := db.roles[id := db.roles[id].(estado := estado)];
    r := Ok(estado);
  }

  /**
   * A role's flag is not read by the resolver: deactivating a role takes no permission and no
   * administrator status from the users who hold it.
   */
  lemma EstadoDeRolIgnorado(t: Tables, id: int, estado: bool)
    requires id in t.roles
    ensures var t' := t.(roles := t.roles[id := t.roles[id].(estado := estado)]);
            && (forall u, m, p :: p in Resolver.PermisosEnModulo(t', u, m) <==> p in Resolver.PermisosEnModulo(t, u, m))
            && (forall u :: Resolver.EsAdministrador(t', u) <==> Resolver.EsAdministrador(t, u))
  {
    var t' := t.(roles := t.roles[id := t.roles[id].(estado := estado)]);
    forall u ensures Resolver.EsAdministrador(t', u) <==> Resolver.EsAdministrador(t, u) {
      if Resolver.EsAdministrador(t, u) {
        var m :| Resolver.TieneRol(t, u, AdminRoleName, m);
        assert Resolver.TieneRol(t', u, AdminRoleName, m);
      }
      if Resolver.EsAdministrador(t', u) {
        var m :| Resolver.TieneRol(t', u, AdminRoleName, m);
        assert Resolver.TieneRol(t, u, AdminRoleName, m);
      }
    }
  }

  // ---------------------------------------------------------------------------------------------------
  // assignPermisos / getPermisos
  // ---------------------------------------------------------------------------------------------------

  /**
   * The rules of `assignPermisos`: the list is required (an omitted or empty list fails) and every id
   * must be a permission.
   */
  function FallasPermisos(t: Tables, permisoIds: Option<seq<int>>): (r: set<string>)
    ensures r == {} <==> permisoIds.Some? && permisoIds.value != [] && RolModel.AllPermisos(t, Elems(permisoIds.value))
    ensures r <= {"permiso_ids"}
  {
    if permisoIds.Some? && permisoIds.value != [] && RolModel.AllPermisos(t, Elems(permisoIds.value)) then {}
    else {"permiso_ids"}
  }

  /** Replacing a role's grants with existing permissions keeps every foreign key. */
  lemma SincronizarKeepsIntegrity(t: Tables, id: int, ids: set<int>)
    requires Integrity(t) && id in t.roles && RolModel.AllPermisos(t, ids)
    ensures Integrity(t.(rolPermisos := RolModel.Sincronizar(t.rolPermisos, id, ids)))
  {
  }

  /** Clearing the role and then adding its new rows is the replacement; the new rows are all absent. */
  lemma SincronizarPorPartes(rp: set<Grant>, id: int, ids: set<int>, rows: set<Grant>)
    requires forall g :: g in rows <==> g.0 == id && g.1 in ids
    ensures rows !! RolModel.Sincronizar(rp, id, {})
    ensures RolModel.Sincronizar(rp, id, {}) + rows == RolModel.Sincronizar(rp, id, ids)
  {
  }

  /** The batch of `assignPermisos`: it repeats a row exactly when the list repeats an id. */
  lemma FilasDePermisos(id: int, ids: seq<int>, inserts: seq<Grant>)
    requires |inserts| == |ids| && forall k | 0 <= k < |ids| :: inserts[k] == ((p: int) => (id, p))(ids[k])
    ensures HasDuplicates(inserts) <==> HasDuplicates(ids)
    ensures forall g :: g in Elems(inserts) <==> g.0 == id && g.1 in Elems(ids)
    ensures inserts == [] <==> Elems(ids) == {}
  {
    var fila := (p: int) => (id, p);
    BuildRowsFacts(ids, fila, inserts);
    forall g: Grant | g.0 == id && g.1 in Elems(ids) ensures g in Elems(inserts) {
      var p: int := g.1;
      assert g == fila(p);
    }
    if ids != [] {
      assert ids[0] in Elems(ids);
    }
  }

  /** The loop that builds the batch of `assignPermisos`, one row per listed id. */
  method FilasDe(id: int, ids: seq<int>) returns (inserts: seq<Grant>)
    ensures HasDuplicates(inserts) <==> HasDuplicates(ids)
    ensures forall g :: g in Elems(inserts) <==> g.0 == id && g.1 in Elems(ids)
    ensures inserts == [] <==> Elems(ids) == {}
  {
    inserts := BuildRows(ids, (p: int) => (id, p));
    FilasDePermisos(id, ids, inserts);
  }

  /**
   * The insert after the delete: an empty batch leaves the cleared role, which is the replacement by an
   * empty list; otherwise the insert succeeds exactly when no id repeats, and then gives the replacement.
   */
  lemma InsercionReemplaza(antes: set<Grant>, id: int, ids: seq<int>, inserts: seq<Grant>)
    requires HasDuplicates(inserts) <==> HasDuplicates(ids)
    requires forall g :: g in Elems(inserts) <==> g.0 == id && g.1 in Elems(ids)
    requires inserts == [] <==> Elems(ids) == {}
    ensures inserts == [] ==> !HasDuplicates(ids) && RolModel.Sincronizar(antes, id, {}) == RolModel.Sincronizar(antes, id, Elems(ids))
    ensures inserts != [] ==> && (InsertRows(RolModel.Sincronizar(antes, id, {}), inserts).Some? <==> !HasDuplicates(ids))
                              && (InsertRows(RolModel.Sincronizar(antes, id, {}), inserts).Some? ==>
                                    InsertRows(RolModel.Sincronizar(antes, id, {}), inserts).value == RolModel.Sincronizar(antes, id, Elems(ids)))
  {
    SincronizarPorPartes(antes, id, Elems(ids), Elems(inserts));
  }

  /**
   * The writes of `assignPermisos`: delete the role's grants, then insert one row per listed id in a
   * single statement, which fails as a whole when an id repeats.
   */
  method ReemplazarPermisos(db: Db, id: int, ids: seq<int>) returns (ok: bool)
    requires db.Valid() && id in db.roles && RolModel.AllPermisos(db.State(), Elems(ids))
    modifies db
    ensures db.Valid()
    ensures ok <==> !HasDuplicates(ids)
    ensures db.State() == old(db.State()).(rolPermisos :=
              RolModel.Sincronizar(old(db.rolPermisos), id, if ok then Elems(ids) else {}))
  {
    var antes := db.rolPermisos;
    var borrado := RolModel.Sincronizar(antes, id, {});
    var inserts := FilasDe(id, ids);
    InsercionReemplaza(antes, id, ids, inserts);
    var nuevo := borrado;
    ok := true;
    if inserts != [] {
      var res := InsertRows(borrado, inserts);
      ok := res.Some?;
      if ok {
        nuevo := res.value;
      }
    }
    var lista := if ok then Elems(ids) else {};
    assert nuevo == RolModel.Sincronizar(antes, id, lista);
    SincronizarKeepsIntegrity(db.State(), id, lista);
    db.rolPermisos := nuevo;
    assert db.State() == old(db.State()).(rolPermisos := RolModel.Sincronizar(antes, id, lista));
  }

  /**
   * `assignPermisos`: 404 for an unknown role and 422 for a failed rule, with nothing written. Otherwise
   * the role's grants are deleted and one row per listed id is inserted in a single statement. An id
   * listed twice makes that insert violate the unique index after the delete: the reply is a server
   * error and the role is left with no permission.
   */
  method AssignPermisos(db: Db, id: int, permisoIds: Option<seq<int>>) returns (r: Reply<string>)
    requires db.Valid()
    modifies db
    ensures db.Valid()
    ensures r.NotFound? <==> id !in old(db.roles)
    ensures r.Invalid? <==> id in old(db.roles) && FallasPermisos(old(db.State()), permisoIds) != {}
    ensures r.NotFound? || r.Invalid? ==> db.State() == old(db.State())
    ensures r.Ok? ==> && r.value == PermisosAsignados
                      && db.State() == old(db.State()).(rolPermisos :=
                           RolModel.Sincronizar(old(db.rolPermisos), id, Elems(permisoIds.value)))
    ensures r.ServerError? <==> (id in old(db.roles) && FallasPermisos(old(db.State()), permisoIds) == {}
                                 && HasDuplicates(permisoIds.value))
    ensures r.ServerError? ==> db.State() == old(db.State()).(rolPermisos := RolModel.Sincronizar(old(db.rolPermisos), id, {}))
    ensures r.Ok? || r.NotFound? || r.Invalid? || r.ServerError?
  {
    if id !in db.roles {
      return NotFound;
    }
    var fallas := FallasPermisos(db.State(), permisoIds);
    if fallas != {} {
      return Invalid(fallas);
    }
    var ok := ReemplazarPermisos(db, id, permisoIds.value);
    r := if ok then Ok(PermisosAsignados) else ServerError;
  }

  /**
   * After a successful `assignPermisos`, the role holds exactly the listed permissions and every other
   * role keeps its own.
   */
  lemma AssignPermisosSetsRole(t: Tables, id: int, ids: set<int>)
    requires RolModel.AllPermisos(t, ids)
    ensures var t' := t.(rolPermisos := RolModel.Sincronizar(t.rolPermisos, id, ids));
            && (forall p :: p in RolModel.PermisosDeRol(t', id) <==> p in ids)
            && (forall rol, p | rol != id :: p in RolModel.PermisosDeRol(t', rol) <==> p in RolModel.PermisosDeRol(t, rol))
  {
  }

  /** `getPermisos`: 404 for an unknown role, otherwise the role's permissions grouped by module name. */
  function GetPermisos(t: Tables, id: int): (r: Reply<map<string, set<int>>>)
    ensures r.NotFound? <==> id !in t.roles
    ensures r.Ok? ==> forall n, p :: n in r.value && p in r.value[n] <==>
                        p in RolModel.PermisosDeRol(t, id) && RolModel.GrupoDe(t, p) == n
    ensures r.Ok? || r.NotFound?
  {
    if id !in t.roles then NotFound else Ok(RolModel.PermisosPorModulo(t, id))
  }
}
