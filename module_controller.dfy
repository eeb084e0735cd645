/**
 * `ModuleController`: the catalog of modules. A new module is active unless the request says otherwise;
 * a module may be deleted only when no active user holds a role in it and no permission belongs to it.
 */
module ModuleController {
  import opened Common
  import opened Schema
  import opened Database
  import Resolver
  import ModuloModel

  const TieneUsuarios: string := "No se puede eliminar el módulo porque tiene usuarios asignados"
  const TienePermisos: string :=
    "No se puede eliminar el módulo porque tiene permisos asociados. Elimina los permisos primero."
  const ModuloEliminado: string := "Módulo eliminado exitosamente"

  /**
   * The state after `store`: a new module under the next id, which is then advanced; every other module
   * and every other table is kept.
   */
  function Alta(t: Tables, modulo: Modulo): (r: Tables)
    ensures r.modulos.Keys == t.modulos.Keys + {t.nextModuloId} && r.modulos[t.nextModuloId] == modulo
    ensures forall m | m in t.modulos && m != t.nextModuloId :: r.modulos[m] == t.modulos[m]
    ensures r.nextModuloId > t.nextModuloId
    ensures r == t.(modulos := r.modulos, nextModuloId := r.nextModuloId)
  {
    t.(modulos := t.modulos[t.nextModuloId := modulo], nextModuloId := t.nextModuloId + 1)
  }

  /** Adding a module under the next id keeps every foreign key and every index. */
  lemma AltaKeepsIntegrity(t: Tables, modulo: Modulo)
    requires Integrity(t)
    ensures Integrity(Alta(t, modulo))
  {
  }

  /** Replacing a module's name or flag touches no key, so every foreign key and index still holds. */
  lemma EdicionKeepsIntegrity(t: Tables, id: int, modulo: Modulo)
    requires Integrity(t) && id in t.modulos
    ensures Integrity(t.(modulos := t.modulos[id := modulo]))
  {
  }

  /**
   * `store`: a present, unused name (trimmed by the middleware) creates a module (201) whose flag is the
   * requested one, or active when the request has none; anything else is 422.
   */
  method Store(db: Db, nombre: Option<string>, estado: Option<bool>) returns (r: Reply<int>)
    requires db.Valid()
    modifies db
    ensures db.Valid()
    ensures r.Created? <==> FallasNombre(NombresDeModulos(old(db.State())), Entrada(nombre), None) == {}
    ensures r.Created? ==> && r.value == old(db.nextModuloId)
                           && db.State() == Alta(old(db.State()), Modulo(Entrada(nombre).value, estado.GetOr(true)))
    ensures r.Created? && estado.None? ==> db.modulos[r.value].estado
    ensures !r.Created? ==> r == Invalid({"nombre"}) && db.State() == old(db.State())
  {
    var t := db.State();
    var recibido := Entrada(nombre);
    var fallas := FallasNombre(NombresDeModulos(t), recibido, None);
    if fallas != {} {
      return Invalid(fallas);
    }
    var modulo := Modulo(recibido.value, estado.GetOr(true));
    AltaKeepsIntegrity(t, modulo);
    db.Store(Alta(t, modulo));
    r := Created(t.nextModuloId);
  }

  /**
   * `update`: 404 for an unknown module; 422 when the trimmed name is missing or used by another module;
   * otherwise the name is replaced and the flag too when the request carries one.
   */
  method Update(db: Db, id: int, nombre: Option<string>, estado: Option<bool>) returns (r: Reply<Modulo>)
    requires db.Valid()
    modifies db
    ensures db.Valid()
    ensures r.NotFound? <==> id !in old(db.modulos)
    ensures r.Invalid? <==> id in old(db.modulos) && FallasNombre(NombresDeModulos(old(db.State())), Entrada(nombre), Some(id)) != {}
    ensures !r.Ok? ==> db.State() == old(db.State())
    ensures r.Ok? ==> && r.value == Modulo(Entrada(nombre).value, estado.GetOr(old(db.modulos[id].estado)))
                      && db.State() == old(db.State()).(modulos := old(db.modulos)[id := r.value])
    ensures r.Ok? || r.NotFound? || r.Invalid?
  {
    if id !in db.modulos {
      return NotFound;
    }
    var t := db.State();
    var recibido := Entrada(nombre);
    var fallas := FallasNombre(NombresDeModulos(t), recibido, Some(id));
    if fallas != {} {
      return Invalid(fallas);
    }
    var modulo := Modulo(recibido.value, estado.GetOr(t.modulos[id].estado));
    EdicionKeepsIntegrity(t, id, modulo);
    db.Store(t.(modulos := t.modulos[id := modulo]));
    r := Ok(modulo);
  }

  /** Some permission belongs to module `m` (`permisos()->count() > 0`). */
  predicate TienePermisosPropios(t: Tables, m: int) {
    exists p :: p in t.permisos && t.permisos[p].moduloId == m
  }

  /**
   * `destroy`: 404 for an unknown module; 422 while an active user holds a role in it; then 422 while a
   * permission belongs to it; otherwise the module is deleted and its assignment rows go with it.
   */
  method Destroy(db: Db, id: int) returns (r: Reply<string>)
    requires db.Valid()
    modifies db
    ensures db.Valid()
    ensures r.NotFound? <==> id !in old(db.modulos)
    ensures r == Refused(422, TieneUsuarios) <==> id in old(db.modulos) && ModuloModel.CantidadUsuarios(old(db.State()), id) > 0
    ensures r == Refused(422, TienePermisos) <==> (id in old(db.modulos) && ModuloModel.CantidadUsuarios(old(db.State()), id) == 0
                                                   && TienePermisosPropios(old(db.State()), id))
    ensures !r.Ok? ==> db.State() == old(db.State())
    ensures r.Ok? ==> r.value == ModuloEliminado && db.State() == DeleteModulo(old(db.State()), id)
    ensures r.Ok? || r.NotFound? || r == Refused(422, TieneUsuarios) || r == Refused(422, TienePermisos)
  {
    if id !in db.modulos {
      return NotFound;
    }
    if ModuloModel.CantidadUsuarios(db.State(), id) > 0 {
      return Refused(422, TieneUsuarios);
    }
    if TienePermisosPropios(db.State(), id) {
      return Refused(422, TienePermisos);
    }
    DeleteModuloKeepsIntegrity(db.State(), id);
    db.modulos := db.modulos - {id};
    db.usuarioRoles := set a | a in db.usuarioRoles && a.2 != id;
    r := Ok(ModuloEliminado);
  }

  /**
   * The user guard of `destroy` counts active users only: a module whose assignments all belong to
   * inactive users passes it, and deleting the module then takes those users' rows with it.
   */
  lemma InactiveUsersDoNotBlock(t: Tables, id: int)
    requires Integrity(t)
    requires forall a | a in t.usuarioRoles && a.2 == id :: !t.users[a.0].estado
    ensures ModuloModel.CantidadUsuarios(t, id) == 0
    ensures forall u :: !Resolver.TieneAccesoAModulo(DeleteModulo(t, id), u, id)
  {
  }

  /** `toggleStatus`: 404 for an unknown module; otherwise the flag flips and nothing else changes. */
  method ToggleStatus(db: Db, id: int) returns (r: Reply<bool>)
    requires db.Valid()
    modifies db
    ensures db.Valid()
    ensures r.NotFound? <==> id !in old(db.modulos)
    ensures r.NotFound? ==> db.State() == old(db.State())
    ensures r.Ok? ==> && id in old(db.modulos) && r.value == !old(db.modulos[id].estado)
                      && db.State() == ModuloModel.ConEstado(old(db.State()), id, r.value)
    ensures r.Ok? || r.NotFound?
  {
    if id !in db.modulos {
      return NotFound;
    }
    var estado := !db.modulos[id].estado;
    db.Store(ModuloModel.ConEstado(db.State(), id, estado));
    r := Ok(estado);
  }
}
