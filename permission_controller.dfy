/**
 * `PermissionController`: the catalog of permissions. A permission's name is unique within its module
 * only (the same name may exist in several modules); `update` may move a permission to another module;
 * a permission still granted to a role may not be deleted.
 */
module PermissionController {
  import opened Common
  import opened Schema
  import opened Database
  import Resolver
  import PermisoModel

  const YaExiste: string := "Ya existe un permiso con este nombre en el módulo"
  const PermisoEnUso: string := "No se puede eliminar el permiso porque está asignado a roles"
  const PermisoEliminado: string := "Permiso eliminado exitosamente"

  /** No permission of module `m` other than `self` is called `nombre`. */
  predicate NombreLibreEnModulo(t: Tables, nombre: string, m: int, self: Option<int>) {
    forall p | p in t.permisos && Some(p) != self :: !(t.permisos[p].nombre == nombre && t.permisos[p].moduloId == m)
  }

  /** The catalog invariant the checks of `store` and `update` keep: no two permissions of one module share a name. */
  predicate NombresUnicosPorModulo(t: Tables) {
    forall p, q | p in t.permisos && q in t.permisos && t.permisos[p] == t.permisos[q] :: p == q
  }

  /**
   * The validation rules of `store` and `update`, applied to the request after the middleware: a present
   * name and a module that exists.
   */
  function FallasPermiso(t: Tables, nombre: Option<string>, moduloId: Option<int>): (r: set<string>)
    ensures r <= {"nombre", "modulo_id"}
    ensures "nombre" !in r <==> Present(nombre)
    ensures "modulo_id" !in r <==> moduloId.Some? && moduloId.value in t.modulos
  {
    (if Present(nombre) then {} else {"nombre"})
    + (if moduloId.Some? && moduloId.value in t.modulos then {} else {"modulo_id"})
  }

  /**
   * The state after `store`: a new permission under the next id, which is then advanced; every other
   * permission and every other table is kept.
   */
  function CrearPermiso(t: Tables, nombre: string, m: int): (r: Tables)
    ensures r.permisos.Keys == t.permisos.Keys + {t.nextPermisoId} && r.permisos[t.nextPermisoId] == Permiso(nombre, m)
    ensures forall p | p in t.permisos && p != t.nextPermisoId :: r.permisos[p] == t.permisos[p]
    ensures r.nextPermisoId > t.nextPermisoId
    ensures r == t.(permisos := r.permisos, nextPermisoId := r.nextPermisoId)
  {
    t.(permisos := t.permisos[t.nextPermisoId := Permiso(nombre, m)], nextPermisoId := t.nextPermisoId + 1)
  }

  /** The state after `update`: the permission's name and module are replaced; nothing else changes. */
  function EditarPermiso(t: Tables, id: int, nombre: string, m: int): (r: Tables)
    ensures r.permisos.Keys == t.permisos.Keys + {id} && r.permisos[id] == Permiso(nombre, m)
    ensures forall p | p in t.permisos && p != id :: r.permisos[p] == t.permisos[p]
    ensures r == t.(permisos := r.permisos)
  {
    t.(permisos := t.permisos[id := Permiso(nombre, m)])
  }

  /** A new permission under an existing module keeps every foreign key and index. */
  lemma CrearKeepsIntegrity(t: Tables, nombre: string, m: int)
    requires Integrity(t) && m in t.modulos
    ensures Integrity(CrearPermiso(t, nombre, m))
  {
    assert t.nextPermisoId !in t.permisos;
  }

  /** Moving a permission to an existing module keeps every foreign key and index. */
  lemma EditarKeepsIntegrity(t: Tables, id: int, nombre: string, m: int)
    requires Integrity(t) && id in t.permisos && m in t.modulos
    ensures Integrity(EditarPermiso(t, id, nombre, m))
  {
  }

  /**
   * Creating a permission under a name that is free in its module keeps integrity and the per-module
   * uniqueness, whatever other modules call their permissions.
   */
  lemma CrearPreservaUnicidad(t: Tables, nombre: string, m: int)
    requires Integrity(t) && NombresUnicosPorModulo(t) && m in t.modulos && NombreLibreEnModulo(t, nombre, m, None)
    ensures Integrity(CrearPermiso(t, nombre, m))
    ensures NombresUnicosPorModulo(CrearPermiso(t, nombre, m))
  {
    assert t.nextPermisoId !in t.permisos;
  }

  /** Editing a permission under a name free in its (possibly new) module keeps both invariants. */
  lemma EditarPreservaUnicidad(t: Tables, id: int, nombre: string, m: int)
    requires Integrity(t) && NombresUnicosPorModulo(t) && id in t.permisos && m in t.modulos
    requires NombreLibreEnModulo(t, nombre, m, Some(id))
    ensures Integrity(EditarPermiso(t, id, nombre, m))
    ensures NombresUnicosPorModulo(EditarPermiso(t, id, nombre, m))
  {
  }

  /**
   * Moving a permission to another module moves it in every user's effective permissions: it is then
   * held in the new module exactly by the users with a role there that is granted it, and in no other
   * module.
   */
  lemma MoverPermiso(t: Tables, id: int, nombre: string, m: int, u: int)
    requires id in t.permisos
    ensures id in Resolver.PermisosEnModulo(EditarPermiso(t, id, nombre, m), u, m) <==>
              exists rol :: (u, rol, m) in t.usuarioRoles && (rol, id) in t.rolPermisos
    ensures forall k | k != m :: id !in Resolver.PermisosEnModulo(EditarPermiso(t, id, nombre, m), u, k)
  {
  }

  /**
   * `store`: the name arrives trimmed by the middleware; a failed rule is 422 with the failing fields; a
   * name already used in the module is 422;
   * otherwise the permission is created (201).
   */
  method Store(db: Db, nombre: Option<string>, moduloId: Option<int>) returns (r: Reply<int>)
    requires db.Valid()
    modifies db
    ensures db.Valid()
    ensures NombresUnicosPorModulo(old(db.State())) ==> NombresUnicosPorModulo(db.State())
    ensures r.Invalid? <==> FallasPermiso(old(db.State()), Entrada(nombre), moduloId) != {}
    ensures r == Refused(422, YaExiste) <==> (FallasPermiso(old(db.State()), Entrada(nombre), moduloId) == {}
                                              && !NombreLibreEnModulo(old(db.State()), Entrada(nombre).value, moduloId.value, None))
    ensures !r.Created? ==> db.State() == old(db.State())
    ensures r.Created? ==> && r.value == old(db.nextPermisoId)
                           && db.State() == CrearPermiso(old(db.State()), Entrada(nombre).value, moduloId.value)
    ensures r.Created? || r.Invalid? || r == Refused(422, YaExiste)
  {
    var t := db.State();
    var recibido := Entrada(nombre);
    var fallas := FallasPermiso(t, recibido, moduloId);
    if fallas != {} {
      return Invalid(fallas);
    }
    if !NombreLibreEnModulo(t, recibido.value, moduloId.value, None) {
      return Refused(422, YaExiste);
    }
    if NombresUnicosPorModulo(t) {
      CrearPreservaUnicidad(t, recibido.value, moduloId.value);
    }
    CrearKeepsIntegrity(t, recibido.value, moduloId.value);
    db.Store(CrearPermiso(t, recibido.value, moduloId.value));
    r := Created(t.nextPermisoId);
  }

  /**
   * `update`: 404 for an unknown permission; on the trimmed name, a failed rule is 422; a name used by another permission of
   * the target module is 422; otherwise the name and the module are replaced.
   */
  method Update(db: Db, id: int, nombre: Option<string>, moduloId: Option<int>) returns (r: Reply<Permiso>)
    requires db.Valid()
    modifies db
    ensures db.Valid()
    ensures NombresUnicosPorModulo(old(db.State())) ==> NombresUnicosPorModulo(db.State())
    ensures r.NotFound? <==> id !in old(db.permisos)
    ensures r.Invalid? <==> id in old(db.permisos) && FallasPermiso(old(db.State()), Entrada(nombre), moduloId) != {}
    ensures r == Refused(422, YaExiste) <==> (id in old(db.permisos) && FallasPermiso(old(db.State()), Entrada(nombre), moduloId) == {}
                                              && !NombreLibreEnModulo(old(db.State()), Entrada(nombre).value, moduloId.value, Some(id)))
    ensures !r.Ok? ==> db.State() == old(db.State())
    ensures r.Ok? ==> && r.value == Permiso(Entrada(nombre).value, moduloId.value)
                      && db.State() == EditarPermiso(old(db.State()), id, Entrada(nombre).value, moduloId.value)
    ensures r.Ok? || r.NotFound? || r.Invalid? || r == Refused(422, YaExiste)
  {
    if id !in db.permisos {
      return NotFound;
    }
    var t := db.State();
    var recibido := Entrada(nombre);
    var fallas := FallasPermiso(t, recibido, moduloId);
    if fallas != {} {
      return Invalid(fallas);
    }
    if !NombreLibreEnModulo(t, recibido.value, moduloId.value, Some(id)) {
      return Refused(422, YaExiste);
    }
    if NombresUnicosPorModulo(t) {
      EditarPreservaUnicidad(t, id, recibido.value, moduloId.value);
    }
    EditarKeepsIntegrity(t, id, recibido.value, moduloId.value);
    db.Store(EditarPermiso(t, id, recibido.value, moduloId.value));
    r := Ok(Permiso(recibido.value, moduloId.value));
  }

  /**
   * `destroy`: 404 for an unknown permission; 422 while a role holds it; otherwise it is deleted.
   */
  method Destroy(db: Db, id: int) returns (r: Reply<string>)
    requires db.Valid()
    modifies db
    ensures db.Valid()
    ensures r.NotFound? <==> id !in old(db.permisos)
    ensures r == Refused(422, PermisoEnUso) <==> id in old(db.permisos) && PermisoModel.CantidadRoles(old(db.State()), id) > 0
    ensures !r.Ok? ==> db.State() == old(db.State())
    ensures r.Ok? ==> r.value == PermisoEliminado && db.State() == DeletePermiso(old(db.State()), id)
    ensures r.Ok? || r.NotFound? || r == Refused(422, PermisoEnUso)
  {
    if id !in db.permisos {
      return NotFound;
    }
    if PermisoModel.CantidadRoles(db.State(), id) > 0 {
      return Refused(422, PermisoEnUso);
    }
    DeletePermisoKeepsIntegrity(db.State(), id);
    db.permisos := db.permisos - {id};
    db.rolPermisos := set g | g in db.rolPermisos && g.1 != id;
    r := Ok(PermisoEliminado);
  }

  /**
   * A permission no role holds can be deleted without any grant going with it, and no user loses any
   * permission in any module.
   */
  lemma DestroyUnassignedKeepsAccess(t: Tables, id: int)
    requires Integrity(t) && PermisoModel.CantidadRoles(t, id) == 0
    ensures DeletePermiso(t, id).rolPermisos == t.rolPermisos
    ensures forall u, m, p :: p in Resolver.PermisosEnModulo(DeletePermiso(t, id), u, m) <==> p in Resolver.PermisosEnModulo(t, u, m)
  {
    forall g | g in t.rolPermisos ensures g.1 != id {
    }
    assert DeletePermiso(t, id).rolPermisos == t.rolPermisos;
  }

  /** The `modulo_id` query filter of `index`: applied when given and truthy (PHP reads 0 as false). */
  predicate Filtra(filtro: Option<int>, m: int) {
    filtro.None? || filtro.value == 0 || filtro.value == m
  }

  /**
   * `index`: the permissions (of the filtered module, when a filter is given) grouped by module id. Every
   * permission that passes the filter is in exactly its own module's group, and every group is non-empty.
   */
  function Index(t: Tables, filtro: Option<int>): (r: map<int, set<int>>)
    ensures forall m, p :: m in r && p in r[m] <==> p in t.permisos && t.permisos[p].moduloId == m && Filtra(filtro, m)
    ensures forall m | m in r :: exists p :: p in r[m]
  {
    var ps := set p | p in t.permisos && Filtra(filtro, t.permisos[p].moduloId);
    var r := map p | p in ps :: t.permisos[p].moduloId := set q | q in ps && t.permisos[q].moduloId == t.permisos[p].moduloId;
    assert forall m | m in r :: exists p :: p in r[m] by {
      forall m | m in r ensures exists p :: p in r[m] {
        var p :| p in ps && t.permisos[p].moduloId == m;
        assert r[m] == set q | q in ps && t.permisos[q].moduloId == m;
        assert p in r[m];
      }
    }
    r
  }
}
