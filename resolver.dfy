/**
 * The authorization resolver of the `User` model: which roles a user holds in a module, whether the user
 * may enter it, which permissions the user has there, and whether the user is an administrator.
 * Assignments are scoped by module; grants are not, so the module filter of `PermisosEnModulo` is what
 * keeps one module's permissions out of another.
 */
module Resolver {
  import opened Common
  import opened Schema

  /** `rolesEnModulo`: the roles of the user's assignment rows in module `m`. */
  function RolesEnModulo(t: Tables, u: int, m: int): (r: set<int>)
    ensures forall rol :: rol in r <==> (u, rol, m) in t.usuarioRoles
  {
    set a | a in t.usuarioRoles && a.0 == u && a.2 == m :: a.1
  }

  /** `tieneAccesoAModulo`: some assignment row of the user names module `m`; the module's state is not consulted. */
  function TieneAccesoAModulo(t: Tables, u: int, m: int): (r: bool)
    ensures r <==> exists rol :: rol in RolesEnModulo(t, u, m)
  {
    var b := exists a | a in t.usuarioRoles :: a.0 == u && a.2 == m;
    assert b ==> exists rol :: rol in RolesEnModulo(t, u, m) by {
      if b {
        var a :| a in t.usuarioRoles && a.0 == u && a.2 == m;
        var rol: int := a.1;
        assert (u, rol, m) in t.usuarioRoles;
        assert rol in RolesEnModulo(t, u, m);
      }
    }
    b
  }

  /**
   * `permisosEnModulo`: empty when the user holds no role in `m`; otherwise the permissions granted to any
   * of those roles, kept only when the permission itself belongs to module `m`.
   */
  function PermisosEnModulo(t: Tables, u: int, m: int): (r: set<int>)
    ensures forall p :: p in r <==>
      && p in t.permisos
      && t.permisos[p].moduloId == m
      && exists rol :: (u, rol, m) in t.usuarioRoles && (rol, p) in t.rolPermisos
    ensures !TieneAccesoAModulo(t, u, m) ==> forall p :: p !in r
  {
    var roles := RolesEnModulo(t, u, m);
    if roles == {} then
      assert forall rol :: (u, rol, m) !in t.usuarioRoles by {
        forall rol ensures (u, rol, m) !in t.usuarioRoles {
          assert rol !in roles;
        }
      }
      {}
    else
      var permisoIds := set g | g in t.rolPermisos && g.0 in roles :: g.1;
      var r := set p | p in permisoIds && p in t.permisos && t.permisos[p].moduloId == m;
      assert forall p :: p in r <==> p in t.permisos && t.permisos[p].moduloId == m
                                     && exists rol :: (u, rol, m) in t.usuarioRoles && (rol, p) in t.rolPermisos by {
        forall p ensures p in permisoIds <==> exists rol :: (u, rol, m) in t.usuarioRoles && (rol, p) in t.rolPermisos {
          if p in permisoIds {
            var g :| g in t.rolPermisos && g.0 in roles && g.1 == p;
            var rol: int := g.0;
            assert (rol, p) == g;
            assert (u, rol, m) in t.usuarioRoles;
          }
          if exists rol :: (u, rol, m) in t.usuarioRoles && (rol, p) in t.rolPermisos {
            var rol :| (u, rol, m) in t.usuarioRoles && (rol, p) in t.rolPermisos;
            assert rol in roles;
            var g := (rol, p);
            assert g in t.rolPermisos && g.0 in roles;
          }
        }
      }
      r
  }

  /** `tienePermiso`: some permission of the user in module `m` carries the name. */
  function TienePermiso(t: Tables, u: int, nombre: string, m: int): (r: bool)
    ensures r <==> exists rol, p ::
      && (u, rol, m) in t.usuarioRoles
      && (rol, p) in t.rolPermisos
      && p in t.permisos
      && t.permisos[p] == Permiso(nombre, m)
  {
    var b := exists p | p in PermisosEnModulo(t, u, m) :: t.permisos[p].nombre == nombre;
    assert b ==> exists rol, p :: (u, rol, m) in t.usuarioRoles && (rol, p) in t.rolPermisos
                                  && p in t.permisos && t.permisos[p] == Permiso(nombre, m) by {
      if b {
        var p :| p in PermisosEnModulo(t, u, m) && t.permisos[p].nombre == nombre;
        var rol :| (u, rol, m) in t.usuarioRoles && (rol, p) in t.rolPermisos;
        assert t.permisos[p] == Permiso(nombre, m);
      }
    }
    b
  }

  /** `tieneRol`: one of the user's roles in module `m` has exactly the given name. */
  function TieneRol(t: Tables, u: int, nombre: string, m: int): (r: bool)
    ensures r <==> exists rol :: (u, rol, m) in t.usuarioRoles && rol in t.roles && t.roles[rol].nombre == nombre
  {
    exists rol | rol in RolesEnModulo(t, u, m) :: rol in t.roles && t.roles[rol].nombre == nombre
  }

  /** `esAdministrador`: the user holds, in some module, a role named exactly `AdminRoleName`. */
  function EsAdministrador(t: Tables, u: int): (r: bool)
    ensures r <==> exists m :: TieneRol(t, u, AdminRoleName, m)
  {
    var b := exists a | a in t.usuarioRoles :: a.0 == u && a.1 in t.roles && t.roles[a.1].nombre == AdminRoleName;
    assert b ==> exists m :: TieneRol(t, u, AdminRoleName, m) by {
      if b {
        var a :| a in t.usuarioRoles && a.0 == u && a.1 in t.roles && t.roles[a.1].nombre == AdminRoleName;
        var rol: int, m: int := a.1, a.2;
        assert (u, rol, m) in t.usuarioRoles;
        assert TieneRol(t, u, AdminRoleName, m);
      }
    }
    assert (exists m :: TieneRol(t, u, AdminRoleName, m)) ==> b by {
      if exists m :: TieneRol(t, u, AdminRoleName, m) {
        var m :| TieneRol(t, u, AdminRoleName, m);
        var rol :| (u, rol, m) in t.usuarioRoles && rol in t.roles && t.roles[rol].nombre == AdminRoleName;
        var a := (u, rol, m);
        assert a in t.usuarioRoles && a.0 == u && a.1 in t.roles && t.roles[a.1].nombre == AdminRoleName;
      }
    }
    b
  }

  /**
   * `esAdministradorEnModulo`: with no module it is `esAdministrador`; with a module it is the
   * administrator role in that module, which is the stronger of the two.
   */
  function EsAdministradorEnModulo(t: Tables, u: int, m: Option<int>): (r: bool)
    ensures m.None? ==> (r <==> EsAdministrador(t, u))
    ensures m.Some? ==> (r <==> TieneRol(t, u, AdminRoleName, m.value))
    ensures r ==> EsAdministrador(t, u)
  {
    if m.None? then EsAdministrador(t, u) else TieneRol(t, u, AdminRoleName, m.value)
  }

  /** The `modulos()` relation: the active modules in which the user holds some role, each once. */
  function Modulos(t: Tables, u: int): (r: set<int>)
    ensures forall m :: m in r <==> m in t.modulos && t.modulos[m].estado && TieneAccesoAModulo(t, u, m)
  {
    set a | a in t.usuarioRoles && a.0 == u && a.2 in t.modulos && t.modulos[a.2].estado :: a.2
  }

  /**
   * Granting a role more permissions, or a user more assignments, never takes a permission away:
   * `PermisosEnModulo` is monotone in both association tables.
   */
  lemma PermisosMonotone(t: Tables, t': Tables, u: int, m: int)
    requires t'.permisos == t.permisos
    requires t.usuarioRoles <= t'.usuarioRoles && t.rolPermisos <= t'.rolPermisos
    ensures forall p | p in PermisosEnModulo(t, u, m) :: p in PermisosEnModulo(t', u, m)
  {
  }

  /**
   * The permissions of a user in module `m` depend only on that user's rows for `m`: rows of other users
   * or other modules may change freely.
   */
  lemma PermisosLocal(t: Tables, t': Tables, u: int, m: int)
    requires t'.permisos == t.permisos && t'.rolPermisos == t.rolPermisos
    requires forall rol :: (u, rol, m) in t.usuarioRoles <==> (u, rol, m) in t'.usuarioRoles
    ensures forall p :: p in PermisosEnModulo(t, u, m) <==> p in PermisosEnModulo(t', u, m)
    ensures forall nombre :: TienePermiso(t, u, nombre, m) <==> TienePermiso(t', u, nombre, m)
  {
  }
}
