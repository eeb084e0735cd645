/**
 * The database as a mutable object: one field per table. Controllers and middleware receive it and
 * change it in place; `State()` reads the whole of it as a `Tables` value so that contracts can compare
 * the state before and after an action.
 */
module Database {
  import opened Common
  import opened Schema

  class Db {
    var users: map<int, User>
    var roles: map<int, Rol>
    var permisos: map<int, Permiso>
    var modulos: map<int, Modulo>
    var usuarioRoles: set<Assignment>
    var rolPermisos: set<Grant>
    var tokens: map<int, Token>
    var nextRolId: int
    var nextPermisoId: int
    var nextModuloId: int
    var nextTokenId: int

    /** Every table, as one value. */
    function State(): Tables
      reads this
    {
      Tables(users, roles, permisos, modulos, usuarioRoles, rolPermisos, tokens,
             nextRolId, nextPermisoId, nextModuloId, nextTokenId)
    }

    /** The foreign keys and unique indexes hold. */
    ghost predicate Valid()
      reads this
    {
      Integrity(State())
    }

    /** A database holding the given tables. */
    constructor (t: Tables)
      requires Integrity(t)
      ensures State() == t && Valid()
    {
      users, roles, permisos, modulos := t.users, t.roles, t.permisos, t.modulos;
      usuarioRoles, rolPermisos := t.usuarioRoles, t.rolPermisos;
      tokens := t.tokens;
      nextRolId, nextPermisoId, nextModuloId, nextTokenId := t.nextRolId, t.nextPermisoId, t.nextModuloId, t.nextTokenId;
    }

    /** Overwrites every table with `t`. */
    method Store(t: Tables)
      modifies this
      ensures State() == t
    {
      users, roles, permisos, modulos := t.users, t.roles, t.permisos, t.modulos;
      usuarioRoles, rolPermisos := t.usuarioRoles, t.rolPermisos;
      tokens := t.tokens;
      nextRolId, nextPermisoId, nextModuloId, nextTokenId := t.nextRolId, t.nextPermisoId, t.nextModuloId, t.nextTokenId;
    }
  }
}
