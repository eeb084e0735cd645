/**
 * The `Modulo` model: who may enter a module, which roles are assigned in it, and its activation switch.
 * Entry is read from the user's assignment rows; only the user lists consult the user's own state.
 */
module ModuloModel {
  import opened Common
  import opened Schema
  import opened Database
  import Resolver

  /** `todosUsuarios`: the existing users with some assignment row in module `m`, active or not. */
  function TodosUsuarios(t: Tables, m: int): (r: set<int>)
    ensures forall u :: u in r <==> u in t.users && Resolver.TieneAccesoAModulo(t, u, m)
  {
    set a | a in t.usuarioRoles && a.2 == m && a.0 in t.users :: a.0
  }

  /** `usuarios`: the active users among `todosUsuarios`. */
  function Usuarios(t: Tables, m: int): (r: set<int>)
    ensures forall u :: u in r <==> u in TodosUsuarios(t, m) && t.users[u].estado
  {
    set a | a in t.usuarioRoles && a.2 == m && a.0 in t.users && t.users[a.0].estado :: a.0
  }

  /** `tieneUsuario`: the user has an assignment row in this module, which is what the resolver calls access. */
  function TieneUsuario(t: Tables, m: int, u: int): (r: bool)
    ensures r <==> Resolver.TieneAccesoAModulo(t, u, m)
    ensures u in t.users ==> (r <==> u in TodosUsuarios(t, m))
  {
    exists a | a in t.usuarioRoles :: a.2 == m && a.0 == u
  }

  /** `cantidadUsuarios`: the number of active users with access; positive exactly when one exists. */
  function CantidadUsuarios(t: Tables, m: int): (r: nat)
    ensures r > 0 <==> exists u :: u in t.users && t.users[u].estado && Resolver.TieneAccesoAModulo(t, u, m)
  {
    var us := Usuarios(t, m);
    assert |us| > 0 ==> exists u :: u in t.users && t.users[u].estado && Resolver.TieneAccesoAModulo(t, u, m) by {
      if |us| > 0 {
        var rows := set a | a in t.usuarioRoles && a.2 == m && a.0 in t.users && t.users[a.0].estado;
        assert us == set a | a in rows :: a.0;
        var a :| a in rows;
        var u: int := a.0;
        assert u in us;
      }
    }
    assert (exists u :: u in t.users && t.users[u].estado && Resolver.TieneAccesoAModulo(t, u, m)) ==> |us| > 0 by {
      if exists u :: u in t.users && t.users[u].estado && Resolver.TieneAccesoAModulo(t, u, m) {
        var u :| u in t.users && t.users[u].estado && Resolver.TieneAccesoAModulo(t, u, m);
        assert u in us;
      }
    }
    |us|
  }

  /** `rolesAsignados`: the existing roles that some user holds in this module. */
  function RolesAsignados(t: Tables, m: int): (r: set<int>)
    ensures forall rol :: rol in r <==> rol in t.roles && exists u :: rol in Resolver.RolesEnModulo(t, u, m)
  {
    var r := set a | a in t.usuarioRoles && a.2 == m && a.1 in t.roles :: a.1;
    assert forall rol | rol in t.roles && exists u :: rol in Resolver.RolesEnModulo(t, u, m) :: rol in r by {
      forall rol | rol in t.roles && exists u :: rol in Resolver.RolesEnModulo(t, u, m) ensures rol in r {
        var u :| rol in Resolver.RolesEnModulo(t, u, m);
        var a := (u, rol, m);
        assert a in t.usuarioRoles && a.2 == m && a.1 in t.roles;
      }
    }
    assert forall rol | rol in r :: exists u :: rol in Resolver.RolesEnModulo(t, u, m) by {
      forall rol | rol in r ensures exists u :: rol in Resolver.RolesEnModulo(t, u, m) {
        var a :| a in t.usuarioRoles && a.2 == m && a.1 in t.roles && a.1 == rol;
        var u: int := a.0;
        assert (u, rol, m) in t.usuarioRoles;
        assert rol in Resolver.RolesEnModulo(t, u, m);
      }
    }
    r
  }

  /** `estaActivo`: the module's state flag (a boolean cast, so the strict comparison is the flag itself). */
  function EstaActivo(t: Tables, m: int): (r: bool)
    requires m in t.modulos
    ensures forall u | Resolver.TieneAccesoAModulo(t, u, m) :: m in Resolver.Modulos(t, u) <==> r
  {
    t.modulos[m].estado
  }

  /** The tables with module `m`'s state flag set to `estado`. */
  function ConEstado(t: Tables, m: int, estado: bool): (r: Tables)
    requires m in t.modulos
    ensures r.modulos.Keys == t.modulos.Keys && r.modulos[m].estado == estado
    ensures r.modulos[m].nombre == t.modulos[m].nombre
    ensures forall k | k in t.modulos && k != m :: r.modulos[k] == t.modulos[k]
    ensures Integrity(t) ==> Integrity(r)
  {
    t.(modulos := t.modulos[m := t.modulos[m].(estado := estado)])
  }

  /**
   * Activating a module puts it in the module list of exactly the users with an assignment there, and
   * leaves every other module's place in every list as it was.
   */
  lemma ActivarShowsModulo(t: Tables, m: int, u: int)
    requires m in t.modulos
    ensures m in Resolver.Modulos(ConEstado(t, m, true), u) <==> Resolver.TieneAccesoAModulo(t, u, m)
    ensures forall k | k != m :: k in Resolver.Modulos(ConEstado(t, m, true), u) <==> k in Resolver.Modulos(t, u)
  {
    var t' := ConEstado(t, m, true);
    assert Resolver.TieneAccesoAModulo(t', u, m) == Resolver.TieneAccesoAModulo(t, u, m) by {
      assert Resolver.RolesEnModulo(t', u, m) == Resolver.RolesEnModulo(t, u, m);
    }
    forall k | k != m ensures k in Resolver.Modulos(t', u) <==> k in Resolver.Modulos(t, u) {
      assert Resolver.RolesEnModulo(t', u, k) == Resolver.RolesEnModulo(t, u, k);
    }
  }

  /** Deactivating a module removes it from every user's module list and touches no other entry. */
  lemma DesactivarHidesModulo(t: Tables, m: int, u: int)
    requires m in t.modulos
    ensures m !in Resolver.Modulos(ConEstado(t, m, false), u)
    ensures forall k | k != m :: k in Resolver.Modulos(ConEstado(t, m, false), u) <==> k in Resolver.Modulos(t, u)
  {
    var t' := ConEstado(t, m, false);
    forall k | k != m ensures k in Resolver.Modulos(t', u) <==> k in Resolver.Modulos(t, u) {
      assert Resolver.RolesEnModulo(t', u, k) == Resolver.RolesEnModulo(t, u, k);
    }
  }

  /** `activar`: sets the state flag and saves; the save reports success. */
  method Activar(db: Db, m: int) returns (saved: bool)
    requires db.Valid() && m in db.modulos
    modifies db
    ensures db.Valid() && saved
    ensures db.State() == ConEstado(old(db.State()), m, true)
  {
    db.modulos := db.modulos[m := db.modulos[m].(estado := true)];
    saved := true;
  }

  /** `desactivar`: clears the state flag and saves; the save reports success. */
  method Desactivar(db: Db, m: int) returns (saved: bool)
    requires db.Valid() && m in db.modulos
    modifies db
    ensures db.Valid() && saved
    ensures db.State() == ConEstado(old(db.State()), m, false)
  {
    db.modulos := db.modulos[m := db.modulos[m].(estado := false)];
    saved := true;
  }
}
