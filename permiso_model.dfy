/**
 * The `Permiso` model: the name-prefix classifier (`tipo`, `esLectura`, `esEscritura`), the role and user
 * queries of one permission, and the three helpers that change which roles hold it.
 */
module PermisoModel {
  import opened Common
  import opened Schema
  import opened Database
  import Resolver
  import RolModel

  /** PHP's `str_starts_with`. */
  predicate StartsWith(s: string, prefix: string) {
    |prefix| <= |s| && s[..|prefix|] == prefix
  }

  /** The kinds `tipo` tries, in order. */
  const Tipos: seq<string> := ["ver", "crear", "editar", "eliminar", "exportar", "importar"]

  /**
   * The first kind of `tipos` whose word followed by `_` starts the name, or none. The result is a kind
   * the name starts with, and no earlier kind matches.
   */
  function PrimerTipo(nombre: string, tipos: seq<string>): (r: Option<string>)
    ensures r.None? <==> forall i | 0 <= i < |tipos| :: !StartsWith(nombre, tipos[i] + "_")
    ensures r.Some? ==> exists i :: 0 <= i < |tipos| && tipos[i] == r.value && StartsWith(nombre, r.value + "_")
                                    && forall j | 0 <= j < i :: !StartsWith(nombre, tipos[j] + "_")
  {
    if tipos == [] then None
    else if StartsWith(nombre, tipos[0] + "_") then Some(tipos[0])
    else
      var r := PrimerTipo(nombre, tipos[1..]);
      assert forall i | 1 <= i < |tipos| :: tipos[i] == tipos[1..][i - 1];
      r
  }

  /** `tipo`: a loop over the kinds that returns the first one the name starts with. */
  method Tipo(nombre: string) returns (r: Option<string>)
    ensures r == PrimerTipo(nombre, Tipos)
  {
    var i := 0;
    while i < |Tipos|
      invariant 0 <= i <= |Tipos|
      invariant PrimerTipo(nombre, Tipos[i..]) == PrimerTipo(nombre, Tipos)
    {
      if StartsWith(nombre, Tipos[i] + "_") {
        return Some(Tipos[i]);
      }
      assert Tipos[i..][1..] == Tipos[i + 1..];
      i := i + 1;
    }
    return None;
  }

  /** `esLectura`: the name starts with `ver_`, which is exactly the names whose kind is `ver`. */
  function EsLectura(nombre: string): (r: bool)
    ensures r <==> PrimerTipo(nombre, Tipos) == Some("ver")
  {
    var b := StartsWith(nombre, "ver_");
    assert Tipos[0] + "_" == "ver_";
    b
  }

  /** A name cannot start with two of the kind prefixes: they differ within their common length. */
  lemma PrefixesExclusive(nombre: string, i: int, j: int)
    requires 0 <= i < j < |Tipos|
    requires StartsWith(nombre, Tipos[j] + "_")
    ensures !StartsWith(nombre, Tipos[i] + "_")
  {
    var a, b := Tipos[i] + "_", Tipos[j] + "_";
    var k := if (i, j) in {(2, 3), (2, 4), (3, 4)} then 1 else 0;
    assert k < |a| && k < |b| && a[k] != b[k];
    assert nombre[k] == b[k];
  }

  /** With the kind prefixes mutually exclusive, the kind of a name is the one whose prefix it carries. */
  lemma TipoOfPrefix(nombre: string, j: int)
    requires 0 <= j < |Tipos| && StartsWith(nombre, Tipos[j] + "_")
    ensures PrimerTipo(nombre, Tipos) == Some(Tipos[j])
  {
    forall i | 0 <= i < j ensures !StartsWith(nombre, Tipos[i] + "_") {
      PrefixesExclusive(nombre, i, j);
    }
    var r := PrimerTipo(nombre, Tipos);
    var k :| 0 <= k < |Tipos| && Tipos[k] == r.value && StartsWith(nombre, r.value + "_")
             && forall l | 0 <= l < k :: !StartsWith(nombre, Tipos[l] + "_");
    if k < j {
      PrefixesExclusive(nombre, k, j);
    }
    assert k == j;
  }

  /** `esEscritura`: the name starts with `crear_`, `editar_` or `eliminar_`. */
  function EsEscritura(nombre: string): (r: bool)
    ensures r <==> PrimerTipo(nombre, Tipos) in {Some("crear"), Some("editar"), Some("eliminar")}
  {
    var b := StartsWith(nombre, "crear_") || StartsWith(nombre, "editar_") || StartsWith(nombre, "eliminar_");
    assert Tipos[1] + "_" == "crear_" && Tipos[2] + "_" == "editar_" && Tipos[3] + "_" == "eliminar_";
    if StartsWith(nombre, "crear_") then TipoOfPrefix(nombre, 1); b
    else if StartsWith(nombre, "editar_") then TipoOfPrefix(nombre, 2); b
    else if StartsWith(nombre, "eliminar_") then TipoOfPrefix(nombre, 3); b
    else b
  }

  /** Export and import permissions have a kind but are neither reads nor writes. */
  lemma ExportarImportarNeither(nombre: string)
    requires StartsWith(nombre, "exportar_") || StartsWith(nombre, "importar_")
    ensures PrimerTipo(nombre, Tipos).Some?
    ensures !EsLectura(nombre) && !EsEscritura(nombre)
  {
    assert Tipos[4] + "_" == "exportar_" && Tipos[5] + "_" == "importar_";
    if StartsWith(nombre, "exportar_") {
      TipoOfPrefix(nombre, 4);
    } else {
      TipoOfPrefix(nombre, 5);
    }
  }

  /** `tieneRol`: the given existing role holds this permission. */
  function TieneRol(t: Tables, p: int, rol: int): (r: bool)
    ensures p in t.permisos ==> (r <==> rol in t.roles && p in RolModel.PermisosDeRol(t, rol))
  {
    (rol, p) in t.rolPermisos && rol in t.roles
  }

  /** `cantidadRoles`: how many existing roles hold this permission; positive exactly when one does. */
  function CantidadRoles(t: Tables, p: int): (r: nat)
    ensures r > 0 <==> exists g :: g in t.rolPermisos && g.1 == p && g.0 in t.roles
  {
    var rows := set g | g in t.rolPermisos && g.1 == p && g.0 in t.roles;
    assert |rows| > 0 ==> exists g :: g in t.rolPermisos && g.1 == p && g.0 in t.roles by {
      if |rows| > 0 {
        var g :| g in rows;
      }
    }
    assert (exists g :: g in t.rolPermisos && g.1 == p && g.0 in t.roles) ==> |rows| > 0 by {
      if exists g :: g in t.rolPermisos && g.1 == p && g.0 in t.roles {
        var g :| g in t.rolPermisos && g.1 == p && g.0 in t.roles;
        assert g in rows;
      }
    }
    |rows|
  }

  /** `estaAsignado`: some role holds this permission, which is a positive `cantidadRoles`. */
  function EstaAsignado(t: Tables, p: int): (r: bool)
    ensures r <==> CantidadRoles(t, p) > 0
  {
    exists g | g in t.rolPermisos :: g.1 == p && g.0 in t.roles
  }

  /** PHP truthiness of the optional module id: null and 0 both switch the module filter off. */
  predicate FiltraModulo(moduloId: Option<int>) {
    moduloId.Some? && moduloId.value != 0
  }

  /** Some assignment of the user names an existing role that holds the permission. */
  predicate ViaAlgunRol(t: Tables, u: int, p: int) {
    exists a | a in t.usuarioRoles :: a.0 == u && a.1 in t.roles && (a.1, p) in t.rolPermisos && p in t.permisos
  }

  /**
   * `usuarios($moduloId)`: users holding the permission through some role, and, when the module filter is
   * on, with some assignment in that module. The two conditions are checked independently.
   */
  function Usuarios(t: Tables, p: int, moduloId: Option<int>): (r: set<int>)
    ensures forall u :: u in r ==> u in t.users && ViaAlgunRol(t, u, p)
    ensures FiltraModulo(moduloId) ==> forall u | u in r :: Resolver.TieneAccesoAModulo(t, u, moduloId.value)
    ensures !FiltraModulo(moduloId) ==> forall u | u in t.users && ViaAlgunRol(t, u, p) :: u in r
    ensures FiltraModulo(moduloId) ==>
              forall u | u in t.users && ViaAlgunRol(t, u, p) && Resolver.TieneAccesoAModulo(t, u, moduloId.value) :: u in r
  {
    set u | u in t.users && ViaAlgunRol(t, u, p)
                         && (FiltraModulo(moduloId) ==> exists a | a in t.usuarioRoles :: a.0 == u && a.2 == moduloId.value)
  }

  /** The outcome of running a query: its rows, or a database error naming the unknown column. */
  datatype Consulta<T> = Filas(filas: T) | ColumnaDesconocida(columna: string)

  /**
   * `usuarios($moduloId)` as written. Inside `whereHas` the closure receives the role model's query
   * builder, not the `BelongsToMany` relation, so `wherePivot('modulo_id', $moduloId)` is taken as a
   * dynamic `where` on a column named `pivot` (compared with the string `'modulo_id'`). The roles query
   * has no such column, so with the module filter on the query fails; without it the users are those of
   * `Usuarios`.
   */
  function UsuariosComoEscrito(t: Tables, p: int, moduloId: Option<int>): (r: Consulta<set<int>>)
    ensures r.ColumnaDesconocida? <==> FiltraModulo(moduloId)
    ensures r.ColumnaDesconocida? ==> r.columna == "pivot"
    ensures r.Filas? ==> forall u :: u in r.filas <==> u in t.users && ViaAlgunRol(t, u, p)
  {
    if FiltraModulo(moduloId) then ColumnaDesconocida("pivot") else Filas(Usuarios(t, p, moduloId))
  }

  /**
   * A user who holds the permission in module `m` through the resolver gets no listing from the code
   * as written, while the intended filter lists them.
   */
  lemma UsuariosFiltradoFalla(t: Tables, p: int, u: int, m: int)
    requires Integrity(t) && u in t.users && m != 0
    requires p in Resolver.PermisosEnModulo(t, u, m)
    ensures UsuariosComoEscrito(t, p, Some(m)).ColumnaDesconocida?
    ensures u in Usuarios(t, p, Some(m))
  {
    UsuariosCoverResolver(t, p, u, m);
  }

  /** Whoever holds the permission in module `m` through the resolver is listed by `usuarios(m)`. */
  lemma UsuariosCoverResolver(t: Tables, p: int, u: int, m: int)
    requires Integrity(t) && u in t.users && m != 0
    requires p in Resolver.PermisosEnModulo(t, u, m)
    ensures u in Usuarios(t, p, Some(m))
  {
    var rol :| (u, rol, m) in t.usuarioRoles && (rol, p) in t.rolPermisos;
    var a := (u, rol, m);
    assert a in t.usuarioRoles && a.0 == u && a.1 in t.roles && (a.1, p) in t.rolPermisos;
    assert a.2 == m;
  }

  /**
   * The converse fails: a user holding the permission through a role of one module and some other role
   * in a second module is listed for the second module, where the resolver grants nothing.
   */
  lemma UsuariosFilterIsIndependent()
    ensures var t := Tables(map[2 := User("2", "h", true)],
                            map[3 := Rol("Operario", true), 4 := Rol("Visualizador", true)],
                            map[7 := Permiso("registrar_produccion", 2)],
                            map[1 := Modulo("Petróleo", true), 2 := Modulo("Producción", true)],
                            {(2, 3, 2), (2, 4, 1)}, {(3, 7)}, map[], 5, 8, 3, 1);
            2 in Usuarios(t, 7, Some(1)) && 7 !in Resolver.PermisosEnModulo(t, 2, 1)
  {
    var t := Tables(map[2 := User("2", "h", true)],
                    map[3 := Rol("Operario", true), 4 := Rol("Visualizador", true)],
                    map[7 := Permiso("registrar_produccion", 2)],
                    map[1 := Modulo("Petróleo", true), 2 := Modulo("Producción", true)],
                    {(2, 3, 2), (2, 4, 1)}, {(3, 7)}, map[], 5, 8, 3, 1);
    var a, b := (2, 3, 2), (2, 4, 1);
    assert a in t.usuarioRoles && a.1 in t.roles && (a.1, 7) in t.rolPermisos;
    assert ViaAlgunRol(t, 2, 7);
    assert b in t.usuarioRoles && b.0 == 2 && b.2 == 1;
  }

  // ---------------------------------------------------------------------------------------------------
  // The row-set helpers from the permission's side.
  // ---------------------------------------------------------------------------------------------------

  /** `syncWithoutDetaching` from the permission's side: the listed roles gain it, none lose it. */
  function AsignarA(rp: set<Grant>, p: int, rs: set<int>): (r: set<Grant>)
    ensures forall g :: g in r <==> g in rp || (g.1 == p && g.0 in rs)
  {
    var r := rp + set rol | rol in rs :: (rol, p);
    assert forall g: Grant | g.1 == p && g.0 in rs :: g in r by {
      forall g: Grant | g.1 == p && g.0 in rs ensures g in r {
        var rol: int := g.0;
        assert g == (rol, p);
      }
    }
    r
  }

  /** `detach` from the permission's side: only the listed roles lose it. */
  function RemoverDe(rp: set<Grant>, p: int, rs: set<int>): (r: set<Grant>)
    ensures forall g :: g in r <==> g in rp && !(g.1 == p && g.0 in rs)
  {
    set g | g in rp && !(g.1 == p && g.0 in rs)
  }

  /** `sync` from the permission's side: exactly the listed roles hold it afterwards. */
  function SincronizarCon(rp: set<Grant>, p: int, rs: set<int>): (r: set<Grant>)
    ensures forall g :: g in r <==> if g.1 == p then g.0 in rs else g in rp
  {
    var r := (set g | g in rp && g.1 != p) + set rol | rol in rs :: (rol, p);
    assert forall g: Grant | g.1 == p && g.0 in rs :: g in r by {
      forall g: Grant | g.1 == p && g.0 in rs ensures g in r {
        var rol: int := g.0;
        assert g == (rol, p);
      }
    }
    r
  }

  /** Granting one permission to one role is the same row whichever side the helper is called from. */
  lemma AsignarAMatchesConceder(rp: set<Grant>, p: int, rol: int)
    ensures AsignarA(rp, p, {rol}) == RolModel.Conceder(rp, rol, {p})
    ensures RemoverDe(rp, p, {rol}) == RolModel.Revocar(rp, rol, {p})
  {
  }

  /** Replacing twice with the same roles is replacing once. */
  lemma SincronizarConIdempotent(rp: set<Grant>, p: int, rs: set<int>)
    ensures SincronizarCon(SincronizarCon(rp, p, rs), p, rs) == SincronizarCon(rp, p, rs)
  {
  }

  /** True when every listed id is a role (the foreign key an insert into `rol_permisos` checks). */
  predicate AllRoles(t: Tables, rs: set<int>) {
    forall rol | rol in rs :: rol in t.roles
  }

  /**
   * `asignarARoles`, Eloquent's `syncWithoutDetaching` from the permission's side: one `attach` per
   * listed role not yet holding it, in list order and outside any transaction. The first unknown role id
   * fails its insert on the foreign key; the rows inserted for the roles before it stay.
   */
  method AsignarARoles(db: Db, p: int, ids: seq<int>) returns (ok: bool)
    requires db.Valid() && p in db.permisos
    modifies db
    ensures db.Valid()
    ensures ok <==> AllRoles(old(db.State()), Elems(ids))
    ensures var k := PrimerAusente(ids, old(db.roles).Keys);
            db.State() == old(db.State()).(rolPermisos := AsignarA(old(db.rolPermisos), p, Elems(ids[..k])))
  {
    var i := 0;
    while i < |ids|
      invariant 0 <= i <= |ids|
      invariant forall j | 0 <= j < i :: ids[j] in db.roles
      invariant db.Valid()
      invariant db.State() == old(db.State()).(rolPermisos := AsignarA(old(db.rolPermisos), p, Elems(ids[..i])))
    {
      if ids[i] !in db.roles {
        assert PrimerAusente(ids, old(db.roles).Keys) == i;
        var ausente := ids[i];
        assert ausente in Elems(ids) && ausente !in old(db.State()).roles;
        return false;
      }
      assert ids[..i + 1] == ids[..i] + [ids[i]];
      assert Elems(ids[..i + 1]) == Elems(ids[..i]) + {ids[i]};
      if (ids[i], p) !in db.rolPermisos {
        db.rolPermisos := db.rolPermisos + {(ids[i], p)};
      }
      i := i + 1;
    }
    assert ids[..i] == ids;
    return true;
  }

  /** `removerDeRoles`: deletes this permission's rows for the listed roles. */
  method RemoverDeRoles(db: Db, p: int, ids: seq<int>)
    requires db.Valid()
    modifies db
    ensures db.Valid()
    ensures db.State() == old(db.State()).(rolPermisos := RemoverDe(old(db.rolPermisos), p, Elems(ids)))
  {
    db.rolPermisos := RemoverDe(db.rolPermisos, p, Elems(ids));
  }

  /**
   * `sincronizarRoles`, Eloquent's `sync` from the permission's side: the rows of unlisted roles are
   * detached first, and then the listed roles are attached as `asignarARoles` does. An unknown role id
   * stops the attaching after the detach and after the rows of the roles before it.
   */
  method SincronizarRoles(db: Db, p: int, ids: seq<int>) returns (ok: bool)
    requires db.Valid() && p in db.permisos
    modifies db
    ensures db.Valid()
    ensures ok <==> AllRoles(old(db.State()), Elems(ids))
    ensures ok ==> db.State() == old(db.State()).(rolPermisos := SincronizarCon(old(db.rolPermisos), p, Elems(ids)))
    ensures var k := PrimerAusente(ids, old(db.roles).Keys);
            db.State() == old(db.State()).(rolPermisos := AsignarA(
              RemoverDe(old(db.rolPermisos), p, set g | g in old(db.rolPermisos) && g.1 == p && g.0 !in Elems(ids) :: g.0),
              p, Elems(ids[..k])))
  {
    var sobrantes := set g | g in db.rolPermisos && g.1 == p && g.0 !in Elems(ids) :: g.0;
    db.rolPermisos := RemoverDe(db.rolPermisos, p, sobrantes);
    assert db.roles == old(db.roles);
    ok := AsignarARoles(db, p, ids);
    assert db.roles == old(db.roles);
    if ok {
      forall j | 0 <= j < |ids| ensures ids[j] in old(db.roles) {
        var q := ids[j];
        assert q in Elems(ids);
      }
      var k := PrimerAusente(ids, old(db.roles).Keys);
      assert ids[..k] == ids;
      assert db.rolPermisos == SincronizarCon(old(db.rolPermisos), p, Elems(ids)) by {
        forall g | g in SincronizarCon(old(db.rolPermisos), p, Elems(ids)) ensures g in db.rolPermisos {
          if g.1 == p {
            var rol: int := g.0;
            assert (rol, p) == g;
          }
        }
      }
    }
  }
}
