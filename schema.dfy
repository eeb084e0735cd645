/**
 * The tables the authorization core reads and writes: the catalog records (users, roles, permissions,
 * modules), the two association tables `usuario_roles` and `rol_permisos`, and Sanctum's
 * `personal_access_tokens`. Records are identified by integer ids and refer to each other only by id.
 */
module Schema {
  import opened Common

  /** The role name every administrator check compares with, exactly and case-sensitively. */
  const AdminRoleName: string := "administrador"

  /** A user: login identifier, stored password hash and `estado` (active flag). */
  datatype User = User(rut: string, password: string, estado: bool)

  /** A role: its unique name and `estado`. */
  datatype Rol = Rol(nombre: string, estado: bool)

  /** A permission: its name and the module that owns it (`modulo_id`). */
  datatype Permiso = Permiso(nombre: string, moduloId: int)

  /** A module: its name and `estado`. */
  datatype Modulo = Modulo(nombre: string, estado: bool)

  /** A personal access token: its owner and the nullable `expires_at` (clock seconds). */
  datatype Token = Token(userId: int, expiresAt: Option<nat>)

  /** A `usuario_roles` row: (user_id, rol_id, modulo_id). */
  type Assignment = (int, int, int)

  /** A `rol_permisos` row: (rol_id, permiso_id). It carries no module column. */
  type Grant = (int, int)

  /**
   * A snapshot of every table. Both association tables are sets, so the unique indexes on
   * (user_id, rol_id, modulo_id) and (rol_id, permiso_id) hold by construction. The `next...` fields are
   * the auto-increment counters of the tables whose rows the core creates; ids are never reused.
   */
  datatype Tables = Tables(
    users: map<int, User>,
    roles: map<int, Rol>,
    permisos: map<int, Permiso>,
    modulos: map<int, Modulo>,
    usuarioRoles: set<Assignment>,
    rolPermisos: set<Grant>,
    tokens: map<int, Token>,
    nextRolId: int,
    nextPermisoId: int,
    nextModuloId: int,
    nextTokenId: int)

  /**
   * The foreign keys of both association tables, the module of every permission, ids below their
   * table's counter, tokens owned by existing users, unique login identifiers and unique role names.
   */
  predicate Integrity(t: Tables) {
    && (forall a | a in t.usuarioRoles :: a.0 in t.users && a.1 in t.roles && a.2 in t.modulos)
    && (forall g | g in t.rolPermisos :: g.0 in t.roles && g.1 in t.permisos)
    && (forall p | p in t.permisos :: t.permisos[p].moduloId in t.modulos)
    && (forall id | id in t.roles :: id < t.nextRolId)
    && (forall id | id in t.permisos :: id < t.nextPermisoId)
    && (forall id | id in t.modulos :: id < t.nextModuloId)
    && (forall id | id in t.tokens :: id < t.nextTokenId && t.tokens[id].userId in t.users)
    && (forall u, v | u in t.users && v in t.users && t.users[u].rut == t.users[v].rut :: u == v)
    && (forall r, s | r in t.roles && s in t.roles && t.roles[r].nombre == t.roles[s].nombre :: r == s)
  }

  /** The names of the roles, by id. */
  function NombresDeRoles(t: Tables): (r: map<int, string>)
    ensures r.Keys == t.roles.Keys && forall k | k in r :: r[k] == t.roles[k].nombre
  {
    map r | r in t.roles :: t.roles[r].nombre
  }

  /** The names of the modules, by id. */
  function NombresDeModulos(t: Tables): (r: map<int, string>)
    ensures r.Keys == t.modulos.Keys && forall k | k in r :: r[k] == t.modulos[k].nombre
  {
    map m | m in t.modulos :: t.modulos[m].nombre
  }

  /** The `unique:<table>,nombre` rule over a table's names, ignoring row `self` when given. */
  predicate NombreLibre(nombres: map<int, string>, nombre: string, self: Option<int>) {
    forall k | k in nombres && Some(k) != self :: nombres[k] != nombre
  }

  /**
   * The name rule of `store` and `update` in the role and module catalogs, on the name as the controller
   * receives it: `required`, and not the name of another row (an update ignores its own row).
   */
  function FallasNombre(nombres: map<int, string>, nombre: Option<string>, self: Option<int>): (r: set<string>)
    ensures r == {} <==> Present(nombre) && NombreLibre(nombres, nombre.value, self)
    ensures r <= {"nombre"}
  {
    if Present(nombre) && NombreLibre(nombres, nombre.value, self) then {} else {"nombre"}
  }

  /**
   * After the middleware, a name padded with spaces is the name itself: it collides with another row of
   * that name, and a name of whitespace alone is missing.
   */
  lemma NombreRellenoOcupado(nombres: map<int, string>, otro: int, self: Option<int>, blanco: string)
    requires otro in nombres && Some(otro) != self
    requires var n := nombres[otro]; n != [] && !EsEspacio(n[0]) && !EsEspacio(n[|n| - 1])
    requires forall k | 0 <= k < |blanco| :: EsEspacio(blanco[k])
    ensures FallasNombre(nombres, Entrada(Some(" " + nombres[otro] + " ")), self) == {"nombre"}
    ensures FallasNombre(nombres, Entrada(Some(blanco)), self) == {"nombre"}
  {
    var n := nombres[otro];
    TrimRecorta(n);
    assert (" " + n + " ")[1] == n[0];
    assert Entrada(Some(" " + n + " ")) == Some(n);
  }

  /** An array without repeated values has as many distinct elements as entries. */
  lemma {:induction false} DistinctElemsCard<T>(xs: seq<T>)
    requires !HasDuplicates(xs)
    ensures |Elems(xs)| == |xs|
  {
    if xs != [] {
      var tail := xs[1..];
      assert !HasDuplicates(tail) by {
        forall i, j | 0 <= i < j < |tail| ensures tail[i] != tail[j] {
          assert xs[i + 1] != xs[j + 1];
        }
      }
      DistinctElemsCard(tail);
      assert xs[0] !in Elems(tail) by {
        forall k | 0 <= k < |tail| ensures tail[k] != xs[0] {
          assert xs[0] != xs[k + 1];
        }
      }
      assert Elems(xs) == {xs[0]} + Elems(tail) by {
        assert xs == [xs[0]] + tail;
      }
    }
  }

  /** The rows of a batch insert built in a loop: one row `row(id)` per listed id, in order. */
  method BuildRows<T>(ids: seq<int>, row: int -> T) returns (rows: seq<T>)
    ensures |rows| == |ids|
    ensures forall k | 0 <= k < |ids| :: rows[k] == row(ids[k])
  {
    rows := [];
    var i := 0;
    while i < |ids|
      invariant 0 <= i <= |ids|
      invariant |rows| == i
      invariant forall k | 0 <= k < i :: rows[k] == row(ids[k])
    {
      rows := rows + [row(ids[i])];
      i := i + 1;
    }
  }

  /**
   * When distinct ids give distinct rows, the batch repeats a row exactly when the list repeats an id,
   * and its rows are exactly the rows of the listed ids.
   */
  lemma BuildRowsFacts<T>(ids: seq<int>, row: int -> T, rows: seq<T>)
    requires |rows| == |ids| && forall k | 0 <= k < |ids| :: rows[k] == row(ids[k])
    requires forall x, y | row(x) == row(y) :: x == y
    ensures HasDuplicates(rows) <==> HasDuplicates(ids)
    ensures forall x :: row(x) in Elems(rows) <==> x in Elems(ids)
    ensures forall a | a in Elems(rows) :: exists x :: x in Elems(ids) && a == row(x)
    ensures rows == [] <==> ids == []
  {
    if HasDuplicates(ids) {
      var j, k :| 0 <= j < k < |ids| && ids[j] == ids[k];
      assert rows[j] == rows[k];
    }
    if HasDuplicates(rows) {
      var j, k :| 0 <= j < k < |rows| && rows[j] == rows[k];
      assert ids[j] == ids[k];
    }
    forall x ensures row(x) in Elems(rows) <==> x in Elems(ids) {
      if x in Elems(ids) {
        var k :| 0 <= k < |ids| && ids[k] == x;
        assert rows[k] == row(x);
      }
      if row(x) in Elems(rows) {
        var k :| 0 <= k < |rows| && rows[k] == row(x);
        assert ids[k] == x;
      }
    }
    forall a | a in Elems(rows) ensures exists x :: x in Elems(ids) && a == row(x) {
      var k :| 0 <= k < |rows| && rows[k] == a;
      var x := ids[k];
      assert x in Elems(ids) && a == row(x);
    }
  }

  /**
   * A multi-row INSERT into a table with a unique index. The statement fails as a whole when a row
   * repeats within the batch or is already present; otherwise the table grows by exactly one row per
   * entry of the batch.
   */
  function InsertRows<T(==)>(table: set<T>, rows: seq<T>): (r: Option<set<T>>)
    ensures r.Some? <==> !HasDuplicates(rows) && Elems(rows) !! table
    ensures r.Some? ==> r.value == table + Elems(rows) && |r.value| == |table| + |rows|
  {
    if HasDuplicates(rows) || !(Elems(rows) !! table) then None
    else
      DistinctElemsCard(rows);
      Some(table + Elems(rows))
  }

  /** Deleting a user; `usuario_roles.user_id` is ON DELETE CASCADE. */
  function DeleteUser(t: Tables, u: int): (r: Tables)
    ensures u !in r.users && r.users.Keys == t.users.Keys - {u}
    ensures forall a | a in r.usuarioRoles :: a.0 != u
    ensures forall a | a in t.usuarioRoles && a.0 != u :: a in r.usuarioRoles
  {
    t.(users := t.users - {u}, usuarioRoles := (set a | a in t.usuarioRoles && a.0 != u))
  }

  /** Deleting a role; `usuario_roles.rol_id` and `rol_permisos.rol_id` are ON DELETE CASCADE. */
  function DeleteRol(t: Tables, rol: int): (r: Tables)
    ensures rol !in r.roles && r.roles.Keys == t.roles.Keys - {rol}
    ensures forall a | a in r.usuarioRoles :: a.1 != rol
    ensures forall g | g in r.rolPermisos :: g.0 != rol
    ensures forall a | a in t.usuarioRoles && a.1 != rol :: a in r.usuarioRoles
    ensures forall g | g in t.rolPermisos && g.0 != rol :: g in r.rolPermisos
  {
    t.(roles := t.roles - {rol},
       usuarioRoles := (set a | a in t.usuarioRoles && a.1 != rol),
       rolPermisos := (set g | g in t.rolPermisos && g.0 != rol))
  }

  /** Deleting a module; `usuario_roles.modulo_id` is ON DELETE CASCADE. */
  function DeleteModulo(t: Tables, m: int): (r: Tables)
    ensures m !in r.modulos && r.modulos.Keys == t.modulos.Keys - {m}
    ensures forall a | a in r.usuarioRoles :: a.2 != m
    ensures forall a | a in t.usuarioRoles && a.2 != m :: a in r.usuarioRoles
  {
    t.(modulos := t.modulos - {m}, usuarioRoles := (set a | a in t.usuarioRoles && a.2 != m))
  }

  /** Deleting a permission; `rol_permisos.permiso_id` is ON DELETE CASCADE. */
  function DeletePermiso(t: Tables, p: int): (r: Tables)
    ensures p !in r.permisos && r.permisos.Keys == t.permisos.Keys - {p}
    ensures forall g | g in r.rolPermisos :: g.1 != p
    ensures forall g | g in t.rolPermisos && g.1 != p :: g in r.rolPermisos
  {
    t.(permisos := t.permisos - {p}, rolPermisos := (set g | g in t.rolPermisos && g.1 != p))
  }

  /** The cascades keep every foreign key satisfied, provided no token still names a deleted user. */
  lemma DeleteUserKeepsIntegrity(t: Tables, u: int)
    requires Integrity(t)
    requires forall id | id in t.tokens :: t.tokens[id].userId != u
    ensures Integrity(DeleteUser(t, u))
  {
  }

  lemma DeleteRolKeepsIntegrity(t: Tables, rol: int)
    requires Integrity(t)
    ensures Integrity(DeleteRol(t, rol))
  {
  }

  /** Deleting a module keeps integrity only when no permission still belongs to it. */
  lemma DeleteModuloKeepsIntegrity(t: Tables, m: int)
    requires Integrity(t)
    requires forall p | p in t.permisos :: t.permisos[p].moduloId != m
    ensures Integrity(DeleteModulo(t, m))
  {
  }

  lemma DeletePermisoKeepsIntegrity(t: Tables, p: int)
    requires Integrity(t)
    ensures Integrity(DeletePermiso(t, p))
  {
  }
}
