/**
 * The role-assignment modal of the user-management page. It keeps the user's roles as a flat list of
 * (module, role) rows built from the grouped `getUserRoles` reply; a click on a role of a module sends
 * that module's whole new role list to `assignRoles`, then reloads the rows from the server.
 */
module UserManagementUi {
  import opened Common
  import opened Schema
  import UserManagement

  /** One group of the `getUserRoles` reply: a module id and the ids of the user's roles in it. */
  datatype Grupo = Grupo(moduloId: int, roles: seq<int>)

  /** One row of the modal's list (`modulo_id`, `rol_id`). */
  datatype Fila = Fila(moduloId: int, rolId: int)

  /** A role as the page lists it for assignment. */
  datatype Opcion = Opcion(id: int, nombre: string, estado: bool)

  /** The rows one group contributes, in the group's order. */
  function FilasDeGrupo(g: Grupo): seq<Fila> {
    seq(|g.roles|, k requires 0 <= k < |g.roles| => Fila(g.moduloId, g.roles[k]))
  }

  /** The flattening of the grouped reply: each group's rows, group after group. */
  function Aplanar(grupos: seq<Grupo>): seq<Fila> {
    if grupos == [] then [] else Aplanar(grupos[..|grupos| - 1]) + FilasDeGrupo(grupos[|grupos| - 1])
  }

  /** A row is in the flattened list exactly when some group of its module lists its role. */
  lemma {:induction false} AplanarContiene(grupos: seq<Grupo>)
    ensures forall f :: f in Aplanar(grupos) <==> exists g :: g in grupos && g.moduloId == f.moduloId && f.rolId in g.roles
  {
    if grupos != [] {
      var init, g := grupos[..|grupos| - 1], grupos[|grupos| - 1];
      AplanarContiene(init);
      assert grupos == init + [g];
      forall f ensures f in FilasDeGrupo(g) <==> g.moduloId == f.moduloId && f.rolId in g.roles {
        if g.moduloId == f.moduloId && f.rolId in g.roles {
          var k :| 0 <= k < |g.roles| && g.roles[k] == f.rolId;
          assert FilasDeGrupo(g)[k] == f;
        }
      }
    }
  }

  /**
   * `handleManageRoles` and the reload after a save: the nested `forEach` loops push one row per role
   * of each group; the result is the flattening of the reply.
   */
  method AplanarRespuesta(grupos: seq<Grupo>) returns (filas: seq<Fila>)
    ensures filas == Aplanar(grupos)
  {
    filas := [];
    var i := 0;
    while i < |grupos|
      invariant 0 <= i <= |grupos|
      invariant filas == Aplanar(grupos[..i])
    {
      var g := grupos[i];
      var j := 0;
      while j < |g.roles|
        invariant 0 <= j <= |g.roles|
        invariant filas == Aplanar(grupos[..i]) + FilasDeGrupo(g)[..j]
      {
        filas := filas + [Fila(g.moduloId, g.roles[j])];
        assert FilasDeGrupo(g)[..j + 1] == FilasDeGrupo(g)[..j] + [Fila(g.moduloId, g.roles[j])];
        j := j + 1;
      }
      assert FilasDeGrupo(g)[..j] == FilasDeGrupo(g);
      assert grupos[..i + 1][..i] == grupos[..i];
      i := i + 1;
    }
    assert grupos[..i] == grupos;
  }

  /**
   * `grupos` is the JSON form of the server's grouping `r`: one group per module of `r`, each listing
   * exactly that module's roles, once each.
   */
  predicate Representa(grupos: seq<Grupo>, r: map<int, set<int>>) {
    && (forall i, j | 0 <= i < j < |grupos| :: grupos[i].moduloId != grupos[j].moduloId)
    && (forall g | g in grupos :: g.moduloId in r && !HasDuplicates(g.roles))
    && (forall g, rol | g in grupos && rol in g.roles :: rol in r[g.moduloId])
    && (forall g, rol | g in grupos && rol in r[g.moduloId] :: rol in g.roles)
    && (forall m | m in r :: exists g :: g in grupos && g.moduloId == m)
  }

  /** Two arrays without repeats that share no value concatenate to an array without repeats. */
  lemma ConcatSinRepetidos<T>(xs: seq<T>, ys: seq<T>)
    requires !HasDuplicates(xs) && !HasDuplicates(ys)
    requires forall y | y in ys :: y !in xs
    ensures !HasDuplicates(xs + ys)
  {
    var zs := xs + ys;
    forall i, j | 0 <= i < j < |zs| ensures zs[i] != zs[j] {
      if i < |xs| && j >= |xs| {
        assert zs[j] == ys[j - |xs|];
        assert zs[j] in ys;
      } else if i >= |xs| {
        assert zs[i] == ys[i - |xs|] && zs[j] == ys[j - |xs|];
      }
    }
  }

  /**
   * Flattening a faithful reply loses and invents nothing: a row is in the list exactly when the server
   * groups that role under that module, and no row occurs twice.
   */
  lemma {:induction false} AplanarRepresenta(grupos: seq<Grupo>, r: map<int, set<int>>)
    requires Representa(grupos, r)
    ensures forall m, rol :: Fila(m, rol) in Aplanar(grupos) <==> m in r && rol in r[m]
    ensures !HasDuplicates(Aplanar(grupos))
  {
    AplanarContiene(grupos);
    forall m, rol | m in r && rol in r[m] ensures Fila(m, rol) in Aplanar(grupos) {
      var g :| g in grupos && g.moduloId == m;
      assert rol in g.roles;
    }
    SinRepetidos(grupos);
  }

  /** Helper of `AplanarRepresenta`: distinct modules and repeat-free groups flatten without repeats. */
  lemma {:induction false} SinRepetidos(grupos: seq<Grupo>)
    requires forall i, j | 0 <= i < j < |grupos| :: grupos[i].moduloId != grupos[j].moduloId
    requires forall g | g in grupos :: !HasDuplicates(g.roles)
    ensures !HasDuplicates(Aplanar(grupos))
  {
    if grupos != [] {
      var init, g := grupos[..|grupos| - 1], grupos[|grupos| - 1];
      assert forall h | h in init :: h in grupos;
      SinRepetidos(init);
      AplanarContiene(init);
      var filas := FilasDeGrupo(g);
      assert !HasDuplicates(filas) by {
        forall i, j | 0 <= i < j < |filas| ensures filas[i] != filas[j] {
          assert g.roles[i] != g.roles[j];
        }
      }
      forall f | f in filas ensures f !in Aplanar(init) {
        var k :| 0 <= k < |filas| && filas[k] == f;
      }
      ConcatSinRepetidos(Aplanar(init), filas);
    }
  }

  /** `currentRolesInModule`: the role ids of the rows of module `m`, in row order. */
  function RolesLocales(filas: seq<Fila>, m: int): (r: seq<int>)
    ensures forall rol :: rol in r <==> Fila(m, rol) in filas
    ensures !HasDuplicates(filas) ==> !HasDuplicates(r)
  {
    if filas == [] then []
    else
      var init, f := filas[..|filas| - 1], filas[|filas| - 1];
      assert !HasDuplicates(filas) ==> !HasDuplicates(init) by {
        if !HasDuplicates(filas) {
          forall i, j | 0 <= i < j < |init| ensures init[i] != init[j] {
            assert init[i] == filas[i] && init[j] == filas[j];
          }
        }
      }
      assert filas == init + [f];
      var r := RolesLocales(init, m) + (if f.moduloId == m then [f.rolId] else []);
      assert !HasDuplicates(filas) ==> !HasDuplicates(r) by {
        if !HasDuplicates(filas) && f.moduloId == m {
          ConcatSinRepetidos(RolesLocales(init, m), [f.rolId]);
        }
      }
      r
  }

  /** `currentRolesInModule.filter(id => id !== rolId)`. */
  function Quitar(xs: seq<int>, x: int): (r: seq<int>)
    ensures forall y :: y in r <==> y in xs && y != x
    ensures !HasDuplicates(xs) ==> !HasDuplicates(r)
  {
    if xs == [] then []
    else
      var rest := Quitar(xs[1..], x);
      assert !HasDuplicates(xs) ==> !HasDuplicates(xs[1..]) by {
        if !HasDuplicates(xs) {
          forall i, j | 0 <= i < j < |xs[1..]| ensures xs[1..][i] != xs[1..][j] {
            assert xs[1..][i] == xs[i + 1] && xs[1..][j] == xs[j + 1];
          }
        }
      }
      assert forall y | y in xs[1..] :: y in xs;
      if xs[0] == x then rest
      else
        assert !HasDuplicates(xs) ==> !HasDuplicates([xs[0]] + rest) by {
          if !HasDuplicates(xs) {
            ConcatSinRepetidos([xs[0]], rest);
          }
        }
        [xs[0]] + rest
  }

  /**
   * The list a click on role `rol` of module `m` sends: the module's current roles without `rol` when
   * the user holds it there, with `rol` appended otherwise. The sent set is the current set with `rol`
   * flipped, and the list repeats no id when the rows repeat none.
   */
  function Conmutar(filas: seq<Fila>, m: int, rol: int): (r: seq<int>)
    ensures forall x :: x in r <==> (Fila(m, x) in filas) != (x == rol)
    ensures !HasDuplicates(filas) ==> !HasDuplicates(r)
  {
    var actuales := RolesLocales(filas, m);
    if Fila(m, rol) in filas then Quitar(actuales, rol)
    else
      assert !HasDuplicates(filas) ==> !HasDuplicates(actuales + [rol]) by {
        if !HasDuplicates(filas) {
          ConcatSinRepetidos(actuales, [rol]);
        }
      }
      actuales + [rol]
  }

  /**
   * The click and the server together: when the rows were loaded from a faithful reply, the list sent
   * repeats no id (so `assignRoles` does not fail on the unique index), and replacing the user's roles
   * in `m` by it flips exactly `rol` there; the other modules are untouched by the replacement.
   */
  lemma ConmutarAplica(t: Tables, u: int, grupos: seq<Grupo>, m: int, rol: int)
    requires Integrity(t) && Representa(grupos, UserManagement.RolesPorModulo(t, u))
    ensures !HasDuplicates(Conmutar(Aplanar(grupos), m, rol))
    ensures forall x :: (u, x, m) in UserManagement.Reemplazar(t.usuarioRoles, u, m, Elems(Conmutar(Aplanar(grupos), m, rol)))
                        <==> ((u, x, m) in t.usuarioRoles) != (x == rol)
  {
    var r := UserManagement.RolesPorModulo(t, u);
    AplanarRepresenta(grupos, r);
    forall x ensures Fila(m, x) in Aplanar(grupos) <==> (u, x, m) in t.usuarioRoles {
      if (u, x, m) in t.usuarioRoles {
        assert m in r && x in r[m];
      }
    }
  }

  /** The roles offered in the modal: those whose flag is set, in list order. */
  function Ofrecidos(roles: seq<Opcion>): (r: seq<Opcion>)
    ensures forall o :: o in r <==> o in roles && o.estado
    ensures |r| <= |roles|
  {
    if roles == [] then []
    else
      assert forall o | o in roles[1..] :: o in roles;
      (if roles[0].estado then [roles[0]] else []) + Ofrecidos(roles[1..])
  }

  /**
   * An inactive role the user already holds is not offered, yet a click on another role of the module
   * sends it again, so the assignment survives.
   */
  lemma InactivoConservado(filas: seq<Fila>, roles: seq<Opcion>, m: int, held: Opcion, rol: int)
    requires Fila(m, held.id) in filas && !held.estado && held.id != rol
    ensures held !in Ofrecidos(roles)
    ensures held.id in Conmutar(filas, m, rol)
  {
  }

  /** The modal's state: whose roles it shows, their rows, and whether a save is under way. */
  class ModalRoles {
    var usuario: int
    var filas: seq<Fila>
    var guardando: bool

    /** `handleManageRoles`: the rows are the flattening of the reply and no save is under way. */
    constructor (usuario: int, grupos: seq<Grupo>)
      ensures this.usuario == usuario && filas == Aplanar(grupos) && !guardando
    {
      var f := AplanarRespuesta(grupos);
      this.usuario := usuario;
      filas := f;
      guardando := false;
    }

    /**
     * The start of `handleToggleUserRole`: ignored while a save is under way; otherwise the save starts
     * and the list to send is returned.
     */
    method IniciarConmutacion(m: int, rol: int) returns (envio: Option<seq<int>>)
      modifies this
      ensures old(guardando) ==> envio.None? && unchanged(this)
      ensures !old(guardando) ==> && envio == Some(Conmutar(old(filas), m, rol)) && guardando
                                  && filas == old(filas) && usuario == old(usuario)
    {
      if guardando {
        return None;
      }
      guardando := true;
      envio := Some(Conmutar(filas, m, rol));
    }

    /**
     * The end of `handleToggleUserRole`: the rows become the flattening of the reloaded reply when the
     * save and the reload succeeded (`None` otherwise, and the rows stay), and the save is over.
     */
    method TerminarConmutacion(recarga: Option<seq<Grupo>>)
      modifies this
      ensures !guardando && usuario == old(usuario)
      ensures filas == if recarga.Some? then Aplanar(recarga.value) else old(filas)
    {
      if recarga.Some? {
        filas := AplanarRespuesta(recarga.value);
      }
      guardando := false;
    }
  }
}
