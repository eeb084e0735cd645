/**
 * The `Rol` model: queries over a role's permissions and users, and the three helpers that change a
 * role's row set in `rol_permisos` (add, remove, replace).
 */
module RolModel {
  import opened Common
  import opened Schema
  import opened Database

  /** The `permisos()` relation of a role: the existing permissions it is granted, in any module. */
  function PermisosDeRol(t: Tables, rol: int): (r: set<int>)
    ensures forall p :: p in r <==> (rol, p) in t.rolPermisos && p in t.permisos
  {
    var r := set g | g in t.rolPermisos && g.0 == rol && g.1 in t.permisos :: g.1;
    assert forall p | (rol, p) in t.rolPermisos && p in t.permisos :: p in r by {
      forall p | (rol, p) in t.rolPermisos && p in t.permisos ensures p in r {
        var g := (rol, p);
        assert g in t.rolPermisos && g.0 == rol && g.1 in t.permisos;
      }
    }
    r
  }

  /** The names of a role's permissions (`nombresPermisos`); one name may stand for several permissions. */
  function NombresPermisos(t: Tables, rol: int): (r: set<string>)
    ensures forall n :: n in r <==> exists p :: p in PermisosDeRol(t, rol) && t.permisos[p].nombre == n
  {
    set p | p in PermisosDeRol(t, rol) :: t.permisos[p].nombre
  }

  /** `tienePermiso`: the role holds some permission with that name, whatever its module. */
  function TienePermiso(t: Tables, rol: int, nombre: string): (r: bool)
    ensures r <==> nombre in NombresPermisos(t, rol)
  {
    var b := exists g | g in t.rolPermisos && g.0 == rol :: g.1 in t.permisos && t.permisos[g.1].nombre == nombre;
    assert b ==> nombre in NombresPermisos(t, rol) by {
      if b {
        var g :| g in t.rolPermisos && g.0 == rol && g.1 in t.permisos && t.permisos[g.1].nombre == nombre;
        var p: int := g.1;
        assert (rol, p) in t.rolPermisos;
        assert p in PermisosDeRol(t, rol);
      }
    }
    assert nombre in NombresPermisos(t, rol) ==> b by {
      if nombre in NombresPermisos(t, rol) {
        var p :| p in PermisosDeRol(t, rol) && t.permisos[p].nombre == nombre;
        var g := (rol, p);
        assert g in t.rolPermisos && g.0 == rol;
      }
    }
    b
  }

  /** `tieneAlgunPermiso`: the role's permission names meet the list. */
  function TieneAlgunPermiso(t: Tables, rol: int, nombres: seq<string>): (r: bool)
    ensures r <==> exists i :: 0 <= i < |nombres| && TienePermiso(t, rol, nombres[i])
  {
    var b := exists g | g in t.rolPermisos && g.0 == rol :: g.1 in t.permisos && t.permisos[g.1].nombre in nombres;
    assert b ==> exists i :: 0 <= i < |nombres| && TienePermiso(t, rol, nombres[i]) by {
      if b {
        var g :| g in t.rolPermisos && g.0 == rol && g.1 in t.permisos && t.permisos[g.1].nombre in nombres;
        var i :| 0 <= i < |nombres| && nombres[i] == t.permisos[g.1].nombre;
        var p: int := g.1;
        assert (rol, p) in t.rolPermisos;
        assert p in PermisosDeRol(t, rol);
        assert TienePermiso(t, rol, nombres[i]);
      }
    }
    assert (exists i :: 0 <= i < |nombres| && TienePermiso(t, rol, nombres[i])) ==> b by {
      if exists i :: 0 <= i < |nombres| && TienePermiso(t, rol, nombres[i]) {
        var i :| 0 <= i < |nombres| && TienePermiso(t, rol, nombres[i]);
        var p :| p in PermisosDeRol(t, rol) && t.permisos[p].nombre == nombres[i];
        var g := (rol, p);
        assert g in t.rolPermisos && g.0 == rol;
      }
    }
    b
  }

  /**
   * `tieneTodosPermisos` as the source computes it: the number of the role's permissions whose name is
   * in the list, compared with the length of the list.
   */
  function TieneTodosPermisosConteo(t: Tables, rol: int, nombres: seq<string>): bool {
    |set p | p in PermisosDeRol(t, rol) && t.permisos[p].nombre in nombres| == |nombres|
  }

  /** `tieneTodosPermisos` as its name promises: every listed name is held by the role. */
  function TieneTodosPermisos(t: Tables, rol: int, nombres: seq<string>): (r: bool)
    ensures r <==> Elems(nombres) <= NombresPermisos(t, rol)
  {
    forall i | 0 <= i < |nombres| :: TienePermiso(t, rol, nombres[i])
  }

  /** Holding every name of a non-empty list implies holding some name of it. */
  lemma TodosImplicaAlguno(t: Tables, rol: int, nombres: seq<string>)
    requires |nombres| > 0 && TieneTodosPermisos(t, rol, nombres)
    ensures TieneAlgunPermiso(t, rol, nombres)
  {
    assert TienePermiso(t, rol, nombres[0]);
  }

  /** The answer depends only on the set of names asked for, not on order or repetition. */
  lemma TodosDependsOnNamesOnly(t: Tables, rol: int, a: seq<string>, b: seq<string>)
    requires Elems(a) == Elems(b)
    ensures TieneTodosPermisos(t, rol, a) == TieneTodosPermisos(t, rol, b)
  {
  }

  /**
   * Counterexample for the counting version: a role holding two permissions of the same name (one per
   * module) and lacking the second name passes it.
   */
  lemma ConteoAcceptsMissingName()
    ensures var t := Tables(map[], map[2 := Rol("Supervisor", true)],
                            map[5 := Permiso("ver_reportes", 1), 11 := Permiso("ver_reportes", 3),
                                13 := Permiso("exportar_reportes", 3)],
                            map[], {}, {(2, 5), (2, 11)}, map[], 3, 14, 4, 1);
            TieneTodosPermisosConteo(t, 2, ["ver_reportes", "exportar_reportes"])
            && !TieneTodosPermisos(t, 2, ["ver_reportes", "exportar_reportes"])
  {
    var t := Tables(map[], map[2 := Rol("Supervisor", true)],
                    map[5 := Permiso("ver_reportes", 1), 11 := Permiso("ver_reportes", 3),
                        13 := Permiso("exportar_reportes", 3)],
                    map[], {}, {(2, 5), (2, 11)}, map[], 3, 14, 4, 1);
    var nombres := ["ver_reportes", "exportar_reportes"];
    assert PermisosDeRol(t, 2) == {5, 11} by {
      assert (2, 5) in t.rolPermisos && (2, 11) in t.rolPermisos;
      forall p | p in PermisosDeRol(t, 2) ensures p == 5 || p == 11 {
      }
    }
    assert (set p | p in PermisosDeRol(t, 2) && t.permisos[p].nombre in nombres) == {5, 11};
    assert "exportar_reportes" !in NombresPermisos(t, 2);
    assert !TienePermiso(t, 2, nombres[1]);
  }

  /** Counterexample for the counting version: repeating a held name in the list makes it fail. */
  lemma ConteoRejectsRepeatedName()
    ensures var t := Tables(map[], map[3 := Rol("Operario", true)],
                            map[1 := Permiso("ver_faenas", 1)],
                            map[], {}, {(3, 1)}, map[], 4, 2, 2, 1);
            !TieneTodosPermisosConteo(t, 3, ["ver_faenas", "ver_faenas"])
            && TieneTodosPermisos(t, 3, ["ver_faenas", "ver_faenas"])
  {
    var t := Tables(map[], map[3 := Rol("Operario", true)],
                    map[1 := Permiso("ver_faenas", 1)],
                    map[], {}, {(3, 1)}, map[], 4, 2, 2, 1);
    assert PermisosDeRol(t, 3) == {1} by {
      assert (3, 1) in t.rolPermisos;
      forall p | p in PermisosDeRol(t, 3) ensures p == 1 {
      }
    }
    assert (set p | p in PermisosDeRol(t, 3) && t.permisos[p].nombre in ["ver_faenas", "ver_faenas"]) == {1};
    assert TienePermiso(t, 3, "ver_faenas");
  }

  /** `cantidadUsuarios`: the number of assignment rows naming the role, one per (user, module) pair. */
  function CantidadUsuarios(t: Tables, rol: int): (r: nat)
    ensures r > 0 <==> exists a :: a in t.usuarioRoles && a.1 == rol
  {
    var rows := set a | a in t.usuarioRoles && a.1 == rol;
    assert |rows| > 0 ==> exists a :: a in t.usuarioRoles && a.1 == rol by {
      if |rows| > 0 {
        var a :| a in rows;
      }
    }
    assert (exists a :: a in t.usuarioRoles && a.1 == rol) ==> |rows| > 0 by {
      if exists a :: a in t.usuarioRoles && a.1 == rol {
        var a :| a in t.usuarioRoles && a.1 == rol;
        assert a in rows;
      }
    }
    |rows|
  }

  /** The module name a permission is grouped under: its module's name, or "" when the module is gone. */
  function GrupoDe(t: Tables, p: int): string
    requires p in t.permisos
  {
    var m := t.permisos[p].moduloId;
    if m in t.modulos then t.modulos[m].nombre else ""
  }

  /**
   * `permisosPorModulo`: the role's permissions keyed by their module's name. Every permission lands in
   * exactly the group of its own module, and every group is non-empty.
   */
  function PermisosPorModulo(t: Tables, rol: int): (r: map<string, set<int>>)
    ensures forall n, p :: n in r && p in r[n] <==> p in PermisosDeRol(t, rol) && GrupoDe(t, p) == n
    ensures forall n | n in r :: exists p :: p in r[n]
  {
    var grupos := set p | p in PermisosDeRol(t, rol) :: GrupoDe(t, p);
    var r := map n | n in grupos :: set p | p in PermisosDeRol(t, rol) && GrupoDe(t, p) == n;
    assert forall n | n in r :: exists p :: p in r[n] by {
      forall n | n in r ensures exists p :: p in r[n] {
        var p :| p in PermisosDeRol(t, rol) && GrupoDe(t, p) == n;
        assert p in r[n];
      }
    }
    r
  }

  // ---------------------------------------------------------------------------------------------------
  // The row-set helpers, on values first and then on the database.
  // ---------------------------------------------------------------------------------------------------

  /** `syncWithoutDetaching` from the role's side: the listed permissions are added, none removed. */
  function Conceder(rp: set<Grant>, rol: int, ps: set<int>): (r: set<Grant>)
    ensures forall g :: g in r <==> g in rp || (g.0 == rol && g.1 in ps)
  {
    var r := rp + set p | p in ps :: (rol, p);
    assert forall g: Grant | g.0 == rol && g.1 in ps :: g in r by {
      forall g: Grant | g.0 == rol && g.1 in ps ensures g in r {
        var p: int := g.1;
        assert g == (rol, p);
      }
    }
    r
  }

  /** `detach` from the role's side: only the listed permissions of this role are removed. */
  function Revocar(rp: set<Grant>, rol: int, ps: set<int>): (r: set<Grant>)
    ensures forall g :: g in r <==> g in rp && !(g.0 == rol && g.1 in ps)
  {
    set g | g in rp && !(g.0 == rol && g.1 in ps)
  }

  /** `sync` from the role's side: the role is left holding exactly the listed permissions. */
  function Sincronizar(rp: set<Grant>, rol: int, ps: set<int>): (r: set<Grant>)
    ensures forall g :: g in r <==> if g.0 == rol then g.1 in ps else g in rp
  {
    var r := (set g | g in rp && g.0 != rol) + set p | p in ps :: (rol, p);
    assert forall g: Grant | g.0 == rol && g.1 in ps :: g in r by {
      forall g: Grant | g.0 == rol && g.1 in ps ensures g in r {
        var p: int := g.1;
        assert g == (rol, p);
      }
    }
    r
  }

  /** Replacing is removing everything the role holds and then adding the list. */
  lemma SincronizarIsRevocarThenConceder(rp: set<Grant>, rol: int, ps: set<int>)
    ensures Sincronizar(rp, rol, ps) == Conceder(Revocar(rp, rol, set g | g in rp && g.0 == rol :: g.1), rol, ps)
  {
    var todos := set g | g in rp && g.0 == rol :: g.1;
    forall g | g in rp && g.0 == rol ensures g.1 in todos {
    }
  }

  /** Replacing twice with the same list is replacing once. */
  lemma SincronizarIdempotent(rp: set<Grant>, rol: int, ps: set<int>)
    ensures Sincronizar(Sincronizar(rp, rol, ps), rol, ps) == Sincronizar(rp, rol, ps)
  {
  }

  /** Removing what was just added restores the role's previous rows outside the list. */
  lemma RevocarUndoesConceder(rp: set<Grant>, rol: int, ps: set<int>)
    ensures Revocar(Conceder(rp, rol, ps), rol, ps) == Revocar(rp, rol, ps)
  {
  }

  /** True when every listed id is a permission (the foreign key an insert into `rol_permisos` checks). */
  predicate AllPermisos(t: Tables, ps: set<int>) {
    forall p | p in ps :: p in t.permisos
  }

  /**
   * `asignarPermisos`, Eloquent's `syncWithoutDetaching`: one `attach` per listed id not yet held, in
   * list order and outside any transaction. The first unknown id fails its insert on the foreign key;
   * the rows inserted for the ids before it stay.
   */
  method AsignarPermisos(db: Db, rol: int, ids: seq<int>) returns (ok: bool)
    requires db.Valid() && rol in db.roles
    modifies db
    ensures db.Valid()
    ensures ok <==> AllPermisos(old(db.State()), Elems(ids))
    ensures var k := PrimerAusente(ids, old(db.permisos).Keys);
            db.State() == old(db.State()).(rolPermisos := Conceder(old(db.rolPermisos), rol, Elems(ids[..k])))
  {
    var i := 0;
    while i < |ids|
      invariant 0 <= i <= |ids|
      invariant forall j | 0 <= j < i :: ids[j] in db.permisos
      invariant db.Valid()
      invariant db.State() == old(db.State()).(rolPermisos := Conceder(old(db.rolPermisos), rol, Elems(ids[..i])))
    {
      if ids[i] !in db.permisos {
        assert PrimerAusente(ids, old(db.permisos).Keys) == i;
        var ausente := ids[i];
        assert ausente in Elems(ids) && ausente !in old(db.State()).permisos;
        return false;
      }
      assert ids[..i + 1] == ids[..i] + [ids[i]];
      assert Elems(ids[..i + 1]) == Elems(ids[..i]) + {ids[i]};
      if (rol, ids[i]) !in db.rolPermisos {
        db.rolPermisos := db.rolPermisos + {(rol, ids[i])};
      }
      i := i + 1;
    }
    assert ids[..i] == ids;
    return true;
  }

  /**
   * The state a failed `asignarPermisos` leaves depends on the list's order: with permission 1 known
   * and 999 unknown, `[1, 999]` leaves the grant of 1 in place while `[999, 1]` inserts nothing.
   */
  lemma FalloDependeDelOrden()
    ensures Conceder({}, 3, Elems([1, 999][..PrimerAusente([1, 999], {1})])) == {(3, 1)}
    ensures Conceder({}, 3, Elems([999, 1][..PrimerAusente([999, 1], {1})])) == {}
  {
    assert PrimerAusente([1, 999], {1}) == 1;
    assert [1, 999][..1] == [1];
    assert Elems([1]) == {1};
    assert PrimerAusente([999, 1], {1}) == 0;
  }

  /** `removerPermisos`: deletes this role's rows for the listed ids; unknown ids are ignored. */
  method RemoverPermisos(db: Db, rol: int, ids: seq<int>)
    requires db.Valid()
    modifies db
    ensures db.Valid()
    ensures db.State() == old(db.State()).(rolPermisos := Revocar(old(db.rolPermisos), rol, Elems(ids)))
  {
    db.rolPermisos := Revocar(db.rolPermisos, rol, Elems(ids));
  }

  /**
   * `sincronizarPermisos`, Eloquent's `sync`: the rows of permissions not in the list are detached first,
   * and then the listed ids are attached as `asignarPermisos` does. An unknown id stops the attaching
   * after the detach and after the rows of the ids before it.
   */
  method SincronizarPermisos(db: Db, rol: int, ids: seq<int>) returns (ok: bool)
    requires db.Valid() && rol in db.roles
    modifies db
    ensures db.Valid()
    ensures ok <==> AllPermisos(old(db.State()), Elems(ids))
    ensures ok ==> db.State() == old(db.State()).(rolPermisos := Sincronizar(old(db.rolPermisos), rol, Elems(ids)))
    ensures var k := PrimerAusente(ids, old(db.permisos).Keys);
            db.State() == old(db.State()).(rolPermisos := Conceder(
              Revocar(old(db.rolPermisos), rol, set g | g in old(db.rolPermisos) && g.0 == rol && g.1 !in Elems(ids) :: g.1),
              rol, Elems(ids[..k])))
  {
    var sobrantes := set g | g in db.rolPermisos && g.0 == rol && g.1 !in Elems(ids) :: g.1;
    db.rolPermisos := Revocar(db.rolPermisos, rol, sobrantes);
    assert db.permisos == old(db.permisos);
    ok := AsignarPermisos(db, rol, ids);
    assert db.permisos == old(db.permisos);
    if ok {
      forall j | 0 <= j < |ids| ensures ids[j] in old(db.permisos) {
        var q := ids[j];
        assert q in Elems(ids);
      }
      var k := PrimerAusente(ids, old(db.permisos).Keys);
      assert ids[..k] == ids;
      assert db.rolPermisos == Sincronizar(old(db.rolPermisos), rol, Elems(ids)) by {
        forall g | g in Sincronizar(old(db.rolPermisos), rol, Elems(ids)) ensures g in db.rolPermisos {
          if g.0 == rol {
            var p: int := g.1;
            assert (rol, p) == g;
          }
        }
      }
    }
  }
}
