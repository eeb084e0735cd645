/**
 * The permission modal and the row buttons of the role-management page. The modal keeps the role's
 * current permission ids; a click on a permission sends the whole new id list to `assignPermisos`
 * (a replace-all request) and then reloads the list from `getPermisos`.
 */
module RoleManagementUi {
  import opened Common
  import opened Schema
  import RolModel
  import RoleManagement
  import UserManagementUi

  /**
   * The `getPermisos` reply as a JSON object: its entries in order, each a module name with the ids of
   * the role's permissions in that module.
   */
  type Respuesta = seq<(string, seq<int>)>

  /**
   * `reply` is the JSON form of the server's grouping `r`: one entry per group, each listing exactly
   * that group's permissions, once each.
   */
  predicate Representa(reply: Respuesta, r: map<string, set<int>>) {
    && (forall i, j | 0 <= i < j < |reply| :: reply[i].0 != reply[j].0)
    && (forall e | e in reply :: e.0 in r && !HasDuplicates(e.1))
    && (forall e, p | e in reply && p in e.1 :: p in r[e.0])
    && (forall e, p | e in reply && p in r[e.0] :: p in e.1)
    && (forall n | n in r :: exists e :: e in reply && e.0 == n)
  }

  /**
   * The page as written reads `response.data.permisos || []`: the entry whose key is "permisos", which
   * exists only when some module has that name, and otherwise nothing.
   */
  function LeerComoEscrito(reply: Respuesta): (r: seq<int>)
    ensures (forall e | e in reply :: e.0 != "permisos") ==> r == []
  {
    if reply == [] then []
    else if reply[0].0 == "permisos" then reply[0].1
    else LeerComoEscrito(reply[1..])
  }

  /** The reading the page needs: every entry's ids, entry after entry. */
  function Leer(reply: Respuesta): seq<int> {
    if reply == [] then [] else Leer(reply[..|reply| - 1]) + reply[|reply| - 1].1
  }

  /** An id is read exactly when some entry lists it. */
  lemma {:induction false} LeerContiene(reply: Respuesta)
    ensures forall p :: p in Leer(reply) <==> exists e :: e in reply && p in e.1
  {
    if reply != [] {
      var init, e := reply[..|reply| - 1], reply[|reply| - 1];
      LeerContiene(init);
      assert reply == init + [e];
    }
  }

  /** Entries with repeat-free, pairwise disjoint id lists read without repeats. */
  lemma {:induction false} LeerSinRepetidos(reply: Respuesta)
    requires forall e | e in reply :: !HasDuplicates(e.1)
    requires forall i, j, p | 0 <= i < j < |reply| && p in reply[i].1 :: p !in reply[j].1
    ensures !HasDuplicates(Leer(reply))
  {
    if reply != [] {
      var init, e := reply[..|reply| - 1], reply[|reply| - 1];
      assert forall x | x in init :: x in reply;
      LeerSinRepetidos(init);
      LeerContiene(init);
      forall p, x | p in e.1 && x in init ensures p !in x.1 {
        var i :| 0 <= i < |init| && init[i] == x;
        assert reply[i] == x && reply[|reply| - 1] == e;
      }
      var xs, ys := Leer(init), e.1;
      assert forall y | y in ys :: y !in xs;
      UserManagementUi.ConcatSinRepetidos<int>(xs, ys);
      assert reply == init + [e];
    }
  }

  /**
   * Reading a faithful reply of the role's grouping yields exactly the role's permissions, once each
   * (a permission lies in its own module's group only).
   */
  lemma LeerRepresenta(t: Tables, rol: int, reply: Respuesta)
    requires Representa(reply, RolModel.PermisosPorModulo(t, rol))
    ensures forall p :: p in Leer(reply) <==> p in RolModel.PermisosDeRol(t, rol)
    ensures !HasDuplicates(Leer(reply))
  {
    var r := RolModel.PermisosPorModulo(t, rol);
    LeerContiene(reply);
    forall p | p in RolModel.PermisosDeRol(t, rol) ensures p in Leer(reply) {
      var n := RolModel.GrupoDe(t, p);
      assert n in r && p in r[n];
      var e :| e in reply && e.0 == n;
    }
    forall i, j, p | 0 <= i < j < |reply| && p in reply[i].1 ensures p !in reply[j].1 {
      assert reply[i] in reply && reply[j] in reply;
      assert RolModel.GrupoDe(t, p) == reply[i].0;
    }
    LeerSinRepetidos(reply);
  }

  /**
   * The id list a click on permission `p` sends: the current list without `p` when it is there, with
   * `p` appended otherwise; the sent set is the current set with `p` flipped, without repeats when the
   * current list has none.
   */
  function Conmutar(actuales: seq<int>, p: int): (r: seq<int>)
    ensures forall x :: x in r <==> (x in actuales) != (x == p)
    ensures !HasDuplicates(actuales) ==> !HasDuplicates(r)
  {
    if p in actuales then UserManagementUi.Quitar(actuales, p)
    else
      assert !HasDuplicates(actuales) ==> !HasDuplicates(actuales + [p]) by {
        if !HasDuplicates(actuales) {
          UserManagementUi.ConcatSinRepetidos(actuales, [p]);
        }
      }
      actuales + [p]
  }

  /**
   * As written, when no module is named "permisos" the modal reads an empty list, so a click on `p`
   * sends `[p]` and the replace-all request leaves the role with `p` alone: every other permission it
   * held is revoked.
   */
  lemma ConmutarComoEscritoRevoca(t: Tables, rol: int, reply: Respuesta, p: int)
    requires Representa(reply, RolModel.PermisosPorModulo(t, rol)) && "permisos" !in RolModel.PermisosPorModulo(t, rol)
    ensures Conmutar(LeerComoEscrito(reply), p) == [p]
    ensures forall q :: (rol, q) in RolModel.Sincronizar(t.rolPermisos, rol, Elems(Conmutar(LeerComoEscrito(reply), p))) <==> q == p
  {
    assert LeerComoEscrito(reply) == [];
    assert Elems([p]) == {p};
  }

  /** A concrete role that holds permission 1 loses it when permission 2 is clicked. */
  lemma ConmutarComoEscritoEjemplo()
    ensures var t := Tables(map[], map[3 := Rol("Operario", true)], map[1 := Permiso("ver_produccion", 5), 2 := Permiso("editar_produccion", 5)],
                            map[5 := Modulo("Producción", true)], {}, {(3, 1)}, map[], 1, 4, 3, 6);
            && 1 in RolModel.PermisosDeRol(t, 3)
            && Representa([("Producción", [1])], RolModel.PermisosPorModulo(t, 3))
            && (3, 1) !in RolModel.Sincronizar(t.rolPermisos, 3, Elems(Conmutar(LeerComoEscrito([("Producción", [1])]), 2)))
  {
    var t := Tables(map[], map[3 := Rol("Operario", true)], map[1 := Permiso("ver_produccion", 5), 2 := Permiso("editar_produccion", 5)],
                    map[5 := Modulo("Producción", true)], {}, {(3, 1)}, map[], 1, 4, 3, 6);
    var r := RolModel.PermisosPorModulo(t, 3);
    assert 1 in RolModel.PermisosDeRol(t, 3);
    assert RolModel.GrupoDe(t, 1) == "Producción";
    assert "Producción" in r && 1 in r["Producción"];
    forall n | n in r ensures n == "Producción" {
      var q :| q in r[n];
    }
    forall n, q | n in r && q in r[n] ensures q == 1 {
    }
    var reply := [("Producción", [1])];
    assert LeerComoEscrito(reply) == [];
  }

  /**
   * With the corrected reading, a click on `p` sends a list that repeats no id (so the unique index does
   * not fail). When the role holds `p` alone the list is empty, and `assignPermisos` refuses it with 422
   * and changes nothing. Otherwise the list passes validation exactly when `p` is a permission, and the
   * replace then flips `p` alone and keeps every other permission of the role as it was.
   */
  lemma ConmutarAplica(t: Tables, rol: int, reply: Respuesta, p: int)
    requires Integrity(t) && Representa(reply, RolModel.PermisosPorModulo(t, rol))
    ensures !HasDuplicates(Conmutar(Leer(reply), p))
    ensures Conmutar(Leer(reply), p) == [] <==> forall q :: (rol, q) in t.rolPermisos <==> q == p
    ensures Conmutar(Leer(reply), p) == [] ==> RoleManagement.FallasPermisos(t, Some(Conmutar(Leer(reply), p))) == {"permiso_ids"}
    ensures Conmutar(Leer(reply), p) != [] ==>
              (RoleManagement.FallasPermisos(t, Some(Conmutar(Leer(reply), p))) == {} <==> p in t.permisos)
    ensures RoleManagement.FallasPermisos(t, Some(Conmutar(Leer(reply), p))) == {} ==>
              forall q :: (rol, q) in RolModel.Sincronizar(t.rolPermisos, rol, Elems(Conmutar(Leer(reply), p)))
                          <==> ((rol, q) in t.rolPermisos) != (q == p)
  {
    LeerRepresenta(t, rol, reply);
    forall q ensures q in Leer(reply) <==> (rol, q) in t.rolPermisos {
      if (rol, q) in t.rolPermisos {
        assert q in RolModel.PermisosDeRol(t, rol);
      }
    }
    var envio := Conmutar(Leer(reply), p);
    if envio != [] {
      var x := envio[0];
      assert x in envio;
      forall q | q in Elems(envio) && q != p ensures q in t.permisos {
        assert (rol, q) in t.rolPermisos;
      }
      if (rol, p) in t.rolPermisos {
        assert p in t.permisos;
      }
      if p !in Leer(reply) {
        var ausente := p;
        assert ausente in Elems(envio);
      }
    }
  }

  /** The modal's state: whose permissions it shows, their ids, and whether a save is under way. */
  class ModalPermisos {
    var rol: int
    var permisos: seq<int>
    var guardando: bool

    /** `handleManagePermissions`: the ids are the reading of the reply and no save is under way. */
    constructor (rol: int, reply: Respuesta)
      ensures this.rol == rol && permisos == Leer(reply) && !guardando
    {
      this.rol := rol;
      permisos := Leer(reply);
      guardando := false;
    }

    /**
     * The start of `handleTogglePermission`: ignored while a save is under way; otherwise the save starts
     * and the list to send is returned.
     */
    method IniciarConmutacion(p: int) returns (envio: Option<seq<int>>)
      modifies this
      ensures old(guardando) ==> envio.None? && unchanged(this)
      ensures !old(guardando) ==> && envio == Some(Conmutar(old(permisos), p)) && guardando
                                  && permisos == old(permisos) && rol == old(rol)
    {
      if guardando {
        return None;
      }
      guardando := true;
      envio := Some(Conmutar(permisos, p));
    }

    /**
     * The end of `handleTogglePermission`: the ids become the reading of the reloaded reply when the
     * save and the reload succeeded (`None` otherwise, and the ids stay), and the save is over.
     */
    method TerminarConmutacion(recarga: Option<Respuesta>)
      modifies this
      ensures !guardando && rol == old(rol)
      ensures permisos == if recarga.Some? then Leer(recarga.value) else old(permisos)
    {
      if recarga.Some? {
        permisos := Leer(recarga.value);
      }
      guardando := false;
    }
  }

  /** Which row buttons are enabled. */
  datatype Botones = Botones(editar: bool, conmutar: bool, eliminar: bool)

  /**
   * The row buttons of a role: edit and delete are disabled for the administrator role, the state
   * toggle only while that role is active.
   */
  function Habilitados(rol: Rol): (r: Botones)
    ensures r.editar <==> rol.nombre != AdminRoleName
    ensures r.eliminar == r.editar
    ensures r.conmutar <==> r.editar || !rol.estado
  {
    Botones(rol.nombre != AdminRoleName, !(rol.nombre == AdminRoleName && rol.estado), rol.nombre != AdminRoleName)
  }

  /**
   * The buttons mirror the server: a button is disabled exactly when the server refuses its action for
   * that role with 403, and every other button leads to an action the server may carry out.
   */
  lemma BotonesComoServidor(r: Rol)
    ensures !Habilitados(r).conmutar <==> RoleManagement.ConmutacionBloqueada(r)
    ensures !Habilitados(r).editar <==> r.nombre == AdminRoleName
    ensures Habilitados(r).editar == Habilitados(r).eliminar
    ensures !Habilitados(r).editar ==> (Habilitados(r).conmutar <==> !r.estado)
  {
  }
}
