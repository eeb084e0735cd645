/**
 * `UserController`: the authenticated user's password change, which ends every other session of the
 * user, and the user's own statistics.
 */
module UserController {
  import opened Common
  import opened Schema
  import opened Database
  import opened Sessions
  import Resolver

  const ActualIncorrecta: string := "La contraseña actual es incorrecta."
  const DebeSerDiferente: string := "La nueva contraseña debe ser diferente a la actual."
  const Actualizada: string :=
    "Contraseña actualizada exitosamente. Se han cerrado las sesiones en otros dispositivos."

  /**
   * The validation rules of `changePassword`, on the request as the middleware leaves it: the current
   * password is untouched, while the new password and its confirmation are trimmed, and null when
   * nothing is left. The current password is required; the new one is required, at least 8 characters
   * long once trimmed and equal to its trimmed confirmation. The result names the fields that fail.
   */
  function PasswordRuleFailures(current: Option<string>, nueva: Option<string>, confirmation: Option<string>): (r: set<string>)
    ensures r <= {"current_password", "new_password"}
    ensures "current_password" in r <==> !Present(current)
    ensures "new_password" !in r <==> Present(nueva) && |Trim(nueva.value)| >= 8 && Entrada(confirmation) == Entrada(nueva)
  {
    var recibida := Entrada(nueva);
    (if Present(current) then {} else {"current_password"})
    + (if recibida.Some? && |recibida.value| >= 8 && Entrada(confirmation) == recibida then {} else {"new_password"})
  }

  /**
   * The checks of `changePassword`, in order: the rules; the stored hash must accept the current
   * password; it must not accept the new one. The result is the trimmed new password when all pass.
   */
  function CheckPasswordChange(stored: string, hasher: Hasher, current: Option<string>, nueva: Option<string>,
                               confirmation: Option<string>): (r: Reply<string>)
    ensures r.Ok? <==> PasswordRuleFailures(current, nueva, confirmation) == {}
                       && hasher.check(current.value, stored) && !hasher.check(Trim(nueva.value), stored)
    ensures r.Ok? ==> r.value == Trim(nueva.value) && |r.value| >= 8
    ensures r.Invalid? <==> PasswordRuleFailures(current, nueva, confirmation) != {}
    ensures r == Rejected("current_password", ActualIncorrecta) <==>
              PasswordRuleFailures(current, nueva, confirmation) == {} && !hasher.check(current.value, stored)
    ensures r.Ok? || r.Invalid? || r == Rejected("current_password", ActualIncorrecta) || r == Rejected("new_password", DebeSerDiferente)
  {
    var failures := PasswordRuleFailures(current, nueva, confirmation);
    if failures != {} then Invalid(failures)
    else if !hasher.check(current.value, stored) then Rejected("current_password", ActualIncorrecta)
    else if hasher.check(Entrada(nueva).value, stored) then Rejected("new_password", DebeSerDiferente)
    else Ok(Entrada(nueva).value)
  }

  /**
   * Whenever the hash accepts the current password, resubmitting it as the new one is refused (once it
   * passes the rules: at least 8 characters, with no whitespace at either end for the trim to take).
   */
  lemma SamePasswordRefused(stored: string, hasher: Hasher, password: string)
    requires |password| >= 8 && !EsEspacio(password[0]) && !EsEspacio(password[|password| - 1])
    requires hasher.check(password, stored)
    ensures CheckPasswordChange(stored, hasher, Some(password), Some(password), Some(password)) == Rejected("new_password", DebeSerDiferente)
  {
    TrimRecorta(password);
    assert Present(Some(password));
    assert PasswordRuleFailures(Some(password), Some(password), Some(password)) == {};
  }

  /**
   * A new password padded with spaces is stored without them, while `login` compares its password
   * untrimmed: after the change, the padded string the user typed no longer logs in, the bare one does.
   */
  lemma NuevaSeGuardaRecortada(stored: string, hasher: Hasher, current: string, nueva: string)
    requires Present(Some(current)) && hasher.check(current, stored)
    requires |nueva| >= 8 && !EsEspacio(nueva[0]) && !EsEspacio(nueva[|nueva| - 1]) && !hasher.check(nueva, stored)
    ensures var padded := Some(" " + nueva + " ");
            CheckPasswordChange(stored, hasher, Some(current), padded, padded) == Ok(nueva)
  {
    TrimRecorta(nueva);
    var x := " " + nueva + " ";
    assert x[1] == nueva[0];
    assert Entrada(Some(x)) == Some(nueva);
  }

  /** Replacing a user's row and deleting some of their tokens keeps every foreign key and index. */
  lemma CambioKeepsIntegrity(t: Tables, user: int, nuevo: User, current: int)
    requires Integrity(t) && user in t.users && nuevo.rut == t.users[user].rut
    ensures Integrity(t.(users := t.users[user := nuevo], tokens := RevokeOthers(t.tokens, user, current)))
  {
  }

  /**
   * `changePassword`: on success the stored hash becomes the hash of the new password and every token
   * of the user except the one making the request is deleted; on any failure nothing changes.
   */
  method ChangePassword(db: Db, hasher: Hasher, current: int, user: int,
                        currentPassword: Option<string>, newPassword: Option<string>, confirmation: Option<string>)
    returns (r: Reply<string>)
    requires db.Valid() && current in db.tokens && db.tokens[current].userId == user
    modifies db
    ensures db.Valid()
    ensures var c := CheckPasswordChange(old(db.users[user].password), hasher, currentPassword, newPassword, confirmation);
            && (r.Ok? <==> c.Ok?)
            && (!c.Ok? ==> r == c && db.State() == old(db.State()))
            && (c.Ok? ==> && r == Ok(Actualizada)
                          && db.State() == old(db.State()).(
                               users := old(db.users)[user := old(db.users[user]).(password := hasher.make(c.value))],
                               tokens := RevokeOthers(old(db.tokens), user, current)))
  {
    var t := db.State();
    var c := CheckPasswordChange(t.users[user].password, hasher, currentPassword, newPassword, confirmation);
    if !c.Ok? {
      return c;
    }
    var nuevo := t.users[user].(password := hasher.make(c.value));
    CambioKeepsIntegrity(t, user, nuevo, current);
    db.Store(t.(users := t.users[user := nuevo], tokens := RevokeOthers(t.tokens, user, current)));
    r := Ok(Actualizada);
  }

  /** When the current token expires: never, or at a clock time (shown relative to now by the source). */
  datatype Expiry = SinExpiracion | ExpiraEn(at: nat)

  datatype Stats = Stats(totalModulos: nat, totalRoles: nat, tokenExpiraEn: Expiry)

  /** The distinct existing roles the user holds, in any module. */
  function RolesDistintos(t: Tables, u: int): (r: set<int>)
    ensures forall rol :: rol in r <==> rol in t.roles && exists m :: rol in Resolver.RolesEnModulo(t, u, m)
  {
    var r := set a | a in t.usuarioRoles && a.0 == u && a.1 in t.roles :: a.1;
    assert forall rol | rol in r :: exists m :: rol in Resolver.RolesEnModulo(t, u, m) by {
      forall rol | rol in r ensures exists m :: rol in Resolver.RolesEnModulo(t, u, m) {
        var a :| a in t.usuarioRoles && a.0 == u && a.1 in t.roles && a.1 == rol;
        var m: int := a.2;
        assert (u, rol, m) in t.usuarioRoles;
        assert rol in Resolver.RolesEnModulo(t, u, m);
      }
    }
    assert forall rol | rol in t.roles && exists m :: rol in Resolver.RolesEnModulo(t, u, m) :: rol in r by {
      forall rol | rol in t.roles && exists m :: rol in Resolver.RolesEnModulo(t, u, m) ensures rol in r {
        var m :| rol in Resolver.RolesEnModulo(t, u, m);
        var a := (u, rol, m);
        assert a in t.usuarioRoles && a.0 == u && a.1 in t.roles;
      }
    }
    r
  }

  /**
   * `getStats` as intended: the number of the user's distinct active modules, the number of distinct
   * roles (a role held in two modules counts once), and the current token's expiry instant,
   * `SinExpiracion` when it has none.
   */
  function GetStats(t: Tables, current: int, u: int): (r: Stats)
    requires current in t.tokens
    ensures r.totalModulos == |Resolver.Modulos(t, u)|
    ensures r.totalRoles == |RolesDistintos(t, u)|
    ensures r.tokenExpiraEn == SinExpiracion <==> forall later: nat :: !IsExpired(t.tokens[current], later)
    ensures r.tokenExpiraEn.ExpiraEn? ==> t.tokens[current].expiresAt == Some(r.tokenExpiraEn.at)
  {
    var tok := t.tokens[current];
    var expira := if tok.expiresAt.Some? then ExpiraEn(tok.expiresAt.value) else SinExpiracion;
    assert tok.expiresAt.Some? ==> IsExpired(tok, tok.expiresAt.value + 1);
    Stats(|Resolver.Modulos(t, u)|, |RolesDistintos(t, u)|, expira)
  }

  /**
   * The rows `$user->modulos()->count()` counts: `modulos()` joins `usuario_roles` to the active modules,
   * and its `distinct()` names no column, so the count is `count(*)` over the joined assignment rows.
   */
  function FilasModulosActivos(t: Tables, u: int): (r: set<Assignment>)
    ensures forall a :: a in r <==> a in t.usuarioRoles && a.0 == u && a.2 in Resolver.Modulos(t, u)
  {
    set a | a in t.usuarioRoles && a.0 == u && a.2 in t.modulos && t.modulos[a.2].estado
  }

  /** The module of every counted row is a listed module, and every listed module has a counted row. */
  lemma ModulosSonImagenDeFilas(t: Tables, u: int)
    ensures Resolver.Modulos(t, u) == set a | a in FilasModulosActivos(t, u) :: a.2
  {
    var filas := FilasModulosActivos(t, u);
    forall m | m in Resolver.Modulos(t, u) ensures m in set a | a in filas :: a.2 {
      var rol :| rol in Resolver.RolesEnModulo(t, u, m);
      assert (u, rol, m) in filas;
    }
  }

  /** Projecting a set of rows onto their module never yields more modules than there are rows. */
  lemma {:induction false} ImagenNoCrece(filas: set<Assignment>)
    ensures |set a | a in filas :: a.2| <= |filas|
    decreases |filas|
  {
    if filas != {} {
      var x :| x in filas;
      var resto := filas - {x};
      ImagenNoCrece(resto);
      assert (set a | a in filas :: a.2) == (set a | a in resto :: a.2) + {x.2};
    }
  }

  /**
   * `getStats` as written: `total_modulos` is the number of the user's assignment rows in active
   * modules, so a module in which the user holds two roles counts twice. It is never below the
   * intended count of distinct modules.
   */
  function GetStatsComoEscrito(t: Tables, current: int, u: int): (r: Stats)
    requires current in t.tokens
    ensures r.totalModulos >= |Resolver.Modulos(t, u)|
    ensures r.totalModulos == |FilasModulosActivos(t, u)|
    ensures r.totalRoles == GetStats(t, current, u).totalRoles
    ensures r.tokenExpiraEn == GetStats(t, current, u).tokenExpiraEn
  {
    ModulosSonImagenDeFilas(t, u);
    ImagenNoCrece(FilasModulosActivos(t, u));
    GetStats(t, current, u).(totalModulos := |FilasModulosActivos(t, u)|)
  }

  /** Two roles in one active module: `total_modulos` is 2 as written, while the user has one module. */
  lemma DosRolesUnModuloCuentaDos()
    ensures var t := Tables(map[4 := User("44.444.444-4", "h", true)],
                            map[3 := Rol("Operario", true), 5 := Rol("Visualizador", true)], map[],
                            map[1 := Modulo("Producción", true)],
                            {(4, 3, 1), (4, 5, 1)}, {}, map[9 := Token(4, None)], 6, 1, 2, 10);
            GetStatsComoEscrito(t, 9, 4).totalModulos == 2 && GetStats(t, 9, 4).totalModulos == 1
  {
    var t := Tables(map[4 := User("44.444.444-4", "h", true)],
                    map[3 := Rol("Operario", true), 5 := Rol("Visualizador", true)], map[],
                    map[1 := Modulo("Producción", true)],
                    {(4, 3, 1), (4, 5, 1)}, {}, map[9 := Token(4, None)], 6, 1, 2, 10);
    var a, b := (4, 3, 1), (4, 5, 1);
    assert a in t.usuarioRoles && b in t.usuarioRoles;
    assert FilasModulosActivos(t, 4) == {a, b};
    assert Resolver.Modulos(t, 4) == {1} by {
      assert 1 in Resolver.Modulos(t, 4);
      forall m | m in Resolver.Modulos(t, 4) ensures m == 1 {
      }
    }
  }

  /** A user holding one role in two modules has two modules but one role. */
  lemma SameRoleTwoModulesCountsOnce()
    ensures var t := Tables(map[4 := User("44.444.444-4", "h", true)], map[3 := Rol("Operario", true)], map[],
                            map[1 := Modulo("Petróleo", true), 2 := Modulo("Producción", true)],
                            {(4, 3, 1), (4, 3, 2)}, {}, map[9 := Token(4, None)], 4, 1, 3, 10);
            GetStats(t, 9, 4) == Stats(2, 1, SinExpiracion)
  {
    var t := Tables(map[4 := User("44.444.444-4", "h", true)], map[3 := Rol("Operario", true)], map[],
                    map[1 := Modulo("Petróleo", true), 2 := Modulo("Producción", true)],
                    {(4, 3, 1), (4, 3, 2)}, {}, map[9 := Token(4, None)], 4, 1, 3, 10);
    var a, b := (4, 3, 1), (4, 3, 2);
    assert a in t.usuarioRoles && b in t.usuarioRoles;
    assert Resolver.Modulos(t, 4) == {1, 2} by {
      assert 1 in Resolver.Modulos(t, 4) && 2 in Resolver.Modulos(t, 4);
      forall m | m in Resolver.Modulos(t, 4) ensures m == 1 || m == 2 {
      }
    }
    assert RolesDistintos(t, 4) == {3} by {
      assert 3 in Resolver.RolesEnModulo(t, 4, 1);
      assert 3 in RolesDistintos(t, 4);
      forall rol | rol in RolesDistintos(t, 4) ensures rol == 3 {
      }
    }
  }
}
