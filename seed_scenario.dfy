/**
 * The seeded database: two users, three modules, four roles, thirteen permissions (two of them called
 * `ver_reportes`, in different modules) and the seeded grants and assignments, with what the resolver
 * answers about them.
 */
module SeedScenario {
  import opened Common
  import opened Schema
  import Resolver

  const Juan: int := 1
  const Maria: int := 2

  const Petroleo: int := 1
  const Produccion: int := 2
  const Reportes: int := 3

  const Administrador: int := 1
  const Supervisor: int := 2
  const Operario: int := 3
  const Visualizador: int := 4

  /**
   * The seeded tables. Permissions 1-5 belong to Gestión Petróleo, 6-10 to Sistema Producción and
   * 11-13 to Reportes; the administrator role is created as "Administrador", capitalised.
   */
  function Seed(): Tables
  {
    Tables(
      map[Juan := User("12345678-9", "hash", true), Maria := User("98765432-1", "hash", true)],
      map[Administrador := Rol("Administrador", true), Supervisor := Rol("Supervisor", true),
          Operario := Rol("Operario", true), Visualizador := Rol("Visualizador", true)],
      map[1 := Permiso("ver_faenas", Petroleo), 2 := Permiso("crear_faenas", Petroleo),
          3 := Permiso("editar_faenas", Petroleo), 4 := Permiso("eliminar_faenas", Petroleo),
          5 := Permiso("ver_reportes", Petroleo),
          6 := Permiso("ver_produccion", Produccion), 7 := Permiso("registrar_produccion", Produccion),
          8 := Permiso("editar_produccion", Produccion), 9 := Permiso("eliminar_produccion", Produccion),
          10 := Permiso("ver_estadisticas", Produccion),
          11 := Permiso("ver_reportes", Reportes), 12 := Permiso("generar_reportes", Reportes),
          13 := Permiso("exportar_reportes", Reportes)],
      map[Petroleo := Modulo("Gestión Petróleo", true), Produccion := Modulo("Sistema Producción", true),
          Reportes := Modulo("Reportes", true)],
      {(Juan, Administrador, Petroleo), (Juan, Administrador, Produccion), (Juan, Administrador, Reportes),
       (Maria, Operario, Produccion), (Maria, Visualizador, Petroleo)},
      {(1, 1), (1, 2), (1, 3), (1, 4), (1, 5), (1, 6), (1, 7), (1, 8), (1, 9), (1, 10), (1, 11), (1, 12), (1, 13),
       (2, 1), (2, 2), (2, 3), (2, 5), (2, 6), (2, 7), (2, 8), (2, 10), (2, 11), (2, 12),
       (3, 1), (3, 5), (3, 6), (3, 7), (3, 10), (3, 11),
       (4, 1), (4, 5), (4, 6), (4, 10), (4, 11)},
      map[], 5, 14, 4, 1)
  }

  /** The seeded assignment rows name existing users, roles and modules. */
  lemma SeedAssignmentKeys()
    ensures forall a | a in Seed().usuarioRoles :: a.0 in Seed().users && a.1 in Seed().roles && a.2 in Seed().modulos
  {
  }

  /** The seeded grants name existing roles and permissions. */
  lemma SeedGrantKeys()
    ensures forall g | g in Seed().rolPermisos :: g.0 in Seed().roles && g.1 in Seed().permisos
  {
    var t := Seed();
    forall g | g in t.rolPermisos ensures g.0 in t.roles && g.1 in t.permisos {
      assert 1 <= g.0 <= 4 && 1 <= g.1 <= 13;
    }
  }

  /** Every seeded permission belongs to a seeded module. */
  lemma SeedPermisoModules()
    ensures forall p | p in Seed().permisos :: Seed().permisos[p].moduloId in Seed().modulos
  {
  }

  /** The seeded ids lie below their counters and the seeded users and roles have distinct names. */
  lemma SeedKeys()
    ensures forall id | id in Seed().roles :: id < Seed().nextRolId
    ensures forall id | id in Seed().permisos :: id < Seed().nextPermisoId
    ensures forall id | id in Seed().modulos :: id < Seed().nextModuloId
    ensures forall u, v | u in Seed().users && v in Seed().users && Seed().users[u].rut == Seed().users[v].rut :: u == v
    ensures forall r, s | r in Seed().roles && s in Seed().roles && Seed().roles[r].nombre == Seed().roles[s].nombre :: r == s
  {
  }

  /** The seeded tables satisfy the schema's constraints. */
  lemma SeedIntegrity()
    ensures Integrity(Seed())
  {
    SeedAssignmentKeys();
    SeedGrantKeys();
    SeedPermisoModules();
    SeedKeys();
  }

  /** The two `ver_reportes` permissions share a name across modules. */
  lemma VerReportesRepetido()
    ensures Seed().permisos[5].nombre == Seed().permisos[11].nombre && Seed().permisos[5].moduloId != Seed().permisos[11].moduloId
  {
  }

  /** The seeded role rows of María: Operario in Producción, Visualizador in Gestión Petróleo. */
  lemma RolesDeMaria()
    ensures forall rol :: (Maria, rol, Produccion) in Seed().usuarioRoles <==> rol == Operario
    ensures forall rol :: (Maria, rol, Petroleo) in Seed().usuarioRoles <==> rol == Visualizador
  {
  }

  /** The permissions seeded for Operario (by name: both `ver_reportes` among them) and Visualizador. */
  lemma PermisosSembrados()
    ensures forall p :: (Operario, p) in Seed().rolPermisos <==> p in {1, 5, 6, 7, 10, 11}
    ensures forall p :: (Visualizador, p) in Seed().rolPermisos <==> p in {1, 5, 6, 10, 11}
  {
  }

  /**
   * María's permissions in Producción are the Producción permissions granted to Operario; the two
   * `ver_reportes` that Operario also holds belong to other modules and stay out.
   */
  lemma MariaEnProduccion()
    ensures forall p :: p in Resolver.PermisosEnModulo(Seed(), Maria, Produccion) <==> p == 6 || p == 7 || p == 10
    ensures 5 !in Resolver.PermisosEnModulo(Seed(), Maria, Produccion) && (Operario, 5) in Seed().rolPermisos
  {
    RolesDeMaria();
    PermisosSembrados();
  }

  /** María's permissions in Gestión Petróleo are the two `ver_` permissions Visualizador holds there. */
  lemma MariaEnPetroleo()
    ensures forall p :: p in Resolver.PermisosEnModulo(Seed(), Maria, Petroleo) <==> p == 1 || p == 5
  {
    RolesDeMaria();
    PermisosSembrados();
  }

  /** María's module list holds Gestión Petróleo and Sistema Producción, not Reportes. */
  lemma ModulosDeMaria()
    ensures forall m :: m in Resolver.Modulos(Seed(), Maria) <==> m == Petroleo || m == Produccion
  {
    var t := Seed();
    assert Visualizador in Resolver.RolesEnModulo(t, Maria, Petroleo);
    assert Operario in Resolver.RolesEnModulo(t, Maria, Produccion);
  }

  /**
   * The names are compared exactly, so the seeded "Administrador" is not the protected
   * "administrador": Juan holds every permission of every module, yet is not an administrator.
   */
  lemma JuanNoEsAdministrador()
    ensures !Resolver.EsAdministrador(Seed(), Juan)
    ensures forall m, p :: p in Resolver.PermisosEnModulo(Seed(), Juan, m) <==> p in Seed().permisos && Seed().permisos[p].moduloId == m
  {
    var t := Seed();
    forall m, p | p in t.permisos && t.permisos[p].moduloId == m ensures p in Resolver.PermisosEnModulo(t, Juan, m) {
      assert (Juan, Administrador, m) in t.usuarioRoles && (Administrador, p) in t.rolPermisos;
    }
  }
}
