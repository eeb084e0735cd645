# Centralised authentication and authorization: a verified model

This project models the authorization and session core of the centralised authentication system
(a Laravel API with a React administration front end).

The data is a handful of tables:
- users, roles, permissions and modules;
- the ternary assignment relation `usuario_roles(user, rol, modulo)`;
- the grant relation `rol_permisos(rol, permiso)`;
- Sanctum's ledger of personal access tokens, each with a nullable expiry read against an abstract clock.

On top of these tables the model covers:

- **Resolver** (`User.php`, `Rol.php`, `Permiso.php`, `Modulo.php`). Pure functions answer three questions: which roles a user holds in a module, which permissions those roles give there, and who is an administrator. A permission counts in module *m* only when it is granted to a role the user holds in *m* and the permission itself belongs to *m*.
- **Controllers.** Each is a method on a mutable `Db` object (one field per table). Its contract gives:
  - every reply: 201/200, 404, 403, 422 or 500;
  - the new state of every table;
  - the invariant it keeps (foreign keys, unique indexes, per-module permission names).

  Replace-all writes (`assignRoles`, `assignPermisos`) are delete-then-insert loops. The insert fails on a repeated id, just as the unique index makes it fail.
- **Session ledger.** `login` purges expired tokens and issues a new one. `refresh` swaps the current token for one with no `expires_at` (Sanctum's own lifetime check is not modelled). `logout` revokes one token, `changePassword` revokes all the others, and deactivating or deleting a user revokes all of theirs. The `token.valid` middleware deletes an expired token when it is presented; in the source Sanctum's guard refuses such a token first (see "Left out").
- **Request gate.** The middleware order `auth:sanctum` → `token.valid` → `admin` of each route group decides whether a request is unauthenticated, expired or forbidden, or reaches its endpoint. The exception handler maps a failure to a JSON status.
- **Administration pages.**
  - The user-role modal flattens the grouped reply, computes the role set of one module after a click, and sends it.
  - The role-permission modal does the same for a role's permissions.
  - Both ignore clicks while a save is under way and then reload from the server.
- **Seeded scenario.** The seeded database is a concrete table snapshot with lemmas about what the resolver answers for it.

Every string field of a request except the passwords `password` and `current_password` reaches a
controller as the framework's default global middleware leaves it: trimmed, and null once nothing is
left (`Common.Entrada`). The `required` rule refuses null and whitespace-only strings (`Common.Present`).
After that, names are compared exactly, as the database comparison in the source is written. The
protected role name is the constant `Schema.AdminRoleName`, `"administrador"`.

## Model

| member | source | states |
|---|---|---|
| Common.Trim | backend/bootstrap/app.php:19-31 | only whitespace is cut, from the ends; the result neither starts nor ends with whitespace, and is empty exactly when the input is all whitespace |
| Common.TrimEsTramo | backend/bootstrap/app.php:19-31 | what `trim` keeps is one contiguous stretch of the input, with only whitespace before and after it |
| Common.TrimRecorta | backend/bootstrap/app.php:19-31 | a string without whitespace at its ends is left as it is, and padding it with one space on each side is undone |
| Common.Entrada | backend/bootstrap/app.php:19-31 | a field reaches the controller trimmed, and null exactly when `required` would refuse it, so `required` then refuses exactly the missing fields |
| Common.PrimerAusente | backend/app/Models/Rol.php:108-111 | the index of the first id not in the table: every id before it is known, and the id at it is not |
| Schema.InsertRows | backend/database/migrations/2025_10_01_204952_create_usuario_roles_table.php:27 | a batch insert into a uniquely indexed table succeeds exactly when the batch repeats no row and meets no existing row; the table then gains exactly those rows |
| Schema.BuildRows | backend/app/Http/Controllers/Api/UserManagementController.php:289-299 | the insert loop yields one row per requested id, in order |
| Schema.BuildRowsFacts | backend/app/Http/Controllers/Api/RoleManagementController.php:213-221 | the rows built from ids repeat exactly when the ids repeat, and hold exactly the rows of the requested ids |
| Schema.DeleteUser | backend/database/migrations/2025_10_01_204952_create_usuario_roles_table.php:16 | deleting a user removes every assignment row of that user and keeps all others |
| Schema.DeleteRol | backend/database/migrations/2025_10_02_120303_create_rol_permisos_table.php:16 | deleting a role cascades to its assignment rows and its grants and keeps every other row |
| Schema.DeleteModulo | backend/database/migrations/2025_10_01_204952_create_usuario_roles_table.php:18 | deleting a module removes every assignment in that module and keeps the others |
| Schema.DeletePermiso | backend/database/migrations/2025_10_02_120303_create_rol_permisos_table.php:17 | deleting a permission removes every grant of it and keeps the others |
| Schema.DeleteUserKeepsIntegrity | backend/database/migrations/2025_10_01_204952_create_usuario_roles_table.php:16-18 | the user cascade leaves the foreign keys intact once the user's tokens are gone |
| Schema.DeleteRolKeepsIntegrity | backend/database/migrations/2025_10_02_120303_create_rol_permisos_table.php:16-17 | the role cascade leaves both association tables' foreign keys intact |
| Schema.DeleteModuloKeepsIntegrity | backend/database/migrations/2025_10_01_204952_create_usuario_roles_table.php:18 | deleting a module that owns no permission keeps every foreign key intact |
| Schema.DeletePermisoKeepsIntegrity | backend/database/migrations/2025_10_02_120303_create_rol_permisos_table.php:17 | the permission cascade keeps every foreign key intact |
| Resolver.RolesEnModulo | backend/app/Models/User.php:97-102 | a role is listed exactly when the user has an assignment row with it in the module |
| Resolver.TieneAccesoAModulo | backend/app/Models/User.php:110-115 | access holds exactly when the user holds some role in the module, whatever the module's `estado` |
| Resolver.PermisosEnModulo | backend/app/Models/User.php:123-141 | a permission is listed exactly when it is granted to a role the user holds in the module and belongs to that module; the list is empty without access |
| Resolver.TienePermiso | backend/app/Models/User.php:150-155 | holds exactly when some permission of that name is among the user's permissions in the module |
| Resolver.TieneRol | backend/app/Models/User.php:164-168 | holds exactly when the user holds, in the module, an existing role of that name |
| Resolver.EsAdministrador | backend/app/Models/User.php:202-207 | holds exactly when the user holds a role named `administrador` in some module |
| Resolver.EsAdministradorEnModulo | backend/app/Models/User.php:215-222 | without a module it is `EsAdministrador`; with one it is the admin role in that module, which implies `EsAdministrador` |
| Resolver.Modulos | backend/app/Models/User.php:80-85 | the modules listed are exactly the active modules where the user holds a role |
| Resolver.PermisosMonotone | backend/app/Models/User.php:123-141 | adding assignment rows or grants never removes a permission from a user in a module |
| Resolver.PermisosLocal | backend/app/Models/User.php:123-155 | a user's permissions in a module depend only on that user's assignment rows in that module |
| Sessions.Live | backend/app/Http/Middleware/EnsureTokenIsValid.php:29 | a user's live tokens are theirs and not expired, where expiry means a non-null `expires_at` strictly before now |
| Sessions.ExpiresAt | backend/app/Http/Controllers/Api/AuthController.php:50-55 | with no configured lifetime the token gets no `expires_at`; with *n* minutes its `expires_at` is now + 60·*n* seconds, so 0 expires as soon as the clock passes now |
| Sessions.Purge | backend/app/Http/Controllers/Api/AuthController.php:41 | only this user's expired tokens are deleted; other users' tokens and tokens without expiry remain, and every live token stays live |
| Sessions.RevokeAll | backend/app/Http/Controllers/Api/UserManagementController.php:257-259 | every token of the user is removed and no other token changes; the user has no live token afterwards |
| Sessions.RevokeOthers | backend/app/Http/Controllers/Api/UserController.php:118-121 | every token of the user except the current one is removed; the current one is live exactly when it was before |
| AuthController.UserByRut | backend/app/Http/Controllers/Api/AuthController.php:25 | finds the user with the given rut, or reports that none has it |
| AuthController.Authenticate | backend/app/Http/Controllers/Api/AuthController.php:20-37 | missing or whitespace-only fields give 422 with those fields; success exactly when the trimmed rut and the untrimmed password match an active user; the deactivated message only when the credentials match an inactive user |
| AuthController.RutConEspacios | backend/app/Http/Controllers/Api/AuthController.php:20-37 | a rut padded with spaces gets exactly the reply of the bare rut |
| AuthController.UnknownRutIndistinguishable | backend/app/Http/Controllers/Api/AuthController.php:27-31 | an unknown rut and a wrong password for a known rut give the same reply |
| AuthController.Emitir | backend/app/Http/Controllers/Api/AuthController.php:39-55 | the tables after a login: the user's expired tokens are gone, one token with the given expiry is added under the next id, the counter advances, and integrity holds |
| AuthController.Login | backend/app/Http/Controllers/Api/AuthController.php:18-90 | a failed check changes nothing; success purges the user's expired tokens and adds exactly one fresh token with the configured expiry |
| AuthController.Logout | backend/app/Http/Controllers/Api/AuthController.php:92-94 | deletes exactly the presented token |
| AuthController.Refresh | backend/app/Http/Controllers/Api/AuthController.php:177-185 | deletes the current token and issues one for the same user with no `expires_at` of its own |
| AuthController.AccesoEn | backend/app/Models/User.php:177-188 | the roles and permission names reported for a module are exactly those `TieneRol` and `TienePermiso` accept |
| AuthController.GetModulos | backend/app/Http/Controllers/Api/AuthController.php:128-141 | lists exactly the active modules the user can access, each with its name and exactly the user's roles and permissions there |
| AuthController.GetPermisosModulo | backend/app/Http/Controllers/Api/AuthController.php:151-170 | 403 exactly without access; 200 when the module exists, whatever its `estado`, with its name and exactly the user's role names and permission names in it |
| AuthController.InactiveModuleStillAnswers | backend/app/Http/Controllers/Api/AuthController.php:132-160 | a deactivated module the user can access is absent from the module list yet still answers its permission query |
| AuthController.VerificarPermiso | backend/app/Http/Controllers/Api/AuthController.php:197-212 | 422 naming exactly the failing fields, a whitespace-only name among them; otherwise the answer is whether the user holds the permission of the trimmed name in the module |
| AuthController.ValidarToken | backend/app/Http/Controllers/Api/AuthController.php:215-249 | 422 for an unknown module, 403 exactly without access, otherwise exactly the user's roles and permissions there |
| TokenMiddleware.Expired | backend/app/Http/Middleware/EnsureTokenIsValid.php:25-29 | a request counts as expired exactly when it carries an existing token whose expiry has passed |
| TokenMiddleware.Handle | backend/app/Http/Middleware/EnsureTokenIsValid.php:12-57 | an expired token is deleted and answered 401 `token_expired`; every other request passes with the store unchanged |
| CheckAdmin.Handle | backend/app/Http/Middleware/CheckAdmin.php:16-33 | no user gives 401, a non-administrator 403, and an administrator passes |
| Routes.Chain | backend/routes/api.php:16-88 | public routes have no middleware; every other route starts with `auth:sanctum` then `token.valid`, and only admin routes add `admin` |
| Routes.Run | backend/routes/api.php:34 | the ledger changes only when a request is refused as expired; 403 only where `admin` is in the chain; authenticated passes carry the caller |
| Routes.PublicNeedsNoToken | backend/routes/api.php:16-29 | a route passes without a caller and without touching the ledger exactly when it is `/ping` or `/auth/login` |
| Routes.ProtectedGate | backend/routes/api.php:34-75 | a protected route passes exactly when the bearer token is live, and passes it its owner |
| Routes.AdminGate | backend/routes/api.php:88 | an admin route passes exactly for a live token of an administrator; a missing token is 401, an expired one `SessionExpired`, a live non-admin 403 |
| Routes.ExpiredTokenIsGone | backend/app/Http/Middleware/EnsureTokenIsValid.php:38-51 | once the gate has deleted an expired token, presenting it again on any protected route is unauthenticated |
| Routes.VerificationNeedsNoAdmin | backend/routes/api.php:65-68 | a live non-administrator reaches `verificar-permiso` and `validar-token` but is forbidden from the admin area |
| Routes.ExpiredTokenCannotRefresh | backend/routes/api.php:52-56 | refreshing with an expired token is refused as expired and deletes that token |
| Exceptions.RenderAuthentication | backend/bootstrap/app.php:36-47 | a JSON request that fails authentication gets 401 `unauthenticated`; any other request is left to the default handler |
| Exceptions.RenderApi | backend/bootstrap/app.php:51-94 | API requests get 422 with the field errors, 404, 403, the HTTP exception's own code, or 500 with details hidden unless debugging; other requests get nothing |
| Exceptions.Dispatch | backend/bootstrap/app.php:33-94 | a rendered reply comes from a callback whose first parameter type the exception matches; if no callback matches, nothing is rendered |
| Exceptions.ApiCallbackUnreachable | backend/bootstrap/app.php:51 | as registered, the application's render callbacks answer only an authentication failure; a failed login's validation error gets no reply from them, and the framework's default rendering answers it instead |
| Exceptions.RenderCoversApi | backend/bootstrap/app.php:36-94 | with the API callback reachable, every JSON or `api/*` request gets a reply, chosen by the first callback that applies |
| Exceptions.ReplyStatusAgrees | backend/bootstrap/app.php:57-91 | for every controller failure, the handler renders the status the model's reply carries |
| RolModel.PermisosDeRol | backend/app/Models/Rol.php:42-46 | a role's permissions are exactly the existing permissions granted to it, from every module |
| RolModel.NombresPermisos | backend/app/Models/Rol.php:74-77 | the names of the role's permissions |
| RolModel.TienePermiso | backend/app/Models/Rol.php:74-77 | holds exactly when the role has a permission of that name, in any module |
| RolModel.TieneAlgunPermiso | backend/app/Models/Rol.php:85-88 | holds exactly when some listed name is held by the role |
| RolModel.TieneTodosPermisos | backend/app/Models/Rol.php:96-100 | holds exactly when every listed name is held by the role |
| RolModel.TodosImplicaAlguno | backend/app/Models/Rol.php:85-100 | holding all names of a non-empty list implies holding some |
| RolModel.TodosDependsOnNamesOnly | backend/app/Models/Rol.php:96-100 | the answer depends on the set of names asked for, not on order or repetition |
| RolModel.ConteoAcceptsMissingName | backend/app/Models/Rol.php:96-100 | the counting version accepts a list whose second name the role lacks, when the role holds the first name twice |
| RolModel.ConteoRejectsRepeatedName | backend/app/Models/Rol.php:96-100 | the counting version rejects a held name listed twice |
| RolModel.CantidadUsuarios | backend/app/Models/Rol.php:171-174 | counts assignment rows naming the role; positive exactly when some row names it |
| RolModel.PermisosPorModulo | backend/app/Models/Rol.php:192-200 | each of the role's permissions lies in exactly the group named after its module, and no group is empty |
| RolModel.Conceder | backend/app/Models/Rol.php:108-111 | the grants gain exactly the role's new permissions and keep all others |
| RolModel.Revocar | backend/app/Models/Rol.php:119-122 | exactly the listed grants of the role are removed |
| RolModel.Sincronizar | backend/app/Models/Rol.php:130-133 | the role's grants become exactly the listed permissions; other roles' grants are kept |
| RolModel.SincronizarIsRevocarThenConceder | backend/app/Models/Rol.php:108-133 | sync is revoking all of the role's grants and then granting the list |
| RolModel.SincronizarIdempotent | backend/app/Models/Rol.php:130-133 | syncing twice with the same list is syncing once |
| RolModel.RevocarUndoesConceder | backend/app/Models/Rol.php:108-122 | removing what was just added leaves what removal alone would leave |
| RolModel.AsignarPermisos | backend/app/Models/Rol.php:108-111 | attaches the ids one by one in list order: succeeds exactly when every id exists; the grants become `Conceder` of the ids before the first unknown one, which is all of them on success |
| RolModel.FalloDependeDelOrden | backend/app/Models/Rol.php:108-111 | a failed attach keeps the rows of the ids before the unknown one, so `[1, 999]` and `[999, 1]` leave different grants |
| RolModel.RemoverPermisos | backend/app/Models/Rol.php:119-122 | the grants become `Revocar` of the ids |
| RolModel.SincronizarPermisos | backend/app/Models/Rol.php:130-133 | detaches the role's unlisted permissions, then attaches as `asignarPermisos`: success exactly when every id exists, and then the grants are `Sincronizar`; on failure the detach stands and the ids before the first unknown one are attached |
| PermisoModel.PrimerTipo | backend/app/Models/Permiso.php:224-235 | the type is the first listed word that the name starts with followed by `_`, or none when no word matches |
| PermisoModel.Tipo | backend/app/Models/Permiso.php:224-235 | the loop returns the first matching word of `ver, crear, editar, eliminar, exportar, importar` |
| PermisoModel.EsLectura | backend/app/Models/Permiso.php:202-205 | holds exactly when the name's type is `ver` |
| PermisoModel.PrefixesExclusive | backend/app/Models/Permiso.php:226-232 | a name starts with at most one of the type words followed by `_` |
| PermisoModel.TipoOfPrefix | backend/app/Models/Permiso.php:224-235 | a name starting with a type word and `_` has that type |
| PermisoModel.EsEscritura | backend/app/Models/Permiso.php:212-217 | holds exactly when the type is `crear`, `editar` or `eliminar` |
| PermisoModel.ExportarImportarNeither | backend/app/Models/Permiso.php:202-235 | an `exportar_` or `importar_` name has a type but is neither reading nor writing |
| PermisoModel.TieneRol | backend/app/Models/Permiso.php:106 | an existing permission has the role exactly when the role exists and holds it |
| PermisoModel.CantidadRoles | backend/app/Models/Permiso.php:126 | positive exactly when some existing role holds the permission |
| PermisoModel.EstaAsignado | backend/app/Models/Permiso.php:116 | holds exactly when the role count is positive |
| PermisoModel.Usuarios | backend/app/Models/Permiso.php:137-151 | the intended query: a user is listed exactly when they have some role holding the permission and, when the module filter is on, some role in that module |
| PermisoModel.UsuariosComoEscrito | backend/app/Models/Permiso.php:144-148 | as written, the query fails on the unknown column `pivot` exactly when the module filter is on; otherwise it lists exactly the users with a role holding the permission |
| PermisoModel.UsuariosFiltradoFalla | backend/app/Models/Permiso.php:137-151 | a user who resolves the permission in a module gets an error as written and is listed as intended |
| PermisoModel.UsuariosCoverResolver | backend/app/Models/Permiso.php:137-151 | a user who resolves the permission in a module is listed for that module |
| PermisoModel.UsuariosFilterIsIndependent | backend/app/Models/Permiso.php:139-149 | a user can be listed for a module through a role that does not hold the permission there |
| PermisoModel.AsignarA | backend/app/Models/Permiso.php:170 | the permission's roles gain exactly the listed roles |
| PermisoModel.RemoverDe | backend/app/Models/Permiso.php:181 | exactly the listed roles lose the permission |
| PermisoModel.SincronizarCon | backend/app/Models/Permiso.php:192 | the permission's roles become exactly the list; other permissions' grants are kept |
| PermisoModel.AsignarAMatchesConceder | backend/app/Models/Permiso.php:170-181 | granting from the permission's side and from the role's side give the same rows |
| PermisoModel.SincronizarConIdempotent | backend/app/Models/Permiso.php:192 | syncing twice with the same list is syncing once |
| PermisoModel.AsignarARoles | backend/app/Models/Permiso.php:168-172 | attaches the roles one by one in list order: succeeds exactly when every role exists; the grants become `AsignarA` of the roles before the first unknown one, which is all of them on success |
| PermisoModel.RemoverDeRoles | backend/app/Models/Permiso.php:179-183 | the grants become `RemoverDe` of the roles |
| PermisoModel.SincronizarRoles | backend/app/Models/Permiso.php:190-195 | detaches the unlisted roles, then attaches as `asignarARoles`: success exactly when every role exists, and then the grants are `SincronizarCon`; on failure the detach stands and the roles before the first unknown one are attached |
| ModuloModel.TodosUsuarios | backend/app/Models/Modulo.php:104-112 | exactly the existing users with access to the module |
| ModuloModel.Usuarios | backend/app/Models/Modulo.php:87-97 | exactly the active users among `TodosUsuarios` |
| ModuloModel.TieneUsuario | backend/app/Models/Modulo.php:120-126 | holds exactly when the user has an assignment row in the module |
| ModuloModel.CantidadUsuarios | backend/app/Models/Modulo.php:133-143 | positive exactly when some active user has access to the module |
| ModuloModel.RolesAsignados | backend/app/Models/Modulo.php:150-158 | exactly the existing roles that someone holds in the module |
| ModuloModel.EstaActivo | backend/app/Models/Modulo.php:189 | for every user with access, the module is listed for them exactly when it is active |
| ModuloModel.ConEstado | backend/app/Models/Modulo.php:199-214 | only the module's `estado` changes, and the tables stay consistent |
| ModuloModel.ActivarShowsModulo | backend/app/Models/Modulo.php:199 | after activation the module is listed exactly for users with access; other modules' listing is unchanged |
| ModuloModel.DesactivarHidesModulo | backend/app/Models/Modulo.php:210 | after deactivation nobody has the module listed; other modules' listing is unchanged |
| ModuloModel.Activar | backend/app/Models/Modulo.php:197-201 | sets `estado` to true and nothing else |
| ModuloModel.Desactivar | backend/app/Models/Modulo.php:208-212 | sets `estado` to false and nothing else |
| UserController.PasswordRuleFailures | backend/app/Http/Controllers/Api/UserController.php:90-98 | `current_password` fails exactly when it is missing or whitespace only; `new_password` passes exactly when, trimmed, it has at least 8 characters and equals its trimmed confirmation |
| UserController.CheckPasswordChange | backend/app/Http/Controllers/Api/UserController.php:90-112 | the rules come first, then a wrong current password, then a new password equal to the old; success returns the trimmed new password, of at least 8 characters |
| UserController.SamePasswordRefused | backend/app/Http/Controllers/Api/UserController.php:108-112 | reusing the current password, when it has no whitespace at its ends, is refused with the `new_password` error |
| UserController.NuevaSeGuardaRecortada | backend/app/Http/Controllers/Api/UserController.php:90-115 | a new password typed with a space at each end passes and is stored without them |
| UserController.ChangePassword | backend/app/Http/Controllers/Api/UserController.php:86-126 | a failure changes nothing; success stores the new hash and revokes every other token of the user, keeping the current one |
| UserController.RolesDistintos | backend/app/Http/Controllers/Api/UserController.php:139 | exactly the existing roles the user holds in some module |
| UserController.FilasModulosActivos | backend/app/Models/User.php:80-85 | the rows counted by `modulos()->count()` are exactly the user's assignment rows in active modules |
| UserController.ModulosSonImagenDeFilas | backend/app/Models/User.php:80-85 | the user's distinct active modules are exactly the modules of those rows |
| UserController.GetStatsComoEscrito | backend/app/Http/Controllers/Api/UserController.php:136 | as written, `total_modulos` is the number of those rows, never below the number of distinct modules; roles and expiry as in `GetStats` |
| UserController.DosRolesUnModuloCuentaDos | backend/app/Http/Controllers/Api/UserController.php:136 | two roles in one active module give `total_modulos` 2 as written and 1 as intended |
| UserController.GetStats | backend/app/Http/Controllers/Api/UserController.php:131-155 | the intended statistics: the number of distinct active modules and of distinct roles; no expiry exactly when the current token has no `expires_at`, otherwise exactly that instant |
| UserController.SameRoleTwoModulesCountsOnce | backend/app/Http/Controllers/Api/UserController.php:139 | one role held in two modules counts once |
| UserManagement.Reemplazar | backend/app/Http/Controllers/Api/UserManagementController.php:284-303 | the user's roles in the module become exactly the given set; every other row is kept |
| UserManagement.ReemplazarIdempotent | backend/app/Http/Controllers/Api/UserManagementController.php:284-303 | repeating the same assignment changes nothing further |
| UserManagement.QuitarTrasReemplazar | backend/app/Http/Controllers/Api/UserManagementController.php:322-327 | removing one role after a replace is replacing with the set less that role |
| UserManagement.ReemplazarResolves | backend/app/Http/Controllers/Api/UserManagementController.php:284-303 | after a replace, the user's roles in that module are the set, and roles elsewhere and of other users are unchanged |
| UserManagement.FallasAsignacion | backend/app/Http/Controllers/Api/UserManagementController.php:274-278 | `modulo_id` fails exactly when it is missing or unknown; `rol_ids` fails exactly when some id is unknown |
| UserManagement.ReemplazarPorPartes | backend/app/Http/Controllers/Api/UserManagementController.php:284-303 | delete-then-insert of the new rows equals the replace, and the inserted rows are disjoint from what the delete leaves |
| UserManagement.ReemplazarKeepsIntegrity | backend/app/Http/Controllers/Api/UserManagementController.php:284-303 | replacing with existing roles keeps every foreign key intact |
| UserManagement.FilasDeRoles | backend/app/Http/Controllers/Api/UserManagementController.php:289-299 | the rows built repeat exactly when the ids repeat and name exactly the requested roles |
| UserManagement.ReemplazarRoles | backend/app/Http/Controllers/Api/UserManagementController.php:284-303 | the insert succeeds exactly when no id repeats; either way the delete has happened |
| UserManagement.AssignRoles | backend/app/Http/Controllers/Api/UserManagementController.php:270-308 | 404 for an unknown user, 422 before any delete, 200 with the roles replaced, or 500 after a repeated id with the module's roles already deleted |
| UserManagement.FallasRemocion | backend/app/Http/Controllers/Api/UserManagementController.php:317-320 | each of `rol_id` and `modulo_id` fails exactly when it is missing or unknown |
| UserManagement.RemoveRole | backend/app/Http/Controllers/Api/UserManagementController.php:313-331 | deletes exactly the one triple, or changes nothing on 404 or 422 |
| UserManagement.RemoveAbsentIsNoOp | backend/app/Http/Controllers/Api/UserManagementController.php:322-330 | removing an absent triple leaves the tables unchanged |
| UserManagement.Conmutar | backend/app/Http/Controllers/Api/UserManagementController.php:253-259 | flips `estado`; deactivation revokes all of the user's tokens, activation none; nothing else changes |
| UserManagement.DesactivarCierraSesiones | backend/app/Http/Controllers/Api/UserManagementController.php:253-259 | a deactivated user keeps a consistent table, has no live token, cannot log in, and other users' tokens survive |
| UserManagement.ConmutarDosVeces | backend/app/Http/Controllers/Api/UserManagementController.php:253-259 | toggling twice restores the users but not the revoked tokens |
| UserManagement.ToggleStatus | backend/app/Http/Controllers/Api/UserManagementController.php:242-265 | 404, 403 for oneself with nothing changed, or the flip of `Conmutar` |
| UserManagement.Eliminar | backend/app/Http/Controllers/Api/UserManagementController.php:225-232 | deletes the user's tokens and then the user, with its assignment rows |
| UserManagement.EliminarQuitaAcceso | backend/app/Http/Controllers/Api/UserManagementController.php:225-232 | after deletion the tables are consistent, the user has no access and no live token, and other users' roles are unchanged |
| UserManagement.Destroy | backend/app/Http/Controllers/Api/UserManagementController.php:214-237 | 404, 403 for oneself with nothing changed, or `Eliminar` |
| UserManagement.RolesPorModulo | backend/app/Http/Controllers/Api/UserManagementController.php:336-373 | each group is a module holding exactly the user's existing roles there, and no group is empty |
| UserManagement.RolesPorModuloIsResolver | backend/app/Http/Controllers/Api/UserManagementController.php:336-373 | the grouping agrees with `RolesEnModulo` and lists exactly the modules the user can access |
| Schema.FallasNombre | backend/app/Http/Controllers/Api/RoleManagementController.php:87-90 | the name of a role or a module passes exactly when present and unused by another row of its table |
| Schema.NombreRellenoOcupado | backend/app/Http/Controllers/Api/RoleManagementController.php:87-90 | a taken name padded with spaces is still taken, and a whitespace-only name is missing |
| RoleManagement.Crear | backend/app/Http/Controllers/Api/RoleManagementController.php:93-95 | the new role is active under the next id; the id counter advances, and every other role and table is kept |
| RoleManagement.CrearOcupaNombre | backend/app/Http/Controllers/Api/RoleManagementController.php:85-106 | creating keeps the tables consistent and makes the name unavailable |
| RoleManagement.Store | backend/app/Http/Controllers/Api/RoleManagementController.php:85-106 | 201 exactly when the trimmed name passes, creating an active role under it; otherwise 422 and no change |
| RoleManagement.Renombrar | backend/app/Http/Controllers/Api/RoleManagementController.php:128 | only the role's name changes |
| RoleManagement.Update | backend/app/Http/Controllers/Api/RoleManagementController.php:111-139 | 404, 403 for the admin role before validation, 422 for a bad trimmed name, otherwise the rename to it; failures change nothing |
| RoleManagement.RenombrarOtorgaAdministrador | backend/app/Http/Controllers/Api/RoleManagementController.php:116-128 | renaming another role to `administrador` passes validation and makes its holders administrators |
| RoleManagement.Destroy | backend/app/Http/Controllers/Api/RoleManagementController.php:144-171 | 404, 403 for the admin role, 422 while any user holds it, otherwise deletion with its grants |
| RoleManagement.DeleteUnusedRolKeepsAccess | backend/app/Http/Controllers/Api/RoleManagementController.php:163-166 | deleting a role nobody holds keeps every assignment and every user's permissions |
| RoleManagement.ToggleStatus | backend/app/Http/Controllers/Api/RoleManagementController.php:176-194 | refused exactly for the active admin role; otherwise only that role's `estado` flips |
| RoleManagement.EstadoDeRolIgnorado | backend/app/Models/User.php:123-168 | a role's `estado` changes neither anyone's permissions nor their roles |
| RoleManagement.FallasPermisos | backend/app/Http/Controllers/Api/RoleManagementController.php:203-206 | the list passes exactly when present, non-empty, and made of existing ids |
| RoleManagement.SincronizarKeepsIntegrity | backend/app/Http/Controllers/Api/RoleManagementController.php:209-224 | replacing a role's grants with existing permissions keeps the tables consistent |
| RoleManagement.SincronizarPorPartes | backend/app/Http/Controllers/Api/RoleManagementController.php:209-224 | delete-then-insert equals the replace, and the inserted rows are disjoint from what the delete leaves |
| RoleManagement.FilasDePermisos | backend/app/Http/Controllers/Api/RoleManagementController.php:213-221 | the rows built repeat exactly when the ids repeat and name exactly the requested permissions |
| RoleManagement.FilasDe | backend/app/Http/Controllers/Api/RoleManagementController.php:213-221 | the batch built repeats a row exactly when the list repeats an id, names exactly the listed permissions, and is empty exactly for an empty list |
| RoleManagement.InsercionReemplaza | backend/app/Http/Controllers/Api/RoleManagementController.php:209-224 | after the delete, an empty batch leaves the replacement by the empty list; otherwise the insert succeeds exactly when no id repeats and then yields the replacement |
| RoleManagement.ReemplazarPermisos | backend/app/Http/Controllers/Api/RoleManagementController.php:209-224 | the insert succeeds exactly when no id repeats; either way the delete has happened |
| RoleManagement.AssignPermisos | backend/app/Http/Controllers/Api/RoleManagementController.php:199-229 | 404, 422 before any delete, 200 with the grants replaced, or 500 after a repeated id with the grants already deleted |
| RoleManagement.AssignPermisosSetsRole | backend/app/Http/Controllers/Api/RoleManagementController.php:209-224 | after a successful assignment the role's permissions are exactly the list, and other roles are untouched |
| RoleManagement.GetPermisos | backend/app/Http/Controllers/Api/RoleManagementController.php:234-240 | 404 for an unknown role; otherwise the role's permissions grouped by module name |
| PermissionController.FallasPermiso | backend/app/Http/Controllers/Api/PermissionController.php:80-83 | `nombre` fails exactly when missing (null once trimmed to nothing); `modulo_id` exactly when missing or unknown |
| PermissionController.CrearPermiso | backend/app/Http/Controllers/Api/PermissionController.php:97 | the new permission sits under the next id in the given module; the id counter advances, and every other permission and table is kept |
| PermissionController.EditarPermiso | backend/app/Http/Controllers/Api/PermissionController.php:135 | that permission gets the new name and module; every other permission and every other table is kept |
| PermissionController.CrearPreservaUnicidad | backend/app/Http/Controllers/Api/PermissionController.php:86-97 | creating a name free in its module keeps names unique per module |
| PermissionController.MoverPermiso | backend/app/Http/Controllers/Api/PermissionController.php:124-135 | after an update moves a permission to module *m*, a user holds it in *m* exactly when a role they hold in *m* is granted it, and in no other module |
| PermissionController.EditarPreservaUnicidad | backend/app/Http/Controllers/Api/PermissionController.php:124-135 | editing to a name free in the target module, ignoring itself, keeps names unique per module |
| PermissionController.Store | backend/app/Http/Controllers/Api/PermissionController.php:78-108 | on the trimmed name: 422 for bad fields, 422 for a name taken in the same module, otherwise created; uniqueness per module is kept |
| PermissionController.Update | backend/app/Http/Controllers/Api/PermissionController.php:113-146 | on the trimmed name: 404, 422, 422 for a name taken by another permission in the target module, otherwise the new name and module; uniqueness is kept |
| PermissionController.Destroy | backend/app/Http/Controllers/Api/PermissionController.php:151-167 | 404, 422 while some role holds it, otherwise deletion |
| PermissionController.DestroyUnassignedKeepsAccess | backend/app/Http/Controllers/Api/PermissionController.php:156-163 | deleting an unassigned permission keeps every grant and every user's permissions |
| PermissionController.Index | backend/app/Http/Controllers/Api/PermissionController.php:17-53 | each permission lies in exactly its module's group, only for the filtered module when a filter is given, and no group is empty |
| ModuleController.Alta | backend/app/Http/Controllers/Api/ModuleController.php:122-124 | the tables after `store`: the new module under the next id, the counter advanced, every other row kept |
| ModuleController.Store | backend/app/Http/Controllers/Api/ModuleController.php:112-137 | 201 exactly when the trimmed name passes, creating the module under it, active unless the request says otherwise; 422 changes nothing |
| ModuleController.Update | backend/app/Http/Controllers/Api/ModuleController.php:142-167 | 404, 422 for a bad trimmed name ignoring the module's own, otherwise the new name and the flag when given |
| ModuleController.Destroy | backend/app/Http/Controllers/Api/ModuleController.php:172-195 | 404; 422 while an active user holds a role in it; then 422 while a permission belongs to it; otherwise deletion with its assignments |
| ModuleController.InactiveUsersDoNotBlock | backend/app/Http/Controllers/Api/ModuleController.php:177 | a module whose only assignments belong to inactive users passes the user guard and takes their rows with it |
| ModuleController.ToggleStatus | backend/app/Http/Controllers/Api/ModuleController.php:200-211 | 404, or the flag flips and nothing else changes |
| UserManagementUi.AplanarContiene | frontend/src/pages/admin/UserManagement.jsx:152-163 | the flattened rows are exactly the (module, role) pairs of the groups |
| UserManagementUi.AplanarRespuesta | frontend/src/pages/admin/UserManagement.jsx:152-163 | the nested loops push exactly the rows of `Aplanar` |
| UserManagementUi.AplanarRepresenta | frontend/src/pages/admin/UserManagement.jsx:147-164 | flattening a faithful reply gives exactly the user's (module, role) pairs, once each |
| UserManagementUi.SinRepetidos | frontend/src/pages/admin/UserManagement.jsx:152-163 | groups with distinct modules and repeat-free roles flatten without repeats |
| UserManagementUi.ConcatSinRepetidos | frontend/src/pages/admin/UserManagement.jsx:192-193 | appending a disjoint repeat-free list keeps a list repeat-free |
| UserManagementUi.RolesLocales | frontend/src/pages/admin/UserManagement.jsx:183-185 | exactly the role ids the rows give for the module |
| UserManagementUi.Quitar | frontend/src/pages/admin/UserManagement.jsx:190 | removes exactly the given id |
| UserManagementUi.Conmutar | frontend/src/pages/admin/UserManagement.jsx:176-194 | the list sent is the module's roles with the clicked role flipped, without repeats |
| UserManagementUi.ConmutarAplica | frontend/src/pages/admin/UserManagement.jsx:176-200 | after the server replaces the module's roles with the list sent, exactly the clicked role has flipped in that module |
| UserManagementUi.Ofrecidos | frontend/src/pages/admin/UserManagement.jsx:490 | exactly the active roles are offered |
| UserManagementUi.InactivoConservado | frontend/src/pages/admin/UserManagement.jsx:183-194 | an inactive role the user holds is not offered, yet a click on another role keeps it in the list sent |
| UserManagementUi.ModalRoles.constructor | frontend/src/pages/admin/UserManagement.jsx:147-165 | opening the modal holds the flattened reply and no save is under way |
| UserManagementUi.ModalRoles.IniciarConmutacion | frontend/src/pages/admin/UserManagement.jsx:172-200 | a click during a save is ignored; otherwise the save starts and the flipped list is returned |
| UserManagementUi.ModalRoles.TerminarConmutacion | frontend/src/pages/admin/UserManagement.jsx:203-226 | the rows become the flattened reload on success and stay on failure; the save ends |
| RoleManagementUi.LeerComoEscrito | frontend/src/pages/admin/RoleManagement.jsx:121 | with no module named `permisos`, the page reads an empty list |
| RoleManagementUi.LeerContiene | backend/app/Models/Rol.php:192-200 | an id is read exactly when some group of the reply lists it |
| RoleManagementUi.LeerSinRepetidos | backend/app/Models/Rol.php:192-200 | repeat-free, pairwise disjoint groups read without repeats |
| RoleManagementUi.LeerRepresenta | backend/app/Http/Controllers/Api/RoleManagementController.php:234-240 | reading a faithful reply yields exactly the role's permissions, once each |
| RoleManagementUi.Conmutar | frontend/src/pages/admin/RoleManagement.jsx:132-143 | the list sent is the current list with the clicked permission flipped, without repeats |
| RoleManagementUi.ConmutarComoEscritoRevoca | frontend/src/pages/admin/RoleManagement.jsx:121-147 | as written, a click sends only the clicked id, and the replace leaves the role with that permission alone |
| RoleManagementUi.ConmutarComoEscritoEjemplo | frontend/src/pages/admin/RoleManagement.jsx:121-147 | a role holding permission 1 loses it when permission 2 is clicked |
| RoleManagementUi.ConmutarAplica | frontend/src/pages/admin/RoleManagement.jsx:129-150 | with the reply read correctly, the list sent repeats no id; clicking the role's only permission sends `[]`, which `assignPermisos` refuses with 422 and no change; any other list passes exactly when the clicked id is a permission, and the replace then flips exactly that permission |
| RoleManagementUi.ModalPermisos.constructor | frontend/src/pages/admin/RoleManagement.jsx:117-127 | opening the modal holds the reading of the reply and no save is under way |
| RoleManagementUi.ModalPermisos.IniciarConmutacion | frontend/src/pages/admin/RoleManagement.jsx:129-147 | a click during a save is ignored; otherwise the save starts and the flipped list is returned |
| RoleManagementUi.ModalPermisos.TerminarConmutacion | frontend/src/pages/admin/RoleManagement.jsx:149-160 | the ids become the reading of the reload on success and stay on failure; the save ends |
| RoleManagementUi.Habilitados | frontend/src/pages/admin/RoleManagement.jsx:215-239 | edit and delete are enabled exactly for a role not named `administrador`; the state toggle also for an inactive one |
| RoleManagementUi.BotonesComoServidor | frontend/src/pages/admin/RoleManagement.jsx:219-239 | each button is disabled exactly when the server refuses its action with 403 |
| SeedScenario.SeedAssignmentKeys | backend/database/seeders/DatabaseSeeder.php:216-226 | every seeded assignment names a seeded user, role and module |
| SeedScenario.SeedGrantKeys | backend/database/seeders/DatabaseSeeder.php:159-211 | every seeded grant names a seeded role and permission |
| SeedScenario.SeedPermisoModules | backend/database/seeders/DatabaseSeeder.php:109-155 | every seeded permission belongs to a seeded module |
| SeedScenario.SeedKeys | backend/database/seeders/DatabaseSeeder.php:40-104 | seeded ids lie below their counters; ruts and role names are distinct |
| SeedScenario.SeedIntegrity | backend/database/seeders/DatabaseSeeder.php:40-226 | the seeded tables are consistent |
| SeedScenario.VerReportesRepetido | backend/database/seeders/DatabaseSeeder.php:40-226 | the two `ver_reportes` permissions share a name across modules |
| SeedScenario.RolesDeMaria | backend/database/seeders/DatabaseSeeder.php:223-226 | María is Operario in Producción and Visualizador in Petróleo |
| SeedScenario.PermisosSembrados | backend/database/seeders/DatabaseSeeder.php:187-211 | the permission ids granted to Operario and to Visualizador |
| SeedScenario.MariaEnProduccion | backend/app/Models/User.php:123-141 | María's Producción permissions are exactly 6, 7 and 10; Operario's Petróleo `ver_reportes` stays out |
| SeedScenario.MariaEnPetroleo | backend/app/Models/User.php:123-141 | María's Petróleo permissions are exactly 1 and 5 |
| SeedScenario.ModulosDeMaria | backend/app/Models/User.php:80-85 | María's modules are exactly Petróleo and Producción |
| SeedScenario.JuanNoEsAdministrador | backend/app/Models/User.php:202-207 | Juan holds every permission of every module, yet, since the seeded role is "Administrador", is not an administrator |

## Left out

- Hashing and token secrets. Password hashing is an opaque `Hasher` parameter. A token's secret is its fresh integer id.
- The clock is the parameter `now`, in seconds. The configured lifetime is the parameter `ttl`, in minutes.
- Concurrency and transactions. Every operation is sequential. The replace-all writes are not atomic: a failed insert leaves the preceding delete in place, and the model states that.
- Bearer-header parsing and Sanctum's own token checks. The `auth:sanctum` guard is modelled as the lookup of the bearer token. Sanctum's guard also refuses a token older than the configured `sanctum.expiration` (counted from `created_at`) and one whose `expires_at` has passed; neither check is modelled.
- `AuthController.Refresh`: the new token has no `expires_at`, but under a configured lifetime Sanctum's guard still refuses it that many minutes after its creation. The model does not say it expires. A lifetime of 0 expires at once; with whole seconds, it expires one second later.
- `TokenMiddleware.Handle`: in the source an expired token is already refused by `auth:sanctum` with 401 `unauthenticated` and is not deleted, so the `token_expired` deletion at `backend/app/Http/Middleware/EnsureTokenIsValid.php:38-51` is pre-empted. The model lets such a token reach this middleware.
- `Routes.AdminGate`: its `SessionExpired` outcome for an expired token is, in the source, a 401 `unauthenticated` from the guard that leaves the token in the ledger.
- `Routes.ExpiredTokenIsGone`: the deletion it starts from happens in the model only; with Sanctum's guard an expired token stays stored and is refused as unauthenticated each time.
- `Routes.ExpiredTokenCannotRefresh`: in the source the refusal comes from the guard as 401 `unauthenticated`, and the token is not deleted.
- The `admin` alias is not registered in `backend/bootstrap/app.php:29-31`. The gate assumes it resolves to `CheckAdmin`.
- The framework's conversions of exceptions before the handler runs are not modelled. Exception dispatch is modelled as a check of each callback's first parameter type.
- Whitespace beyond PHP's `trim` set. The model strips space, tab, line feed, carriage return, NUL and vertical tab for both the middleware and `required`. Recent framework versions also strip other Unicode whitespace in the middleware.
- Validation length limits and database collation. Names are compared exactly, so the seeded "Administrador" is not the protected `administrador`. Under a case-insensitive collation the query at `backend/app/Models/User.php:205` would match it.
- Per-element error keys. The `rol_ids.N` and `permiso_ids.N` keys are modelled as `rol_ids` and `permiso_ids`.
- JSON id lists are modelled as sets wherever their order cannot change the outcome: validation and the one-statement inserts of the controllers. The model's `asignarPermisos`, `sincronizarPermisos`, `asignarARoles` and `sincronizarRoles` attach one id at a time, so there the order decides what a failure leaves behind. Non-numeric ids are not modelled.
- UserManagementController `index`, `show`, `store` and `update` (paging, search and profile CRUD), and UserController `getProfile`/`updateProfile`. None of them touches roles or tokens.
- The read-only `index`, `show` and `getUsuarios`/`getRoles`/`getStats`/`getByModulo` listing endpoints of the role, permission and module controllers. AuthController `user`.
- The site catalog (`Faena`), the admin dashboard aggregates, and every presentational part of the React pages: toasts, `loadUsers`/`loadRoles` and rendering.
- Descriptions, URLs and icons of roles, permissions and modules.
- `RoleManagement.Store`: the `string` rule on `nombre` and `descripcion` and the `boolean` rule on `estado` are not modelled; the request carries only an optional name, so a free name with, say, `estado: "x"` is modelled as 201 where the source answers 422.
- `RoleManagement.Update`: the same `string` and `boolean` rules are not modelled; a bad `descripcion` or `estado` is 422 in the source and a rename in the model.
- `ModuleController.Store`: the `string` rules on `nombre`, `descripcion`, `url` and `icono` and the `boolean` rule on `estado` are not modelled; `estado` arrives already as a boolean, so a non-boolean value that the source answers with 422 cannot be expressed.
- `ModuleController.Update`: the same `string` and `boolean` rules are not modelled, as for `store`.
- `RoleManagement.Store`: `estado` is not fillable on `Rol`, so a created role is always active (the database default). `RoleManagement.Update` never changes `estado`.
- The `permisos` migration declares `nombre` unique and has no `modulo_id`. The model follows `Permiso.php`, the seeder and `PermissionController`: a permission has a module, and names are unique per module. The seeder's two `ver_reportes` would break that migration's index.
- The `modulos` table has no unique index on `nombre`. Uniqueness of module names comes from validation only.
- A user's unique `rut` is part of `Schema.Integrity`; its migration is not part of this model.
- `PermissionController.Index`: `if ($moduloId)` treats 0 as "no filter", as written.
- UI replies are modelled as sequences of groups, role and permission objects by id only.
- The seeded scenario omits the sites and the password hashes.

## Findings

| source | as written | input that shows it | evidently intended | confidence | as-written member | corrected member |
|---|---|---|---|---|---|---|
| backend/app/Models/Rol.php:96-100 | `tieneTodosPermisos` counts the role's permissions whose name is in the list and compares that count with the list's length | a role holding both `ver_reportes` (modules 1 and 3) but not `exportar_reportes`, asked for `[ver_reportes, exportar_reportes]`, passes; a held name listed twice fails | every listed name is held by the role | not executed | RolModel.TieneTodosPermisosConteo | RolModel.TieneTodosPermisos |
| frontend/src/pages/admin/RoleManagement.jsx:121,150 | the modal reads `response.data.permisos \|\| []`, but `getPermisos` answers with an object keyed by module name (backend/app/Http/Controllers/Api/RoleManagementController.php:234-240) | role 3 holds permission 1 of module "Producción"; clicking permission 2 sends `[2]` and permission 1 is revoked | read every module's id list, so that a click flips exactly one permission (a click on the role's only permission sends `[]`, which the server refuses with 422) | not executed | RoleManagementUi.LeerComoEscrito | RoleManagementUi.Leer |
| backend/app/Http/Controllers/Api/UserController.php:136 | `total_modulos` is `$user->modulos()->count()`; the `distinct()` of `modulos()` (backend/app/Models/User.php:80-85) names no column, so the count is `count(*)` over the user's assignment rows in active modules | a user holding two roles in one active module gets `total_modulos` 2 | the number of distinct active modules, as the comment "módulos únicos" says | not executed | UserController.GetStatsComoEscrito | UserController.GetStats |
| backend/app/Models/Permiso.php:146-148 | inside `whereHas` the closure gets the role query builder, so `wherePivot('modulo_id', $moduloId)` becomes a dynamic `where` on a column `pivot` that does not exist | any `usuarios($moduloId)` call with a non-zero module id fails with a database error | keep the users with a role assignment in that module | not executed | PermisoModel.UsuariosComoEscrito | PermisoModel.Usuarios |
| backend/bootstrap/app.php:51 | the API callback's first parameter is typed `Request`, so the handler never offers it an exception | a failed login (validation error on `rut`) on `api/auth/login` gets no JSON reply from the handler | the callback takes the exception first and renders 422/404/403/HTTP/500 for API requests | not executed | Exceptions.RenderAsWritten | Exceptions.Render |
