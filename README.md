# Employee and personnel-file coordination, modelled in Dafny

This project models the transactional coordination layer of a small
Java/JDBC personnel system. An employee (`Empleado`) owns exactly one
personnel file (`Legajo`). Both live in soft-delete tables: deleting a row
only sets its `eliminado` flag, and every read hides flagged rows.

The layer has four parts:

- `TransactionManager`: one transaction over one JDBC connection.
- The two DAOs.
- `LegajoServiceImpl`: the file's business rules.
- `EmpleadoServiceImpl`: the coordinator. It validates the employee, checks
  the DNI, and runs the employee write and the file write in one
  transaction.

How the model is laid out:

- The database is a `Database` object. It holds the committed `Tables` and
  the two AUTO_INCREMENT counters.
- A `Connection` works in auto-commit mode, or on a pending working copy
  that only `commit` makes visible.
- The counters are not part of the transaction: an id consumed by a
  rolled-back insert is not given back.
- Every failure the driver can report is an input to the method: a
  `fails` flag, or a field of `Jdbc.Faults`.
- Each self-contained DAO form opens its own auto-commit connection and
  closes it.
- The uniqueness lookups and the reads see only committed state.

Modules:

- `Wrappers`, `Errors`: `Option`, `Outcome`, `Result`, and the error kinds
  (`IllegalArgument`, `IllegalState`, `Unsupported`, `Sql`, `Wrapped`).
- `Text`: `String.trim`, the "null or blank" test, and substring
  containment.
- `Entities`: the classes `Legajo` and `Empleado`, with `Base`'s `id` and
  `eliminado` fields in each.
- `Tables`: the tables as values, the SQL statements as functions on them,
  and the employee read as a LEFT JOIN.
- `Invariants`: the store invariant, and the proofs that each composite
  write preserves it.
- `Jdbc`: the database and its connections.
- `Config`: `TransactionManager`.
- `LegajoDao`, `EmpleadoDao`, `LegajoService`, `EmpleadoService`: the DAOs
  and the services.

The store invariant `Invariants.Inv` states:

- ids are positive and below their counter;
- every visible employee has exactly one visible file;
- every visible file belongs to a visible employee;
- DNIs are unique among visible employees;
- file numbers are unique among visible files.

The main results:

- `EmpleadoService.Insertar`, `Actualizar` and `Eliminar` are atomic. A
  failure leaves the committed tables unchanged. A success applies both
  writes, `CreatePair`, `UpdatePair` or `DeletePair`.
- Once their checks pass, the three writes keep the invariant
  (`Invariants.CreatePreservesInv`, `UpdatePreservesInv`,
  `DeletePreservesInv`).

Where the code and the design description of the system disagree:

- The design says that soft-deleting an employee forces its file's status
  to INACTIVE. The code does not. `LegajoDAO.eliminarTx` runs
  `UPDATE legajo SET eliminado = TRUE`, and the service never calls
  `Legajo.eliminarRegistro`. The model follows the code: `DeletePair`
  leaves the file's `estado` as it was.
- The design calls file numbers and DNIs unique. The code checks the
  trimmed key but stores the key untrimmed. The preservation lemmas
  therefore assume the stored keys are already trimmed
  (`EmpleadoService.KeysTrimmed`). `EmpleadoService.UntrimmedNumeroSlipsThrough`
  shows a store, valid by the invariant, where an untrimmed duplicate
  file number passes the checks and breaks uniqueness.
- The design treats deleted rows as gone. The UPDATE statements and the
  soft deletes match by id alone, without `eliminado = FALSE`, so updating
  or deleting an already deleted row succeeds. The model follows the code:
  `Tables.HasId` counts deleted rows.

## Model

| member | source | states |
|---|---|---|
| Text.Trim | src/main/java/dao/EmpleadoDAO.java:161-167 | the result is a contiguous piece of the input, and every character before and after it is at most U+0020; it is empty exactly when every character is such; otherwise it neither starts nor ends with one |
| Text.TrimOfTrimmed | src/main/java/dao/EmpleadoDAO.java:271-273 | a string with nothing to strip at either end is its own trim |
| Text.TrimIdempotent | src/main/java/dao/EmpleadoDAO.java:271-273 | trimming twice is the same as trimming once |
| Text.IsNullOrBlank | src/main/java/dao/EmpleadoDAO.java:271-273 | `isNullOrBlank` holds exactly when the value is null or made only of characters that trim strips |
| Entities.Legajo.constructor | src/main/java/entities/Legajo.java:36-43 | stores the number, category, status, date and notes; id 0 and not deleted (Base.java:16-17) |
| Entities.Legajo.Empty | src/main/java/entities/Legajo.java:45-47 | id 0, not deleted, every data field null |
| Entities.Legajo.SetId | src/main/java/entities/Base.java:29-31 | the id becomes `v`; the flag and the data fields are unchanged |
| Entities.Legajo.SetEliminado | src/main/java/entities/Base.java:37-39 | the flag becomes `b`; the id and the data fields are unchanged |
| Entities.Legajo.SetEstado | src/main/java/entities/Legajo.java:74-76 | only the status changes |
| Entities.Legajo.EliminarRegistro | src/main/java/entities/Legajo.java:96-101 | the flag is set and the status becomes INACTIVO whatever it was; id, number, category, date and notes are unchanged; applying it again changes nothing |
| Entities.Empleado.constructor | src/main/java/entities/Empleado.java:38-47 | stores the six fields and the given file reference; id 0, not deleted |
| Entities.Empleado.Empty | src/main/java/entities/Empleado.java:49-51 | id 0, not deleted, a null file and null fields |
| Entities.Empleado.SetId | src/main/java/entities/Base.java:29-31 | the id becomes `v`; nothing else changes |
| Entities.Empleado.SetEliminado | src/main/java/entities/Base.java:37-39 | the flag becomes `b`; nothing else changes |
| Entities.Empleado.SetLegajo | src/main/java/entities/Empleado.java:104-110 | the file reference becomes `l`; nothing else changes |
| Entities.Empleado.EliminarRegistro | src/main/java/entities/Empleado.java:112-115 | sets only the employee's flag; the attached file's flag and fields are untouched; idempotent |
| Tables.HasId | src/main/java/dao/EmpleadoDAO.java:242-252 | the `rowsAffected == 0` test: an UPDATE by id affects a row, deleted or not; a visible row with the id is always one |
| Tables.Selects | src/main/java/dao/EmpleadoDAO.java:53-75 | the WHERE clauses of the four employee reads: all, by id, by exact DNI, by name or surname containing the filter |
| Tables.RowsFor | src/main/java/dao/EmpleadoDAO.java:47-75 | one stored employee contributes result rows exactly when it is visible and selected, and every such row carries that employee |
| Tables.QueryRows | src/main/java/dao/EmpleadoDAO.java:47-75 | the employee SELECT with its LEFT JOIN, row by row; soundness, completeness and appends are proved in `QueryRowsSound`, `QueryRowsComplete`, `QueryRowsAppend` |
| Tables.Query | src/main/java/dao/EmpleadoDAO.java:47-75 | the employee SELECT over the stored tables; `DniQueryEmpty` and `Invariants.ConsistentReadHasFile` state what it returns |
| Tables.CreatePair | src/main/java/service/EmpleadoServiceImpl.java:62-68 | insertar's two inserts, the file keyed by the employee's id; its effect is proved in `Invariants.CreatePreservesInv` and `Invariants.CreateThenRead` |
| Tables.UpdatePair | src/main/java/service/EmpleadoServiceImpl.java:95-96 | actualizar's two updates by id; its effect is proved in `Invariants.UpdatePreservesInv` and `UpdateEmpleadosAt`/`UpdateLegajosAt` |
| Tables.DeletePair | src/main/java/service/EmpleadoServiceImpl.java:127-128 | eliminar's two soft deletes by id; its effect is proved in `Invariants.DeletePreservesInv` and `Invariants.DeleteHides` |
| Tables.Active | src/main/java/dao/LegajoDAO.java:61-62 | `WHERE eliminado = FALSE`: every row kept is a stored row that is not deleted, and every stored row that is not deleted is kept |
| Tables.FindActive | src/main/java/dao/LegajoDAO.java:54-55 | finds a visible row with the id exactly when one exists; a found row has the id and is not deleted |
| Tables.SoftDelete | src/main/java/dao/LegajoDAO.java:47-48 | the soft delete keeps the number of rows |
| Tables.SoftDeleteAt | src/main/java/dao/GenericDAO.java:62-79 | a logical delete: each row is kept, rows with the id only gain the flag, and all other rows are unchanged |
| Tables.SoftDeleteHides | src/main/java/dao/GenericDAO.java:81-90 | after a soft delete, `leer` of that id finds nothing |
| Tables.ActiveIsTheVisibleRows | src/main/java/dao/GenericDAO.java:81-98 | `leer` finds an id exactly when `leerTodos` lists a row with that id |
| Tables.UpdateEmpleados | src/main/java/dao/EmpleadoDAO.java:38-40 | the update keeps the number of rows |
| Tables.UpdateEmpleadosAt | src/main/java/dao/EmpleadoDAO.java:242-252 | the rows with the id get the six new data columns; every other row is unchanged |
| Tables.UpdateLegajos | src/main/java/dao/LegajoDAO.java:40-42 | the update keeps the number of rows |
| Tables.UpdateLegajosAt | src/main/java/dao/LegajoDAO.java:342-364 | the rows with the id get the five new data columns and keep their `empleado_id` and flag; every other row is unchanged |
| Tables.LegajoByNumero | src/main/java/dao/LegajoDAO.java:69-70 | finds nothing exactly when no visible file has the number; a found file is visible and has it |
| Tables.FilesOf | src/main/java/dao/EmpleadoDAO.java:47-51 | the join condition: exactly the visible files whose `empleado_id` is the employee's id |
| Tables.Join | src/main/java/dao/EmpleadoDAO.java:47-51 | LEFT JOIN: at least one result row per employee; a joined file is one of its visible files; the first row has no file exactly when it has none |
| Tables.QueryRowsSound | src/main/java/dao/EmpleadoDAO.java:53-75 | every result row is a stored, visible employee that the WHERE clause selects, joined with nothing or with one of its own visible files |
| Tables.QueryRowsComplete | src/main/java/dao/EmpleadoDAO.java:53-75 | every stored, visible employee that the WHERE clause selects appears in the result |
| Tables.QueryRowsAppend | src/main/java/dao/EmpleadoDAO.java:47-59 | appending an employee row appends exactly its own result rows |
| Tables.QueryRowsEmpty | src/main/java/dao/EmpleadoDAO.java:47-59 | a query that selects no visible row returns nothing |
| Tables.DniQueryEmpty | src/main/java/dao/EmpleadoDAO.java:67-69 | the DNI query is empty exactly when no visible employee has that DNI |
| Invariants.EmptyStoreSatisfiesInv | src/main/java/service/EmpleadoServiceImpl.java:13-21 | the empty store with both counters at 1 satisfies the invariant |
| Invariants.FilesOfAppend | src/main/java/dao/LegajoDAO.java:168-183 | inserting a file adds it to its owner's join and to no other employee's |
| Invariants.FilesOfUpdate | src/main/java/dao/LegajoDAO.java:342-364 | a file update does not change how many files any employee joins with |
| Invariants.FilesOfSoftDeleteOther | src/main/java/dao/LegajoDAO.java:403-413 | deleting a file that another employee owns leaves this employee's join unchanged |
| Invariants.QueryRowsSingle | src/main/java/dao/EmpleadoDAO.java:53-55 | when only one visible employee is selected, the result is that employee's join rows |
| Invariants.ConsistentReadHasFile | src/main/java/dao/EmpleadoDAO.java:126-139 | under the invariant, `leer` of a visible employee returns one row, holding the employee and its only file |
| Invariants.FilesOfNone | src/main/java/dao/EmpleadoDAO.java:47-51 | an employee that no visible file names joins with no file |
| Invariants.NoFilesForFreshId | src/main/java/dao/EmpleadoDAO.java:93-99 | no visible file points at the id the next insert will generate |
| Invariants.InvForLargerCounters | src/main/java/service/EmpleadoServiceImpl.java:71-74 | the invariant survives any growth of the two counters, which is what a rolled-back insert leaves behind: the consumed ids are not reused |
| Invariants.CreateKeepsOneFileEach | src/main/java/service/EmpleadoServiceImpl.java:62-68 | after both inserts every visible employee, the new one included, has exactly one file |
| Invariants.CreateKeepsFilesOwned | src/main/java/service/EmpleadoServiceImpl.java:62-68 | after both inserts every visible file has a visible owner |
| Invariants.CreateKeepsDniUnique | src/main/java/service/EmpleadoServiceImpl.java:52 | an insert whose DNI lookup found nothing keeps DNIs unique |
| Invariants.CreateKeepsNumeroUnique | src/main/java/service/LegajoServiceImpl.java:207-212 | an insert whose number lookup found nothing keeps numbers unique |
| Invariants.CreatePreservesInv | src/main/java/service/EmpleadoServiceImpl.java:50-75 | insertar keeps the invariant when both lookups found nothing and the file's key is the new employee's id; both counters advance |
| Invariants.CreateThenRead | src/main/java/service/EmpleadoServiceImpl.java:62-68 | after insertar, `leer` of the new id returns the new employee joined with the new file |
| Invariants.UpdateKeepsAssociation | src/main/java/service/EmpleadoServiceImpl.java:95-96 | the two updates keep the one-to-one association: no owner, flag or id changes |
| Invariants.UpdateKeepsDniUnique | src/main/java/service/EmpleadoServiceImpl.java:89 | an update whose DNI is held by nobody or by the employee itself keeps DNIs unique |
| Invariants.NoOtherHolder | src/main/java/service/EmpleadoServiceImpl.java:172-182 | when DNIs are unique and the lookup finds nobody or this employee, no other visible employee has the DNI |
| Invariants.UpdateKeepsNumeroUnique | src/main/java/service/LegajoServiceImpl.java:218-223 | an update whose number is held by nobody or by the file itself keeps numbers unique |
| Invariants.UpdatePreservesInv | src/main/java/service/EmpleadoServiceImpl.java:77-103 | actualizar keeps the invariant once both uniqueness checks have passed |
| Invariants.DeleteKeepsOneFileEach | src/main/java/service/EmpleadoServiceImpl.java:127-128 | deleting an employee together with its file leaves every other visible employee with exactly one file |
| Invariants.DeleteKeepsFilesOwned | src/main/java/service/EmpleadoServiceImpl.java:127-128 | after both deletes every file still visible has a visible owner |
| Invariants.DeleteKeepsAssociation | src/main/java/service/EmpleadoServiceImpl.java:113-128 | deleting the file that `leer` attached, and then the employee, keeps the association |
| Invariants.DeleteKeepsRest | src/main/java/service/EmpleadoServiceImpl.java:127-128 | soft deletes keep ids fresh and both keys unique |
| Invariants.DeletePreservesInv | src/main/java/service/EmpleadoServiceImpl.java:105-135 | eliminar, given the file `leer` attached, keeps the invariant |
| Invariants.DeleteHides | src/main/java/service/EmpleadoServiceImpl.java:127-128 | afterwards neither row is found by the reads, yet both tables keep every row, and the two rows gain only the flag |
| Jdbc.Connection.constructor | src/main/java/service/EmpleadoServiceImpl.java:58 | a new connection is open, in auto-commit mode, with no pending work |
| Jdbc.Connection.SetAutoCommit | src/main/java/config/TransactionManager.java:44 | refused when closed; leaving auto-commit mode starts the working copy from the committed tables; re-entering it drops the copy |
| Jdbc.Connection.Commit | src/main/java/config/TransactionManager.java:57 | refused when closed or in auto-commit mode; on success the working copy becomes the committed tables |
| Jdbc.Connection.Rollback | src/main/java/config/TransactionManager.java:72 | refused when closed or in auto-commit mode; on success the working copy is reset to the committed tables |
| Jdbc.Connection.Close | src/main/java/config/TransactionManager.java:95 | closes the connection and loses uncommitted work; closing twice does nothing |
| Jdbc.Connection.Execute | src/main/java/dao/GenericDAO.java:21-40 | a statement writes the committed tables in auto-commit mode and the working copy otherwise |
| Jdbc.Open | src/main/java/service/EmpleadoServiceImpl.java:58 | getConnection: a fresh open connection in auto-commit mode, or the driver's failure |
| Config.TransactionManager.constructor | src/main/java/config/TransactionManager.java:20-26 | a new manager over the connection is not active |
| Config.TransactionManager.Create | src/main/java/config/TransactionManager.java:20-26 | a null connection fails with IllegalArgument; otherwise a fresh, inactive manager |
| Config.TransactionManager.StartTransaction | src/main/java/config/TransactionManager.java:40-46 | fails on a closed connection; otherwise auto-commit is off and the manager is active |
| Config.TransactionManager.Commit | src/main/java/config/TransactionManager.java:53-59 | fails unless active; success publishes the working copy and makes the manager inactive, so a second commit fails |
| Config.TransactionManager.Rollback | src/main/java/config/TransactionManager.java:66-77 | does nothing when inactive; never fails; the flag is cleared only when the driver's rollback succeeds |
| Config.TransactionManager.Close | src/main/java/config/TransactionManager.java:88-99 | never changes the committed tables; without a restore failure, uncommitted work is gone and auto-commit is back on; with no failure the connection ends closed; never fails |
| LegajoDao.WithLegajo | src/main/java/dao/LegajoDAO.java:32-34 | the insert appends one visible file row with the given data and foreign key, and leaves the employee table alone |
| LegajoDao.NumeroHolder | src/main/java/dao/LegajoDAO.java:247-263 | blank numbers find nothing; a found file is visible and has the trimmed number; finding nothing means no visible file has it |
| LegajoDao.Crear | src/main/java/dao/LegajoDAO.java:470-473 | always fails with Unsupported, with no storage effect |
| LegajoDao.CrearTxSinEmpleado | src/main/java/dao/LegajoDAO.java:153-156 | the two-argument crearTx always fails with Unsupported |
| LegajoDao.CrearTx | src/main/java/dao/LegajoDAO.java:168-183 | inserts a visible row under the next id whose foreign key is the `empleadoId` argument; the id is written back only when the key is returned; a rejection changes nothing |
| LegajoDao.ActualizarTx | src/main/java/dao/LegajoDAO.java:193-196 | rewrites the data of the row with the id, never its owner; fails with RowNotFound when no row, deleted or not, has the id |
| LegajoDao.Actualizar | src/main/java/dao/LegajoDAO.java:186-191 | the same update on a connection of its own, committed at once |
| LegajoDao.EliminarTx | src/main/java/dao/LegajoDAO.java:206-209 | sets the flag of the row with the id and changes nothing else; fails with RowNotFound when no row has the id |
| LegajoDao.Eliminar | src/main/java/dao/LegajoDAO.java:199-204 | the same soft delete on a connection of its own |
| LegajoDao.MapRow | src/main/java/dao/LegajoDAO.java:439-463 | a fresh object carrying the row's id and data, not deleted |
| LegajoDao.Leer | src/main/java/dao/LegajoDAO.java:212-225 | null exactly when no visible row has the id; otherwise the visible row's contents |
| LegajoDao.LeerTodos | src/main/java/dao/LegajoDAO.java:227-237 | one fresh object per visible row, in table order |
| LegajoDao.BuscarPorNroLegajo | src/main/java/dao/LegajoDAO.java:247-263 | null for a null or blank number with no lookup; otherwise the visible file with the trimmed number, if any |
| EmpleadoDao.DniHolder | src/main/java/dao/EmpleadoDAO.java:161-180 | blank DNIs find nothing; a found employee is visible and has the trimmed DNI; finding nothing means no visible employee has it |
| EmpleadoDao.WithEmpleado | src/main/java/dao/EmpleadoDAO.java:34-36 | the insert appends one visible employee row and leaves the file table alone |
| EmpleadoDao.CrearTx | src/main/java/dao/EmpleadoDAO.java:92-99 | inserts a visible row under the next id; the id is written back only when the key is returned (231-237), otherwise it stays as it was; a rejection changes nothing |
| EmpleadoDao.Crear | src/main/java/dao/EmpleadoDAO.java:81-90 | the same insert on a connection of its own |
| EmpleadoDao.ActualizarTx | src/main/java/dao/EmpleadoDAO.java:108-111 | rewrites the six data columns of the row with the id; fails with RowNotFound when no row has it (242-252) |
| EmpleadoDao.Actualizar | src/main/java/dao/EmpleadoDAO.java:101-106 | the same update on a connection of its own |
| EmpleadoDao.EliminarTx | src/main/java/dao/EmpleadoDAO.java:120-123 | sets the flag of the row with the id; fails with RowNotFound when no row has it (257-266) |
| EmpleadoDao.Eliminar | src/main/java/dao/EmpleadoDAO.java:113-118 | the same soft delete on a connection of its own |
| EmpleadoDao.MapRow | src/main/java/dao/EmpleadoDAO.java:278-316 | a fresh employee with the row's id and data, and a file exactly when the joined file id is positive |
| EmpleadoDao.MapRows | src/main/java/dao/EmpleadoDAO.java:147-149 | one fresh employee per result row, in order |
| EmpleadoDao.First | src/main/java/dao/EmpleadoDAO.java:132-138 | null exactly when there is no result row; otherwise the first row, mapped |
| EmpleadoDao.Leer | src/main/java/dao/EmpleadoDAO.java:125-139 | null exactly when no visible employee has the id; otherwise that employee with its joined file |
| EmpleadoDao.LeerTodos | src/main/java/dao/EmpleadoDAO.java:141-153 | one employee per result row of the join over the visible employees |
| EmpleadoDao.BuscarPorDni | src/main/java/dao/EmpleadoDAO.java:161-180 | null for a null or blank DNI with no lookup; otherwise the visible employee with the trimmed DNI, if any |
| EmpleadoDao.BuscarPorNombreApellido | src/main/java/dao/EmpleadoDAO.java:188-209 | an empty list for a blank filter with no lookup; otherwise the visible employees whose name or surname contains the trimmed filter |
| LegajoService.ValidateLegajoData | src/main/java/service/LegajoServiceImpl.java:159-184 | accepts exactly the valid files; otherwise reports the first broken rule in the order null file, blank number, null status, number over 20, category over 30, notes over 255 |
| LegajoService.ValidateLegajoId | src/main/java/service/LegajoServiceImpl.java:189-193 | accepts exactly the positive ids |
| LegajoService.ValidateLegajoForUpdate | src/main/java/service/LegajoServiceImpl.java:198-202 | accepts exactly a file that is present and has a positive id |
| LegajoService.ValidateNumeroLegajoUniqueForInsert | src/main/java/service/LegajoServiceImpl.java:207-212 | passes exactly when no visible committed file holds the trimmed number |
| LegajoService.ValidateNumeroLegajoUniqueForUpdate | src/main/java/service/LegajoServiceImpl.java:218-223 | passes exactly when the number is free or held by the file's own id |
| LegajoService.Insertar | src/main/java/service/LegajoServiceImpl.java:67-73 | always fails with Unsupported |
| LegajoService.Eliminar | src/main/java/service/LegajoServiceImpl.java:122-128 | always fails with Unsupported |
| LegajoService.InsertarTx | src/main/java/service/LegajoServiceImpl.java:80-84 | validates, rejects a number held by a visible file, then inserts; succeeds exactly when every check and the statement pass; a failed number lookup reports Unavailable and a refused statement Rejected; any rejection changes nothing |
| LegajoService.ActualizarTx | src/main/java/service/LegajoServiceImpl.java:90-95 | requires a present file with a positive id and valid data, and a number held by nobody else; then the update on the caller's connection |
| LegajoService.Actualizar | src/main/java/service/LegajoServiceImpl.java:108-114 | the same checks, then the update committed on a connection of its own |
| LegajoService.EliminarTx | src/main/java/service/LegajoServiceImpl.java:101-104 | rejects `id <= 0`; otherwise the soft delete on the caller's connection |
| LegajoService.GetById | src/main/java/service/LegajoServiceImpl.java:135-142 | rejects `id <= 0`; fails with LegajoNotFound when no visible file has the id; otherwise that file |
| LegajoService.GetAll | src/main/java/service/LegajoServiceImpl.java:148-151 | every visible file |
| EmpleadoService.ValidateEmpleado | src/main/java/service/EmpleadoServiceImpl.java:157-170 | accepts exactly the valid employees; otherwise reports the first broken rule in the order null employee, blank name, blank surname, blank DNI |
| EmpleadoService.ValidateDniUnique | src/main/java/service/EmpleadoServiceImpl.java:172-182 | passes exactly when no visible employee holds the DNI, or, on update, the holder has the same id |
| EmpleadoService.InsertChecksKeepInv | src/main/java/service/EmpleadoServiceImpl.java:50-70 | a valid employee whose DNI nobody holds and a valid file whose number nobody holds keep the store invariant when both rows are added, for trimmed keys |
| EmpleadoService.UpdateChecksKeepInv | src/main/java/service/EmpleadoServiceImpl.java:88-98 | a DNI held by nobody else and a file number held by no other file keep the store invariant across both rewrites, for trimmed keys |
| EmpleadoService.UntrimmedNumeroSlipsThrough | src/main/java/dao/LegajoDAO.java:247-288 | a store satisfying the invariant holds the file number " L1"; a second file " L1" passes insertar's checks, because the lookup compares the trimmed "L1", and after the insert the number is held twice |
| EmpleadoService.InsertarPasos | src/main/java/service/EmpleadoServiceImpl.java:62-70 | the employee insert, the zero-id abort, the file insert keyed by the new id and the commit; succeeds exactly when each passes; a refusal reports the error of the first step that refused (`InsertarRechazo`); only the commit changes the committed tables, and both counters advance on success; the employee's id is the returned key when the driver gives one, and neither flag changes |
| EmpleadoService.InsertarEnTransaccion | src/main/java/service/EmpleadoServiceImpl.java:58-74 | succeeds exactly when every step passes; then the committed tables gain the employee row and a file row keyed by the new id; any failure leaves them unchanged and comes back wrapped as a Create failure around its cause: Unavailable when no connection or transaction could be had, otherwise the error of the first step that refused; a key written into the employee or the file stays there after the rollback |
| EmpleadoService.Insertar | src/main/java/service/EmpleadoServiceImpl.java:50-75 | validation, the DNI check and the missing-file check come first; succeeds exactly when the employee is valid, its DNI is free, a file is attached, and every step of the transaction passes (connection, statements, a non-zero id, valid file data, a free number, the commit); a failure changes no committed table; a success adds both rows holding the caller's data, advances both counters, writes the generated key into the employee when the driver returns one, and keeps the invariant for trimmed keys; the data fields, the file reference and both flags are never changed; each id is either its old value or the generated key, also after a failure |
| EmpleadoService.InsertarValidado | src/main/java/service/EmpleadoServiceImpl.java:58-74 | for an employee already validated, with a free DNI and a file attached: the transaction succeeds exactly when each of its steps passes; it fails wrapped as Create with the committed tables unchanged; on success both rows are added and both counters advance; the invariant is kept for trimmed keys |
| EmpleadoService.ActualizarPasos | src/main/java/service/EmpleadoServiceImpl.java:95-98 | the file update, then the employee update, then the commit; succeeds exactly when each passes; then both rows are rewritten, otherwise the committed tables are unchanged; a refusal reports the error of the first step that refused, as `ActualizarRechazo` names it |
| EmpleadoService.ActualizarEnTransaccion | src/main/java/service/EmpleadoServiceImpl.java:91-102 | succeeds exactly when both updates and the commit pass; then both rows are rewritten; otherwise nothing is, and the failure is wrapped as an Update failure around its cause: Unavailable without a connection or transaction, invalid file data, a number held by another file, a refused employee statement, or an employee id no row has (`ActualizarRechazo`) |
| EmpleadoService.Actualizar | src/main/java/service/EmpleadoServiceImpl.java:77-103 | requires `id > 0` and an attached file with `id > 0`; accepts the employee's own DNI; atomic; keeps the invariant for trimmed keys |
| EmpleadoService.EliminarPasos | src/main/java/service/EmpleadoServiceImpl.java:127-130 | the file soft delete, then the employee soft delete, then the commit; succeeds exactly when each passes; then both rows are marked deleted, otherwise the committed tables are unchanged; when the employee step fails after the file step, its Rejected or RowNotFound is reported (`EliminarRechazo`) |
| EmpleadoService.EliminarEnTransaccion | src/main/java/service/EmpleadoServiceImpl.java:123-134 | the file's soft delete, then the employee's, then the commit; all or nothing; a failure is wrapped as a Delete failure, around Unavailable without a connection or transaction, and around Rejected or RowNotFound when the employee step fails after the file's (`EliminarRechazo`) |
| EmpleadoService.Eliminar | src/main/java/service/EmpleadoServiceImpl.java:105-135 | rejects `id <= 0`; not found and missing file fail before any transaction; on success both rows are hidden but still stored; keeps the invariant |
| EmpleadoService.GetById | src/main/java/service/EmpleadoServiceImpl.java:137-143 | rejects `id <= 0`; a missing employee is null, not an error |
| EmpleadoService.GetAll | src/main/java/service/EmpleadoServiceImpl.java:145-148 | every result row of the join over the visible employees |
| EmpleadoService.GetByDni | src/main/java/service/EmpleadoServiceImpl.java:150-155 | rejects a null or blank DNI; otherwise the visible employee with the trimmed DNI, if any |

## Left out

- Connection acquisition. `DatabaseConnection` (properties, driver loading, the URL) is not part of this model. `Jdbc.Open` stands for it, and its failure is an input.
- The console UI (`AppMenu`, `MenuHandler`, `MenuDisplay`), the old skeleton packages, and the unused `Estado` enum.
- The constructors of `LegajoServiceImpl` and `EmpleadoServiceImpl`, which only reject null collaborators. The model's services are modules, so they have no collaborators.
- SQL text, statement and result-set mechanics, and the enum and date marshalling. Dates are opaque values.
- Jdbc.Connection.SetAutoCommit: JDBC commits pending work when auto-commit is re-enabled. The model drops that work instead, so a failed rollback inside `close` followed by `setAutoCommit(true)` does not publish partial writes.
- Errors raised when a self-contained DAO form closes its own connection. Those closes are modelled as always succeeding.
- Storage-level UNIQUE constraints. A statement the server rejects is the `empleadoStatement` or `legajoStatement` flag of `Faults`.
- Collation, case sensitivity and the `%`/`_` wildcards of `LIKE`. Name search is plain substring containment.
- String lengths are counted in characters, not UTF-16 code units.
- The `long` range of ids and counters. They are unbounded integers.
- Row order. The SELECTs have no ORDER BY, so the server decides the order of the results. The model returns rows in table order (`Tables.Active`, `Tables.Join`, `EmpleadoDao.First`, `LegajoDao.LeerTodos`). When an employee has several visible files, the model's `leer` and `eliminar` take the first in table order; the server may pick another.
- Concurrency, including the race between the uniqueness lookup and the write. The model is single-threaded.
- Logging and the exact message texts. Errors are kinds (`Errors.Reason`, `Errors.SqlCause`).
- Config.TransactionManager.IsTransactionActive: a plain getter with no contract of its own.
- Invariants.CreatePreservesInv: assumes the stored DNI and file number are already trimmed. The checks compare the trimmed key with the stored value, so an untrimmed duplicate key can pass them. `EmpleadoService.UntrimmedNumeroSlipsThrough` exhibits such a case.
- Invariants.UpdatePreservesInv: the same assumption about trimmed keys.
- EmpleadoService.Insertar: keeps the invariant only under `KeysTrimmed`, and only for an employee whose id is still 0.
- EmpleadoService.Actualizar: keeps the invariant only under `KeysTrimmed`.
- EmpleadoService.InsertChecksKeepInv: requires `KeysTrimmed`, for the same reason as `Invariants.CreatePreservesInv`.
- EmpleadoService.UpdateChecksKeepInv: requires `KeysTrimmed`, for the same reason as `Invariants.UpdatePreservesInv`.
