/**
 * EmpleadoServiceImpl: the coordinator. It validates an employee, checks
 * the DNI against the committed tables, and runs the two writes of each
 * composite operation (employee and file) in one transaction, which its
 * TransactionManager rolls back on any failure and always closes.
 *
 * Each of `Insertar`, `Actualizar` and `Eliminar` is split as the source
 * is: the checks made before the transaction, then the `try` block (the
 * `...EnTransaccion` method), whose failures come back wrapped.
 */
module EmpleadoService {
  import opened Wrappers
  import opened Errors
  import opened Entities
  import opened Text
  import opened Tables
  import opened Invariants
  import opened Jdbc
  import opened Config
  import LegajoDao
  import EmpleadoDao
  import LegajoService

  /** An employee reference as the checks see it: null, or its data columns. */
  function Snapshot(e: Empleado?): Option<EmpleadoFields>
    reads e
  {
    if e == null then None else Some(e.Fields())
  }

  /** The data rules of an employee: name, surname and DNI present and not blank. */
  predicate ValidEmpleado(f: EmpleadoFields) {
    !IsNullOrBlank(f.nombre) && !IsNullOrBlank(f.apellido) && !IsNullOrBlank(f.dni)
  }

  /**
   * validateEmpleado: accepts exactly the valid employees and reports the
   * first rule broken, in the order null employee, name, surname, DNI.
   */
  function ValidateEmpleado(e: Option<EmpleadoFields>): (r: Outcome)
    ensures r.Ok? <==> e.Some? && ValidEmpleado(e.value)
    ensures r == Fail(IllegalArgument(NullEmpleado)) <==> e.None?
    ensures r == Fail(IllegalArgument(BlankNombre)) <==> e.Some? && IsNullOrBlank(e.value.nombre)
    ensures r == Fail(IllegalArgument(BlankApellido)) <==>
      e.Some? && !IsNullOrBlank(e.value.nombre) && IsNullOrBlank(e.value.apellido)
    ensures r == Fail(IllegalArgument(BlankDni)) <==>
      e.Some? && !IsNullOrBlank(e.value.nombre) && !IsNullOrBlank(e.value.apellido) && IsNullOrBlank(e.value.dni)
  {
    if e.None? then Fail(IllegalArgument(NullEmpleado))
    else if IsNullOrBlank(e.value.nombre) then Fail(IllegalArgument(BlankNombre))
    else if IsNullOrBlank(e.value.apellido) then Fail(IllegalArgument(BlankApellido))
    else if IsNullOrBlank(e.value.dni) then Fail(IllegalArgument(BlankDni))
    else Ok
  }

  /** The DNI is held by no visible employee, or (on update) by the employee `empleadoId` itself. */
  predicate DniFreeFor(t: Tables, dni: Option<string>, empleadoId: Option<int>) {
    var h := EmpleadoDao.DniHolder(t, dni);
    h.None? || (empleadoId.Some? && h.value.id == empleadoId.value)
  }

  /**
   * validateDniUnique: a lookup of the committed tables; the DNI's holder
   * is accepted only on an update and only when it is the employee itself.
   */
  method ValidateDniUnique(db: Database, dni: Option<string>, empleadoId: Option<int>, lookupFails: bool)
    returns (r: Outcome)
    ensures r.Ok? <==> IsNullOrBlank(dni) || (!lookupFails && DniFreeFor(db.tables, dni, empleadoId))
    ensures r.Fail? && lookupFails ==> r == Fail(Sql(Unavailable))
    ensures r.Fail? && !lookupFails ==> r == Fail(IllegalArgument(DuplicateDni))
  {
    var found := EmpleadoDao.BuscarPorDni(db, dni, lookupFails);
    if found.Failure? {
      return Fail(found.error);
    }
    if found.value != null && (empleadoId.None? || found.value.id != empleadoId.value) {
      return Fail(IllegalArgument(DuplicateDni));
    }
    r := Ok;
  }

  /** The natural keys are stored as the lookups compare them: without surrounding blanks. */
  predicate KeysTrimmed(ef: EmpleadoFields, lf: LegajoFields) {
    (ef.dni.Some? ==> Trim(ef.dni.value) == ef.dni.value)
    && (lf.numeroLegajo.Some? ==> Trim(lf.numeroLegajo.value) == lf.numeroLegajo.value)
  }

  /**
   * The checks insertar makes before its transaction are enough for the
   * store's invariant to survive the two new rows, once the natural keys
   * are stored trimmed.
   */
  lemma InsertChecksKeepInv(t: Tables, nextE: int, nextL: int, ef: EmpleadoFields, lf: LegajoFields)
    requires Inv(t, nextE, nextL) && KeysTrimmed(ef, lf)
    requires ValidEmpleado(ef) && DniFreeFor(t, ef.dni, None)
    requires LegajoService.ValidLegajoData(lf) && LegajoDao.NumeroHolder(t, lf.numeroLegajo).None?
    ensures Inv(CreatePair(t, nextE, ef, nextL, lf, nextE), nextE + 1, nextL + 1)
  {
    CreatePreservesInv(t, nextE, nextL, ef, lf);
  }

  /**
   * The checks actualizar makes (the DNI free but for the employee itself,
   * the file number free but for the file itself) are enough for the
   * store's invariant to survive the two rewrites, once the natural keys
   * are stored trimmed.
   */
  lemma UpdateChecksKeepInv(t: Tables, nextE: int, nextL: int, eid: int, ef: EmpleadoFields, lid: int, lf: LegajoFields)
    requires Inv(t, nextE, nextL) && KeysTrimmed(ef, lf)
    requires ValidEmpleado(ef) && DniFreeFor(t, ef.dni, Some(eid))
    requires LegajoService.ValidLegajoData(lf) && LegajoService.NumeroFreeFor(t, lf.numeroLegajo, lid)
    ensures Inv(UpdatePair(t, eid, ef, lid, lf), nextE, nextL)
  {
    UpdatePreservesInv(t, nextE, nextL, eid, ef, lid, lf);
  }

  /**
   * Without trimmed keys the checks do not keep the invariant: the lookup
   * compares the trimmed number "L1" with the stored " L1" and misses it,
   * so a second file stored as " L1" passes every check of insertar, and
   * the number is then held twice.
   */
  /** The store of the counterexample below: one employee with file number " L1". */
  function UntrimmedStore(): (t: Tables)
    ensures |t.empleados| == 1 && |t.legajos| == 1
  {
    Tables([Row(1, false, EmpleadoFields(Some("Ana"), Some("Paz"), Some("1"), None, None, None))],
           [Row(1, false, LegajoColumns(LegajoFields(Some(" L1"), None, Some(Activo), None, None), 1))])
  }

  lemma UntrimmedStoreIsValid()
    ensures Inv(UntrimmedStore(), 2, 2)
  {
  }

  lemma UntrimmedNumeroSlipsThrough()
    ensures var ef2 := EmpleadoFields(Some("Luis"), Some("Gil"), Some("2"), None, None, None);
      var lf := LegajoFields(Some(" L1"), None, Some(Activo), None, None);
      var t := UntrimmedStore();
      Inv(t, 2, 2) && ValidEmpleado(ef2) && DniFreeFor(t, ef2.dni, None)
      && LegajoService.ValidLegajoData(lf) && LegajoDao.NumeroHolder(t, lf.numeroLegajo).None?
      && !NumeroUnique(CreatePair(t, 2, ef2, 2, lf, 2).legajos)
  {
    var ef2 := EmpleadoFields(Some("Luis"), Some("Gil"), Some("2"), None, None, None);
    var lf := LegajoFields(Some(" L1"), None, Some(Activo), None, None);
    var t := UntrimmedStore();
    UntrimmedStoreIsValid();
    assert Trim(" L1") == "L1" by {
      assert TrimStart(" L1") == 1 by { assert " L1"[1..] == "L1"; }
      assert " L1"[1..] == "L1";
      assert TrimEnd("L1") == 2;
    }
    var t' := CreatePair(t, 2, ef2, 2, lf, 2);
    assert t'.legajos[0].fields.data.numeroLegajo == t'.legajos[1].fields.data.numeroLegajo;
  }

  // ---------------------------------------------------------------------
  // insertar
  // ---------------------------------------------------------------------

  /**
   * The failure reported by the first of insertar's steps that refuses,
   * in their order: the employee statement, an id still 0, the file's
   * data, the number lookup, a number already held, the file statement.
   * None when those steps all pass.
   */
  function InsertarRechazo(f: Faults, empleadoId: int, lf: LegajoFields, t: Tables): Option<Failure> {
    if f.empleadoStatement then Some(Sql(Rejected))
    else if empleadoId == 0 then Some(Sql(ZeroId))
    else if LegajoService.ValidateLegajoData(Some(lf)).Fail? then Some(LegajoService.ValidateLegajoData(Some(lf)).error)
    else if f.legajoLookup then Some(Sql(Unavailable))
    else if LegajoDao.NumeroHolder(t, lf.numeroLegajo).Some? then Some(IllegalArgument(DuplicateNumeroLegajo))
    else if f.legajoStatement then Some(Sql(Rejected))
    else None
  }

  /**
   * The statements of insertar's `try` block after startTransaction: the
   * employee row first; an id still 0 aborts; then the file with the
   * employee's id as its foreign key; then the commit. Nothing reaches the
   * committed tables but a successful commit.
   */
  method InsertarPasos(e: Empleado, legajo: Legajo, tm: TransactionManager, conn: Connection, db: Database, f: Faults)
    returns (r: Outcome)
    requires tm.connection == conn && conn.db == db
    requires tm.transactionActive && !conn.closed && !conn.autoCommit && conn.pending == db.tables
    modifies e`id, legajo, tm`transactionActive, conn`pending, db`tables, db`nextEmpleadoId, db`nextLegajoId
    ensures r.Ok? <==> (!f.empleadoStatement && (if f.empleadoKey then old(db.nextEmpleadoId) else old(e.id)) != 0
      && LegajoService.ValidLegajoData(old(legajo.Fields())) && !f.legajoLookup
      && LegajoDao.NumeroHolder(old(db.tables), legajo.numeroLegajo).None? && !f.legajoStatement && !f.commit)
    ensures r.Fail? ==> db.tables == old(db.tables)
    ensures r.Ok? ==> (e.id == (if f.empleadoKey then old(db.nextEmpleadoId) else old(e.id))
      && db.tables == CreatePair(old(db.tables), old(db.nextEmpleadoId), e.Fields(), old(db.nextLegajoId), legajo.Fields(), e.id)
      && db.nextEmpleadoId == old(db.nextEmpleadoId) + 1 && db.nextLegajoId == old(db.nextLegajoId) + 1)
    ensures old(db.nextEmpleadoId) <= db.nextEmpleadoId && old(db.nextLegajoId) <= db.nextLegajoId
    ensures e.Fields() == old(e.Fields()) && legajo.Fields() == old(legajo.Fields())
    ensures legajo.eliminado == old(legajo.eliminado)
    ensures e.id == (if !f.empleadoStatement && f.empleadoKey then old(db.nextEmpleadoId) else old(e.id))
    ensures legajo.id == old(legajo.id) || (f.legajoKey && legajo.id == old(db.nextLegajoId))
    ensures InsertarRechazo(f, (if f.empleadoKey then old(db.nextEmpleadoId) else old(e.id)), old(legajo.Fields()), old(db.tables)).Some? ==>
      r == Fail(InsertarRechazo(f, (if f.empleadoKey then old(db.nextEmpleadoId) else old(e.id)), old(legajo.Fields()), old(db.tables)).value)
  {
    r := EmpleadoDao.CrearTx(e, conn, f.empleadoStatement, f.empleadoKey);
    if r.Fail? {
      return;
    }
    if e.id == 0 {
      return Fail(Sql(ZeroId));
    }
    r := LegajoService.InsertarTx(legajo, e.id, conn, f);
    if r.Fail? {
      return;
    }
    r := tm.Commit(f.commit);
  }

  /**
   * insertar's try-with-resources statement: a connection and a manager,
   * startTransaction, the steps, and `close` whatever happened; a failure
   * comes back wrapped and leaves the committed tables as they were.
   */
  method InsertarEnTransaccion(e: Empleado, legajo: Legajo, db: Database, f: Faults) returns (r: Outcome)
    modifies e`id, legajo, db`tables, db`nextEmpleadoId, db`nextLegajoId
    ensures r.Ok? <==> (!f.connect && !f.startTransaction && !f.empleadoStatement
      && (if f.empleadoKey then old(db.nextEmpleadoId) else old(e.id)) != 0
      && LegajoService.ValidLegajoData(old(legajo.Fields())) && !f.legajoLookup
      && LegajoDao.NumeroHolder(old(db.tables), legajo.numeroLegajo).None? && !f.legajoStatement && !f.commit)
    ensures r.Fail? ==> db.tables == old(db.tables) && r.error.Wrapped? && r.error.op == Create
    ensures r.Ok? ==> (e.id == (if f.empleadoKey then old(db.nextEmpleadoId) else old(e.id)) && e.id != 0
      && db.tables == CreatePair(old(db.tables), old(db.nextEmpleadoId), e.Fields(), old(db.nextLegajoId), legajo.Fields(), e.id)
      && db.nextEmpleadoId == old(db.nextEmpleadoId) + 1 && db.nextLegajoId == old(db.nextLegajoId) + 1)
    ensures old(db.nextEmpleadoId) <= db.nextEmpleadoId && old(db.nextLegajoId) <= db.nextLegajoId
    ensures e.Fields() == old(e.Fields()) && legajo.Fields() == old(legajo.Fields())
    ensures legajo.eliminado == old(legajo.eliminado)
    ensures e.id == (if !f.connect && !f.startTransaction && !f.empleadoStatement && f.empleadoKey
      then old(db.nextEmpleadoId) else old(e.id))
    ensures legajo.id == old(legajo.id) || (f.legajoKey && legajo.id == old(db.nextLegajoId))
    ensures (f.connect || f.startTransaction) ==> r == Fail(Wrapped(Create, Sql(Unavailable)))
    ensures (!f.connect && !f.startTransaction && InsertarRechazo(f, (if f.empleadoKey then old(db.nextEmpleadoId) else old(e.id)), old(legajo.Fields()), old(db.tables)).Some?) ==>
      r == Fail(Wrapped(Create, InsertarRechazo(f, (if f.empleadoKey then old(db.nextEmpleadoId) else old(e.id)), old(legajo.Fields()), old(db.tables)).value))
  {
    var c := Open(db, f.connect);
    if c.Failure? {
      return Fail(Wrapped(Create, c.error));
    }
    var conn := c.value;
    var tm := new TransactionManager(conn);
    r := tm.StartTransaction(f.startTransaction);
    if r.Ok? {
      r := InsertarPasos(e, legajo, tm, conn, db, f);
    }
    tm.Close(f.rollback, f.restoreAutoCommit, f.closeConnection);
    if r.Fail? {
      r := Fail(Wrapped(Create, r.error));
    }
  }

  /**
   * insertar once its checks have passed: the transaction on the employee
   * and its file. A failure leaves the committed tables as they were; a
   * success adds exactly the two rows; either way the store invariant is
   * kept, because the counters only move forward.
   */
  method InsertarValidado(e: Empleado, db: Database, f: Faults) returns (r: Outcome)
    requires e.legajo != null && ValidEmpleado(e.Fields()) && DniFreeFor(db.tables, e.dni, None)
    modifies e`id, e.legajo, db`tables, db`nextEmpleadoId, db`nextLegajoId
    ensures r.Ok? <==> (!f.connect && !f.startTransaction && !f.empleadoStatement
      && (if f.empleadoKey then old(db.nextEmpleadoId) else old(e.id)) != 0
      && LegajoService.ValidLegajoData(old(e.legajo.Fields())) && !f.legajoLookup
      && LegajoDao.NumeroHolder(old(db.tables), old(e.legajo.numeroLegajo)).None? && !f.legajoStatement && !f.commit)
    ensures r.Fail? ==> db.tables == old(db.tables) && r.error.Wrapped? && r.error.op == Create
    ensures r.Ok? ==> (e.id == (if f.empleadoKey then old(db.nextEmpleadoId) else old(e.id)) && e.id != 0
      && db.tables == CreatePair(old(db.tables), old(db.nextEmpleadoId), e.Fields(), old(db.nextLegajoId), e.legajo.Fields(), e.id)
      && db.nextEmpleadoId == old(db.nextEmpleadoId) + 1 && db.nextLegajoId == old(db.nextLegajoId) + 1)
    ensures e.Fields() == old(e.Fields()) && e.legajo.Fields() == old(e.legajo.Fields())
      && e.legajo.eliminado == old(e.legajo.eliminado)
    ensures e.id == (if !f.connect && !f.startTransaction && !f.empleadoStatement && f.empleadoKey
      then old(db.nextEmpleadoId) else old(e.id))
    ensures e.legajo.id == old(e.legajo.id) || (f.legajoKey && e.legajo.id == old(db.nextLegajoId))
    ensures (old(e.id) == 0 && KeysTrimmed(e.Fields(), e.legajo.Fields())
      && Inv(old(db.tables), old(db.nextEmpleadoId), old(db.nextLegajoId))) ==>
      Inv(db.tables, db.nextEmpleadoId, db.nextLegajoId)
  {
    ghost var t, nextE, nextL := db.tables, db.nextEmpleadoId, db.nextLegajoId;
    r := InsertarEnTransaccion(e, e.legajo, db, f);
    if old(e.id) == 0 && KeysTrimmed(e.Fields(), e.legajo.Fields()) && Inv(t, nextE, nextL) {
      if r.Ok? {
        InsertChecksKeepInv(t, nextE, nextL, e.Fields(), e.legajo.Fields());
      } else {
        InvForLargerCounters(t, nextE, nextL, db.nextEmpleadoId, db.nextLegajoId);
      }
    }
  }

  /**
   * insertar: the employee checks and the DNI lookup, then the required
   * file, all before any transaction; then the transaction. A failure
   * leaves the committed tables as they were; a success adds exactly the
   * two rows, the file pointing at the new employee, and keeps the
   * store's invariant.
   */
  method Insertar(e: Empleado?, db: Database, f: Faults) returns (r: Outcome)
    modifies if e == null then {} else {e, e.legajo}, db`tables, db`nextEmpleadoId, db`nextLegajoId
    ensures ValidateEmpleado(old(Snapshot(e))).Fail? ==> r == ValidateEmpleado(old(Snapshot(e)))
    ensures (e != null && ValidEmpleado(old(e.Fields())) && f.empleadoLookup) ==> r == Fail(Sql(Unavailable))
    ensures (e != null && ValidEmpleado(old(e.Fields())) && !f.empleadoLookup
      && !DniFreeFor(old(db.tables), old(e.dni), None)) ==> r == Fail(IllegalArgument(DuplicateDni))
    ensures (e != null && ValidEmpleado(old(e.Fields())) && !f.empleadoLookup
      && DniFreeFor(old(db.tables), old(e.dni), None) && e.legajo == null) ==>
      r == Fail(IllegalArgument(MissingLegajo)) && db.nextEmpleadoId == old(db.nextEmpleadoId)
    ensures r.Fail? ==> db.tables == old(db.tables)
    ensures r.Fail? && r.error.Wrapped? ==> r.error.op == Create
    ensures r.Ok? ==> (e != null && e.legajo != null && ValidEmpleado(e.Fields())
      && DniFreeFor(old(db.tables), e.dni, None) && LegajoService.ValidLegajoData(e.legajo.Fields())
      && LegajoDao.NumeroHolder(old(db.tables), e.legajo.numeroLegajo).None? && e.id != 0
      && db.tables == CreatePair(old(db.tables), old(db.nextEmpleadoId), e.Fields(),
                                 old(db.nextLegajoId), e.legajo.Fields(), e.id))
    ensures e != null ==> (e.legajo == old(e.legajo) && e.Fields() == old(e.Fields())
      && (e.legajo != null ==> e.legajo.Fields() == old(e.legajo.Fields())))
    ensures r.Ok? ==> e.id == (if f.empleadoKey then old(db.nextEmpleadoId) else old(e.id))
    ensures r.Ok? <==> (e != null && ValidEmpleado(old(e.Fields())) && !f.empleadoLookup
      && DniFreeFor(old(db.tables), old(e.dni), None) && old(e.legajo) != null
      && !f.connect && !f.startTransaction && !f.empleadoStatement
      && (if f.empleadoKey then old(db.nextEmpleadoId) else old(e.id)) != 0
      && LegajoService.ValidLegajoData(old(e.legajo.Fields())) && !f.legajoLookup
      && LegajoDao.NumeroHolder(old(db.tables), old(e.legajo.numeroLegajo)).None?
      && !f.legajoStatement && !f.commit)
    ensures r.Ok? ==> db.nextEmpleadoId == old(db.nextEmpleadoId) + 1 && db.nextLegajoId == old(db.nextLegajoId) + 1
    ensures e != null ==> e.eliminado == old(e.eliminado)
    ensures e != null && old(e.legajo) != null ==> old(e.legajo).eliminado == old(e.legajo.eliminado)
    ensures e != null ==> (e.id == old(e.id) || (f.empleadoKey && e.id == old(db.nextEmpleadoId)))
    ensures e != null && old(e.legajo) != null ==>
      (old(e.legajo).id == old(e.legajo.id) || (f.legajoKey && old(e.legajo).id == old(db.nextLegajoId)))
    ensures (e != null && old(e.id) == 0 && e.legajo != null && KeysTrimmed(e.Fields(), e.legajo.Fields())
      && Inv(old(db.tables), old(db.nextEmpleadoId), old(db.nextLegajoId))) ==>
      Inv(db.tables, db.nextEmpleadoId, db.nextLegajoId)
  {
    r := ValidateEmpleado(Snapshot(e));
    if r.Fail? {
      return;
    }
    r := ValidateDniUnique(db, e.dni, None, f.empleadoLookup);
    if r.Fail? {
      return;
    }
    if e.legajo == null {
      return Fail(IllegalArgument(MissingLegajo));
    }
    r := InsertarValidado(e, db, f);
  }

  // ---------------------------------------------------------------------
  // actualizar
  // ---------------------------------------------------------------------

  /**
   * The failure reported by the first of actualizar's steps that refuses,
   * as far as the model names it: the file's data, a number held by
   * another file, and, once the file is rewritten, the employee statement
   * and an employee id no row carries. None when the file step fails for
   * another reason, or when those steps all pass.
   */
  function ActualizarRechazo(f: Faults, empleadoId: int, legajoId: int, lf: LegajoFields, t: Tables): Option<Failure> {
    if LegajoService.ValidateLegajoData(Some(lf)).Fail? then Some(LegajoService.ValidateLegajoData(Some(lf)).error)
    else if f.legajoLookup then None
    else if !LegajoService.NumeroFreeFor(t, lf.numeroLegajo, legajoId) then Some(IllegalArgument(DuplicateNumeroLegajoOther))
    else if f.legajoStatement || !HasId(t.legajos, legajoId) then None
    else if f.empleadoStatement then Some(Sql(Rejected))
    else if !HasId(t.empleados, empleadoId) then Some(Sql(RowNotFound))
    else None
  }

  /** The statements of actualizar's `try` block after startTransaction: the file, the employee, the commit. */
  method ActualizarPasos(e: Empleado, legajo: Legajo, tm: TransactionManager, conn: Connection, db: Database, f: Faults)
    returns (r: Outcome)
    requires legajo.id > 0
    requires tm.connection == conn && conn.db == db
    requires tm.transactionActive && !conn.closed && !conn.autoCommit && conn.pending == db.tables
    modifies tm`transactionActive, conn`pending, db`tables
    ensures r.Ok? <==> (LegajoService.ValidLegajoData(legajo.Fields()) && !f.legajoLookup
      && LegajoService.NumeroFreeFor(old(db.tables), legajo.numeroLegajo, legajo.id)
      && !f.legajoStatement && HasId(old(db.tables.legajos), legajo.id)
      && !f.empleadoStatement && HasId(old(db.tables.empleados), e.id) && !f.commit)
    ensures r.Fail? ==> db.tables == old(db.tables)
    ensures r.Ok? ==> db.tables == UpdatePair(old(db.tables), e.id, e.Fields(), legajo.id, legajo.Fields())
    ensures ActualizarRechazo(f, e.id, legajo.id, legajo.Fields(), old(db.tables)).Some? ==>
      r == Fail(ActualizarRechazo(f, e.id, legajo.id, legajo.Fields(), old(db.tables)).value)
  {
    r := LegajoService.ActualizarTx(legajo, conn, f);
    if r.Fail? {
      return;
    }
    r := EmpleadoDao.ActualizarTx(e, conn, f.empleadoStatement);
    if r.Fail? {
      return;
    }
    r := tm.Commit(f.commit);
  }

  /** actualizar's try-with-resources statement: a connection and a manager, the steps, and `close`. */
  method ActualizarEnTransaccion(e: Empleado, legajo: Legajo, db: Database, f: Faults) returns (r: Outcome)
    requires legajo.id > 0
    modifies db`tables
    ensures r.Ok? <==> (!f.connect && !f.startTransaction
      && LegajoService.ValidLegajoData(legajo.Fields()) && !f.legajoLookup
      && LegajoService.NumeroFreeFor(old(db.tables), legajo.numeroLegajo, legajo.id)
      && !f.legajoStatement && HasId(old(db.tables.legajos), legajo.id)
      && !f.empleadoStatement && HasId(old(db.tables.empleados), e.id) && !f.commit)
    ensures r.Fail? ==> db.tables == old(db.tables) && r.error.Wrapped? && r.error.op == Update
    ensures r.Ok? ==> db.tables == UpdatePair(old(db.tables), e.id, e.Fields(), legajo.id, legajo.Fields())
    ensures (f.connect || f.startTransaction) ==> r == Fail(Wrapped(Update, Sql(Unavailable)))
    ensures (!f.connect && !f.startTransaction && ActualizarRechazo(f, e.id, legajo.id, legajo.Fields(), old(db.tables)).Some?) ==>
      r == Fail(Wrapped(Update, ActualizarRechazo(f, e.id, legajo.id, legajo.Fields(), old(db.tables)).value))
  {
    var c := Open(db, f.connect);
    if c.Failure? {
      return Fail(Wrapped(Update, c.error));
    }
    var conn := c.value;
    var tm := new TransactionManager(conn);
    r := tm.StartTransaction(f.startTransaction);
    if r.Ok? {
      r := ActualizarPasos(e, legajo, tm, conn, db, f);
    }
    tm.Close(f.rollback, f.restoreAutoCommit, f.closeConnection);
    if r.Fail? {
      r := Fail(Wrapped(Update, r.error));
    }
  }

  /**
   * actualizar: an employee with a positive id and a file with a positive
   * id, valid data, and a DNI held by nobody else; then the transaction.
   * Either both rows are rewritten or nothing is.
   */
  method Actualizar(e: Empleado?, db: Database, f: Faults) returns (r: Outcome)
    modifies db`tables
    ensures (e == null || e.id <= 0) ==> r == Fail(IllegalArgument(InvalidEmpleadoForUpdate))
    ensures (e != null && e.id > 0 && (e.legajo == null || e.legajo.id <= 0)) ==>
      r == Fail(IllegalArgument(MissingLegajoForUpdate))
    ensures (e != null && e.id > 0 && e.legajo != null && e.legajo.id > 0 && ValidateEmpleado(Snapshot(e)).Fail?) ==>
      r == ValidateEmpleado(Snapshot(e))
    ensures (e != null && e.id > 0 && e.legajo != null && e.legajo.id > 0 && ValidEmpleado(e.Fields())
      && !f.empleadoLookup && !DniFreeFor(old(db.tables), e.dni, Some(e.id))) ==>
      r == Fail(IllegalArgument(DuplicateDni))
    ensures r.Fail? ==> db.tables == old(db.tables)
    ensures r.Fail? && r.error.Wrapped? ==> r.error.op == Update
    ensures r.Ok? <==> (e != null && e.id > 0 && e.legajo != null && e.legajo.id > 0 && ValidEmpleado(e.Fields())
      && !f.empleadoLookup && DniFreeFor(old(db.tables), e.dni, Some(e.id))
      && !f.connect && !f.startTransaction
      && LegajoService.ValidLegajoData(e.legajo.Fields()) && !f.legajoLookup
      && LegajoService.NumeroFreeFor(old(db.tables), e.legajo.numeroLegajo, e.legajo.id)
      && !f.legajoStatement && HasId(old(db.tables.legajos), e.legajo.id)
      && !f.empleadoStatement && HasId(old(db.tables.empleados), e.id) && !f.commit)
    ensures r.Ok? ==> db.tables == UpdatePair(old(db.tables), e.id, e.Fields(), e.legajo.id, e.legajo.Fields())
    ensures (e != null && e.legajo != null && KeysTrimmed(e.Fields(), e.legajo.Fields())
      && Inv(old(db.tables), db.nextEmpleadoId, db.nextLegajoId)) ==>
      Inv(db.tables, db.nextEmpleadoId, db.nextLegajoId)
  {
    if e == null || e.id <= 0 {
      return Fail(IllegalArgument(InvalidEmpleadoForUpdate));
    }
    if e.legajo == null || e.legajo.id <= 0 {
      return Fail(IllegalArgument(MissingLegajoForUpdate));
    }
    r := ValidateEmpleado(Snapshot(e));
    if r.Fail? {
      return;
    }
    r := ValidateDniUnique(db, e.dni, Some(e.id), f.empleadoLookup);
    if r.Fail? {
      return;
    }
    ghost var t := db.tables;
    r := ActualizarEnTransaccion(e, e.legajo, db, f);
    if r.Ok? && KeysTrimmed(e.Fields(), e.legajo.Fields()) && Inv(t, db.nextEmpleadoId, db.nextLegajoId) {
      UpdateChecksKeepInv(t, db.nextEmpleadoId, db.nextLegajoId, e.id, e.Fields(), e.legajo.id, e.legajo.Fields());
    }
  }

  // ---------------------------------------------------------------------
  // eliminar
  // ---------------------------------------------------------------------

  /** `leer` attached a file to the employee of this result row. */
  predicate HasFile(read: EmpleadoRead) {
    read.legajo.Some? && read.legajo.value.id > 0
  }

  /**
   * The failure reported by eliminar's employee step once the file's soft
   * delete has passed: the statement refused, or an id no row carries.
   * None when the file step fails, or when both steps pass.
   */
  function EliminarRechazo(f: Faults, empleadoId: int, legajoId: int, t: Tables): Option<Failure> {
    if f.legajoStatement || !HasId(t.legajos, legajoId) then None
    else if f.empleadoStatement then Some(Sql(Rejected))
    else if !HasId(t.empleados, empleadoId) then Some(Sql(RowNotFound))
    else None
  }

  /** The statements of eliminar's `try` block after startTransaction: the file, the employee, the commit. */
  method EliminarPasos(id: int, legajoId: int, tm: TransactionManager, conn: Connection, db: Database, f: Faults)
    returns (r: Outcome)
    requires legajoId > 0
    requires tm.connection == conn && conn.db == db
    requires tm.transactionActive && !conn.closed && !conn.autoCommit && conn.pending == db.tables
    modifies tm`transactionActive, conn`pending, db`tables
    ensures r.Ok? <==> (!f.legajoStatement && HasId(old(db.tables.legajos), legajoId)
      && !f.empleadoStatement && HasId(old(db.tables.empleados), id) && !f.commit)
    ensures r.Fail? ==> db.tables == old(db.tables)
    ensures r.Ok? ==> db.tables == DeletePair(old(db.tables), id, legajoId)
    ensures EliminarRechazo(f, id, legajoId, old(db.tables)).Some? ==>
      r == Fail(EliminarRechazo(f, id, legajoId, old(db.tables)).value)
  {
    r := LegajoService.EliminarTx(legajoId, conn, f);
    if r.Fail? {
      return;
    }
    r := EmpleadoDao.EliminarTx(id, conn, f.empleadoStatement);
    if r.Fail? {
      return;
    }
    r := tm.Commit(f.commit);
  }

  /** eliminar's try-with-resources statement: a connection and a manager, the steps, and `close`. */
  method EliminarEnTransaccion(id: int, legajoId: int, db: Database, f: Faults) returns (r: Outcome)
    requires legajoId > 0
    modifies db`tables
    ensures r.Ok? <==> (!f.connect && !f.startTransaction
      && !f.legajoStatement && HasId(old(db.tables.legajos), legajoId)
      && !f.empleadoStatement && HasId(old(db.tables.empleados), id) && !f.commit)
    ensures r.Fail? ==> db.tables == old(db.tables) && r.error.Wrapped? && r.error.op == Delete
    ensures r.Ok? ==> db.tables == DeletePair(old(db.tables), id, legajoId)
    ensures (f.connect || f.startTransaction) ==> r == Fail(Wrapped(Delete, Sql(Unavailable)))
    ensures (!f.connect && !f.startTransaction && EliminarRechazo(f, id, legajoId, old(db.tables)).Some?) ==>
      r == Fail(Wrapped(Delete, EliminarRechazo(f, id, legajoId, old(db.tables)).value))
  {
    var c := Open(db, f.connect);
    if c.Failure? {
      return Fail(Wrapped(Delete, c.error));
    }
    var conn := c.value;
    var tm := new TransactionManager(conn);
    r := tm.StartTransaction(f.startTransaction);
    if r.Ok? {
      r := EliminarPasos(id, legajoId, tm, conn, db, f);
    }
    tm.Close(f.rollback, f.restoreAutoCommit, f.closeConnection);
    if r.Fail? {
      r := Fail(Wrapped(Delete, r.error));
    }
  }

  /**
   * eliminar: a positive id, a visible employee with that id (read from
   * the committed tables) and a file attached to it; then both soft
   * deletes in one transaction. Afterwards neither row is visible to the
   * reads, yet both tables keep every row.
   */
  method Eliminar(id: int, db: Database, f: Faults) returns (r: Outcome)
    modifies db`tables
    ensures id <= 0 ==> r == Fail(IllegalArgument(InvalidId))
    ensures id > 0 && f.empleadoLookup ==> r == Fail(Sql(Unavailable))
    ensures (id > 0 && !f.empleadoLookup && Query(old(db.tables), ById(id)) == []) ==>
      r == Fail(IllegalArgument(EmpleadoNotFound))
    ensures (id > 0 && !f.empleadoLookup && Query(old(db.tables), ById(id)) != []
      && !HasFile(Query(old(db.tables), ById(id))[0])) ==>
      r == Fail(IllegalState(EmpleadoWithoutLegajo))
    ensures r.Fail? ==> db.tables == old(db.tables)
    ensures r.Fail? && r.error.Wrapped? ==> r.error.op == Delete
    ensures r.Ok? <==> (id > 0 && !f.empleadoLookup && Query(old(db.tables), ById(id)) != []
      && HasFile(Query(old(db.tables), ById(id))[0])
      && !f.connect && !f.startTransaction && !f.legajoStatement && !f.empleadoStatement && !f.commit)
    ensures r.Ok? ==> (db.tables == DeletePair(old(db.tables), id, Query(old(db.tables), ById(id))[0].legajo.value.id)
      && Query(db.tables, ById(id)) == []
      && FindActive(db.tables.legajos, Query(old(db.tables), ById(id))[0].legajo.value.id).None?
      && |db.tables.empleados| == |old(db.tables.empleados)| && |db.tables.legajos| == |old(db.tables.legajos)|)
    ensures Inv(old(db.tables), db.nextEmpleadoId, db.nextLegajoId) ==> Inv(db.tables, db.nextEmpleadoId, db.nextLegajoId)
  {
    if id <= 0 {
      return Fail(IllegalArgument(InvalidId));
    }
    var found := EmpleadoDao.Leer(db, id, f.empleadoLookup);
    if found.Failure? {
      return Fail(found.error);
    }
    if found.value == null {
      return Fail(IllegalArgument(EmpleadoNotFound));
    }
    if found.value.legajo == null {
      return Fail(IllegalState(EmpleadoWithoutLegajo));
    }
    var legajoId := found.value.legajo.id;
    ghost var t := db.tables;
    ghost var read := Query(t, ById(id))[0];
    QueryRowsSound(t.empleados, t.legajos, ById(id), 0);
    assert read.empleado in t.empleados && read.legajo.value in t.legajos;
    r := EliminarEnTransaccion(id, legajoId, db, f);
    if r.Ok? {
      DeleteHides(t, id, legajoId);
      if Inv(t, db.nextEmpleadoId, db.nextLegajoId) {
        DeletePreservesInv(t, db.nextEmpleadoId, db.nextLegajoId, id);
      }
    }
  }

  // ---------------------------------------------------------------------
  // Reads
  // ---------------------------------------------------------------------

  /** getById: a positive id; a missing employee is null, not an error. */
  method GetById(db: Database, id: int, f: Faults) returns (r: Result<Empleado?>)
    ensures id <= 0 ==> r == Failure(IllegalArgument(InvalidId))
    ensures id > 0 ==> (r.Failure? <==> f.empleadoLookup)
    ensures id > 0 && r.Failure? ==> r.error == Sql(Unavailable)
    ensures r.Success? ==> (r.value == null <==> Query(db.tables, ById(id)) == [])
    ensures r.Success? && r.value != null ==> fresh(r.value) && EmpleadoDao.Hydrates(r.value, Query(db.tables, ById(id))[0])
  {
    if id <= 0 {
      return Failure(IllegalArgument(InvalidId));
    }
    r := EmpleadoDao.Leer(db, id, f.empleadoLookup);
  }

  /** getAll: every visible employee, each with its file when it has one. */
  method GetAll(db: Database, f: Faults) returns (r: Result<seq<Empleado>>)
    ensures r.Failure? <==> f.empleadoLookup
    ensures r.Success? ==> |r.value| == |Query(db.tables, All)|
    ensures r.Success? ==> forall i :: 0 <= i < |r.value| ==>
      fresh(r.value[i]) && EmpleadoDao.Hydrates(r.value[i], Query(db.tables, All)[i])
  {
    r := EmpleadoDao.LeerTodos(db, f.empleadoLookup);
  }

  /** getByDni: a null or blank DNI is an error here; otherwise buscarPorDni. */
  method GetByDni(db: Database, dni: Option<string>, f: Faults) returns (r: Result<Empleado?>)
    ensures IsNullOrBlank(dni) ==> r == Failure(IllegalArgument(BlankDni))
    ensures !IsNullOrBlank(dni) ==> (r.Failure? <==> f.empleadoLookup)
    ensures !IsNullOrBlank(dni) && r.Failure? ==> r.error == Sql(Unavailable)
    ensures r.Success? ==> (r.value == null <==> EmpleadoDao.DniHolder(db.tables, dni).None?)
    ensures r.Success? && r.value != null ==>
      fresh(r.value) && EmpleadoDao.Hydrates(r.value, Query(db.tables, ByDni(Trim(dni.value)))[0])
  {
    if IsNullOrBlank(dni) {
      return Failure(IllegalArgument(BlankDni));
    }
    r := EmpleadoDao.BuscarPorDni(db, dni, f.empleadoLookup);
  }
}
