/**
 * LegajoServiceImpl: the business rules of a personnel file. The checks
 * on the file's own data are pure functions of its fields; the number's
 * uniqueness is a read of the committed tables through LegajoDao; the
 * `Tx` forms write on the caller's connection.
 */
module LegajoService {
  import opened Wrappers
  import opened Errors
  import opened Entities
  import opened Text
  import opened Tables
  import opened Jdbc
  import LegajoDao

  const NumeroLegajoMaxLength := 20
  const CategoriaMaxLength := 30
  const ObservacionesMaxLength := 255

  /** A file reference as the checks see it: null, or its data columns. */
  function Snapshot(l: Legajo?): Option<LegajoFields>
    reads l
  {
    if l == null then None else Some(l.Fields())
  }

  /** The data rules of a file, as one condition. */
  predicate ValidLegajoData(f: LegajoFields) {
    && !IsNullOrBlank(f.numeroLegajo)
    && f.estado.Some?
    && |Trim(f.numeroLegajo.value)| <= NumeroLegajoMaxLength
    && (f.categoria.None? || |f.categoria.value| <= CategoriaMaxLength)
    && (f.observaciones.None? || |f.observaciones.value| <= ObservacionesMaxLength)
  }

  /**
   * validateLegajoData: accepts exactly the files that satisfy the data
   * rules, and reports the first rule broken in the order null file,
   * blank number, null status, long number, long category, long notes.
   */
  function ValidateLegajoData(l: Option<LegajoFields>): (r: Outcome)
    ensures r.Ok? <==> l.Some? && ValidLegajoData(l.value)
    ensures r == Fail(IllegalArgument(NullLegajo)) <==> l.None?
    ensures r == Fail(IllegalArgument(BlankNumeroLegajo)) <==> l.Some? && IsNullOrBlank(l.value.numeroLegajo)
    ensures r == Fail(IllegalArgument(NullEstado)) <==>
      l.Some? && !IsNullOrBlank(l.value.numeroLegajo) && l.value.estado.None?
    ensures r == Fail(IllegalArgument(NumeroLegajoTooLong)) <==>
      l.Some? && !IsNullOrBlank(l.value.numeroLegajo) && l.value.estado.Some?
      && |Trim(l.value.numeroLegajo.value)| > NumeroLegajoMaxLength
    ensures r == Fail(IllegalArgument(CategoriaTooLong)) <==>
      l.Some? && !IsNullOrBlank(l.value.numeroLegajo) && l.value.estado.Some?
      && |Trim(l.value.numeroLegajo.value)| <= NumeroLegajoMaxLength
      && l.value.categoria.Some? && |l.value.categoria.value| > CategoriaMaxLength
    ensures r == Fail(IllegalArgument(ObservacionesTooLong)) <==>
      l.Some? && !IsNullOrBlank(l.value.numeroLegajo) && l.value.estado.Some?
      && |Trim(l.value.numeroLegajo.value)| <= NumeroLegajoMaxLength
      && (l.value.categoria.None? || |l.value.categoria.value| <= CategoriaMaxLength)
      && l.value.observaciones.Some? && |l.value.observaciones.value| > ObservacionesMaxLength
    ensures r.Fail? ==> r.error.IllegalArgument?
  {
    if l.None? then Fail(IllegalArgument(NullLegajo))
    else
      var f := l.value;
      if IsNullOrBlank(f.numeroLegajo) then Fail(IllegalArgument(BlankNumeroLegajo))
      else if f.estado.None? then Fail(IllegalArgument(NullEstado))
      else if |Trim(f.numeroLegajo.value)| > NumeroLegajoMaxLength then Fail(IllegalArgument(NumeroLegajoTooLong))
      else if f.categoria.Some? && |f.categoria.value| > CategoriaMaxLength then Fail(IllegalArgument(CategoriaTooLong))
      else if f.observaciones.Some? && |f.observaciones.value| > ObservacionesMaxLength then
        Fail(IllegalArgument(ObservacionesTooLong))
      else Ok
  }

  /** validateLegajoId: ids must be positive. */
  function ValidateLegajoId(id: int): (r: Outcome)
    ensures r.Ok? <==> id > 0
    ensures r.Fail? ==> r.error == IllegalArgument(InvalidId)
  {
    if id <= 0 then Fail(IllegalArgument(InvalidId)) else Ok
  }

  /** validateLegajoForUpdate: the file must be present (`id` is its id) and have a positive id. */
  function ValidateLegajoForUpdate(id: Option<int>): (r: Outcome)
    ensures r.Ok? <==> id.Some? && id.value > 0
    ensures r.Fail? ==> r.error == IllegalArgument(InvalidLegajoForUpdate)
  {
    if id.None? || id.value <= 0 then Fail(IllegalArgument(InvalidLegajoForUpdate)) else Ok
  }

  function IdOf(l: Legajo?): Option<int>
    reads l
  {
    if l == null then None else Some(l.id)
  }

  /** validateNumeroLegajoUniqueForInsert: no visible file may hold the number yet. */
  method ValidateNumeroLegajoUniqueForInsert(db: Database, legajo: Legajo, lookupFails: bool) returns (r: Outcome)
    ensures r.Ok? <==> IsNullOrBlank(legajo.numeroLegajo) || (!lookupFails && LegajoDao.NumeroHolder(db.tables, legajo.numeroLegajo).None?)
    ensures r.Fail? && lookupFails ==> r == Fail(Sql(Unavailable))
    ensures r.Fail? && !lookupFails ==> r == Fail(IllegalArgument(DuplicateNumeroLegajo))
  {
    var found := LegajoDao.BuscarPorNroLegajo(db, legajo.numeroLegajo, lookupFails);
    if found.Failure? {
      return Fail(found.error);
    }
    if found.value != null {
      return Fail(IllegalArgument(DuplicateNumeroLegajo));
    }
    r := Ok;
  }

  /**
   * validateNumeroLegajoUniqueForUpdate: the number may be held only by
   * the file being updated itself.
   */
  method ValidateNumeroLegajoUniqueForUpdate(db: Database, legajo: Legajo, lookupFails: bool) returns (r: Outcome)
    ensures r.Ok? <==> (IsNullOrBlank(legajo.numeroLegajo)
      || (!lookupFails && NumeroFreeFor(db.tables, legajo.numeroLegajo, legajo.id)))
    ensures r.Fail? && lookupFails ==> r == Fail(Sql(Unavailable))
    ensures r.Fail? && !lookupFails ==> r == Fail(IllegalArgument(DuplicateNumeroLegajoOther))
  {
    var found := LegajoDao.BuscarPorNroLegajo(db, legajo.numeroLegajo, lookupFails);
    if found.Failure? {
      return Fail(found.error);
    }
    if found.value != null && found.value.id != legajo.id {
      return Fail(IllegalArgument(DuplicateNumeroLegajoOther));
    }
    r := Ok;
  }

  /** The number is free, or held by the file with id `id`. */
  predicate NumeroFreeFor(t: Tables, nroLegajo: Option<string>, id: int) {
    var h := LegajoDao.NumeroHolder(t, nroLegajo);
    h.None? || h.value.id == id
  }

  /** insertar: a file cannot be created on its own; always refused. */
  method Insertar(legajo: Legajo?) returns (r: Outcome)
    ensures r == Fail(Unsupported)
  {
    r := Fail(Unsupported);
  }

  /** eliminar: a file cannot be deleted on its own; always refused. */
  method Eliminar(id: int) returns (r: Outcome)
    ensures r == Fail(Unsupported)
  {
    r := Fail(Unsupported);
  }

  /**
   * insertarTx: validates the data, rejects a number already held by a
   * visible committed file, and only then inserts on `conn`. Any
   * rejection leaves the connection, the tables and the counter as they were.
   */
  method InsertarTx(legajo: Legajo?, empleadoId: int, conn: Connection, f: Faults) returns (r: Outcome)
    modifies legajo, conn`pending, conn.db`tables, conn.db`nextLegajoId
    ensures ValidateLegajoData(old(Snapshot(legajo))).Fail? ==> r == ValidateLegajoData(old(Snapshot(legajo)))
    ensures r.Ok? <==> (legajo != null && ValidLegajoData(old(legajo.Fields())) && !f.legajoLookup
      && LegajoDao.NumeroHolder(old(conn.db.tables), legajo.numeroLegajo).None? && !conn.closed && !f.legajoStatement)
    ensures (legajo != null && ValidLegajoData(old(legajo.Fields())) && !f.legajoLookup
      && LegajoDao.NumeroHolder(old(conn.db.tables), legajo.numeroLegajo).Some?) ==>
      r == Fail(IllegalArgument(DuplicateNumeroLegajo))
    ensures (legajo != null && ValidLegajoData(old(legajo.Fields())) && f.legajoLookup) ==> r == Fail(Sql(Unavailable))
    ensures (legajo != null && ValidLegajoData(old(legajo.Fields())) && !f.legajoLookup
      && LegajoDao.NumeroHolder(old(conn.db.tables), legajo.numeroLegajo).None? && !conn.closed && f.legajoStatement) ==>
      r == Fail(Sql(Rejected))
    ensures r.Fail? ==> (conn.pending == old(conn.pending) && conn.db.tables == old(conn.db.tables)
      && conn.db.nextLegajoId == old(conn.db.nextLegajoId) && (legajo != null ==> legajo.id == old(legajo.id)))
    ensures r.Ok? ==> (conn.View() == LegajoDao.WithLegajo(old(conn.View()), old(conn.db.nextLegajoId), legajo.Fields(), empleadoId)
      && conn.db.nextLegajoId == old(conn.db.nextLegajoId) + 1
      && legajo.id == (if f.legajoKey then old(conn.db.nextLegajoId) else old(legajo.id)))
    ensures conn.autoCommit ==> conn.pending == old(conn.pending)
    ensures !conn.autoCommit ==> conn.db.tables == old(conn.db.tables)
    ensures legajo != null ==> legajo.Fields() == old(legajo.Fields()) && legajo.eliminado == old(legajo.eliminado)
  {
    r := ValidateLegajoData(Snapshot(legajo));
    if r.Fail? {
      return;
    }
    r := ValidateNumeroLegajoUniqueForInsert(conn.db, legajo, f.legajoLookup);
    if r.Fail? {
      return;
    }
    r := LegajoDao.CrearTx(legajo, empleadoId, conn, f.legajoStatement, f.legajoKey);
  }

  /**
   * actualizarTx: the file must be present with a positive id and valid
   * data, and its number may be held only by itself; then the update runs
   * on `conn`.
   */
  method ActualizarTx(legajo: Legajo?, conn: Connection, f: Faults) returns (r: Outcome)
    modifies conn`pending, conn.db`tables
    ensures ValidateLegajoForUpdate(IdOf(legajo)).Fail? ==> r == ValidateLegajoForUpdate(IdOf(legajo))
    ensures ValidateLegajoForUpdate(IdOf(legajo)).Ok? && ValidateLegajoData(Snapshot(legajo)).Fail? ==>
      r == ValidateLegajoData(Snapshot(legajo))
    ensures r.Ok? <==> (legajo != null && legajo.id > 0 && ValidLegajoData(legajo.Fields()) && !f.legajoLookup
      && NumeroFreeFor(old(conn.db.tables), legajo.numeroLegajo, legajo.id)
      && !conn.closed && !f.legajoStatement && HasId(old(conn.View().legajos), legajo.id))
    ensures (legajo != null && legajo.id > 0 && ValidLegajoData(legajo.Fields()) && !f.legajoLookup
      && !NumeroFreeFor(old(conn.db.tables), legajo.numeroLegajo, legajo.id)) ==>
      r == Fail(IllegalArgument(DuplicateNumeroLegajoOther))
    ensures r.Fail? ==> conn.pending == old(conn.pending) && conn.db.tables == old(conn.db.tables)
    ensures r.Ok? ==> conn.View() == old(conn.View()).(legajos := UpdateLegajos(old(conn.View().legajos), legajo.id, legajo.Fields()))
    ensures conn.autoCommit ==> conn.pending == old(conn.pending)
    ensures !conn.autoCommit ==> conn.db.tables == old(conn.db.tables)
  {
    r := ValidateLegajoForUpdate(IdOf(legajo));
    if r.Fail? {
      return;
    }
    r := ValidateLegajoData(Snapshot(legajo));
    if r.Fail? {
      return;
    }
    r := ValidateNumeroLegajoUniqueForUpdate(conn.db, legajo, f.legajoLookup);
    if r.Fail? {
      return;
    }
    r := LegajoDao.ActualizarTx(legajo, conn, f.legajoStatement);
  }

  /** actualizar: the same checks, then the update on a connection of its own, committed at once. */
  method Actualizar(legajo: Legajo?, db: Database, f: Faults) returns (r: Outcome)
    modifies db`tables
    ensures ValidateLegajoForUpdate(IdOf(legajo)).Fail? ==> r == ValidateLegajoForUpdate(IdOf(legajo))
    ensures ValidateLegajoForUpdate(IdOf(legajo)).Ok? && ValidateLegajoData(Snapshot(legajo)).Fail? ==>
      r == ValidateLegajoData(Snapshot(legajo))
    ensures r.Ok? <==> (legajo != null && legajo.id > 0 && ValidLegajoData(legajo.Fields()) && !f.legajoLookup
      && NumeroFreeFor(old(db.tables), legajo.numeroLegajo, legajo.id)
      && !f.connect && !f.legajoStatement && HasId(old(db.tables.legajos), legajo.id))
    ensures (legajo != null && legajo.id > 0 && ValidLegajoData(legajo.Fields()) && !f.legajoLookup
      && !NumeroFreeFor(old(db.tables), legajo.numeroLegajo, legajo.id)) ==>
      r == Fail(IllegalArgument(DuplicateNumeroLegajoOther))
    ensures r.Fail? ==> db.tables == old(db.tables)
    ensures r.Ok? ==> db.tables == old(db.tables).(legajos := UpdateLegajos(old(db.tables.legajos), legajo.id, legajo.Fields()))
  {
    r := ValidateLegajoForUpdate(IdOf(legajo));
    if r.Fail? {
      return;
    }
    r := ValidateLegajoData(Snapshot(legajo));
    if r.Fail? {
      return;
    }
    r := ValidateNumeroLegajoUniqueForUpdate(db, legajo, f.legajoLookup);
    if r.Fail? {
      return;
    }
    r := LegajoDao.Actualizar(legajo, db, f.connect, f.legajoStatement);
  }

  /** eliminarTx: a positive id, then the logical delete on `conn`. */
  method EliminarTx(id: int, conn: Connection, f: Faults) returns (r: Outcome)
    modifies conn`pending, conn.db`tables
    ensures id <= 0 ==> r == Fail(IllegalArgument(InvalidId))
    ensures r.Ok? <==> id > 0 && !conn.closed && !f.legajoStatement && HasId(old(conn.View().legajos), id)
    ensures r.Fail? ==> conn.pending == old(conn.pending) && conn.db.tables == old(conn.db.tables)
    ensures r.Ok? ==> conn.View() == old(conn.View()).(legajos := SoftDelete(old(conn.View().legajos), id))
    ensures conn.autoCommit ==> conn.pending == old(conn.pending)
    ensures !conn.autoCommit ==> conn.db.tables == old(conn.db.tables)
  {
    r := ValidateLegajoId(id);
    if r.Fail? {
      return;
    }
    r := LegajoDao.EliminarTx(id, conn, f.legajoStatement);
  }

  /** getById: a positive id, and a visible file with it; a missing file is an error. */
  method GetById(db: Database, id: int, f: Faults) returns (r: Result<Legajo>)
    ensures id <= 0 ==> r == Failure(IllegalArgument(InvalidId))
    ensures id > 0 && f.legajoLookup ==> r == Failure(Sql(Unavailable))
    ensures id > 0 && !f.legajoLookup && FindActive(db.tables.legajos, id).None? ==> r == Failure(IllegalArgument(LegajoNotFound))
    ensures r.Success? <==> id > 0 && !f.legajoLookup && FindActive(db.tables.legajos, id).Some?
    ensures r.Success? ==> fresh(r.value) && LegajoDao.Hydrates(r.value, FindActive(db.tables.legajos, id).value)
  {
    var v := ValidateLegajoId(id);
    if v.Fail? {
      return Failure(v.error);
    }
    var found := LegajoDao.Leer(db, id, f.legajoLookup);
    if found.Failure? {
      return Failure(found.error);
    }
    if found.value == null {
      return Failure(IllegalArgument(LegajoNotFound));
    }
    r := Success(found.value);
  }

  /** getAll: every visible file. */
  method GetAll(db: Database, f: Faults) returns (r: Result<seq<Legajo>>)
    ensures r.Failure? <==> f.legajoLookup
    ensures r.Success? ==> |r.value| == |Active(db.tables.legajos)|
    ensures r.Success? ==> forall i :: 0 <= i < |r.value| ==>
      fresh(r.value[i]) && LegajoDao.Hydrates(r.value[i], Active(db.tables.legajos)[i])
  {
    r := LegajoDao.LeerTodos(db, f.legajoLookup);
  }
}
