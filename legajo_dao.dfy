/**
 * LegajoDAO over the abstract tables. The `Tx` forms run their statement
 * on the caller's connection and leave it open; the plain forms open
 * their own auto-commit connection, so their writes are committed at
 * once, and close it. Reads always use their own connection and hence
 * see the committed tables only.
 */
module LegajoDao {
  import opened Wrappers
  import opened Errors
  import opened Entities
  import opened Text
  import opened Tables
  import opened Jdbc

  /** `l` is the object mapResultSetToLegajo builds from `row`. */
  predicate Hydrates(l: Legajo, row: LegajoRow)
    reads l
  {
    l.id == row.id && !l.eliminado && l.Fields() == row.fields.data
  }

  /** The table after inserting a file with id `id`, data `d` and owner `empleadoId`. */
  function WithLegajo(t: Tables, id: int, d: LegajoFields, empleadoId: int): (r: Tables)
    ensures r.empleados == t.empleados
    ensures |r.legajos| == |t.legajos| + 1 && r.legajos[..|t.legajos|] == t.legajos
    ensures r.legajos[|t.legajos|] == Row(id, false, LegajoColumns(d, empleadoId))
  {
    t.(legajos := t.legajos + [Row(id, false, LegajoColumns(d, empleadoId))])
  }

  /**
   * What buscarPorNroLegajo finds for `nroLegajo` in `t`: nothing for a
   * null or blank number, else the first visible file with the trimmed number.
   */
  function NumeroHolder(t: Tables, nroLegajo: Option<string>): (r: Option<LegajoRow>)
    ensures IsNullOrBlank(nroLegajo) ==> r.None?
    ensures r.Some? ==> (r.value in t.legajos && !r.value.eliminado && nroLegajo.Some?
      && r.value.fields.data.numeroLegajo == Some(Trim(nroLegajo.value)))
    ensures r.None? && !IsNullOrBlank(nroLegajo) ==>
      forall j :: 0 <= j < |t.legajos| && !t.legajos[j].eliminado ==>
        t.legajos[j].fields.data.numeroLegajo != Some(Trim(nroLegajo.value))
  {
    if IsNullOrBlank(nroLegajo) then None else LegajoByNumero(t.legajos, Trim(nroLegajo.value))
  }

  /** crear(legajo): a file cannot exist without its employee, so this always fails. */
  method Crear(legajo: Legajo) returns (r: Outcome)
    ensures r == Fail(Unsupported)
  {
    r := Fail(Unsupported);
  }

  /** The two-argument crearTx: disabled in favour of the one that takes the owner's id. */
  method CrearTxSinEmpleado(legajo: Legajo, conn: Connection) returns (r: Outcome)
    ensures r == Fail(Unsupported)
  {
    r := Fail(Unsupported);
  }

  /**
   * crearTx(legajo, empleadoId, conn): inserts a visible row owned by
   * `empleadoId` under the next generated id, and writes that id back
   * onto `legajo` when the driver returns it.
   */
  method CrearTx(legajo: Legajo, empleadoId: int, conn: Connection, rejected: bool, keyReturned: bool)
    returns (r: Outcome)
    modifies legajo`id, conn`pending, conn.db`tables, conn.db`nextLegajoId
    ensures r.Ok? <==> !conn.closed && !rejected
    ensures conn.closed ==> r == Fail(Sql(ConnectionClosed))
    ensures !conn.closed && rejected ==> r == Fail(Sql(Rejected))
    ensures r.Fail? ==> (conn.pending == old(conn.pending) && conn.db.tables == old(conn.db.tables)
      && conn.db.nextLegajoId == old(conn.db.nextLegajoId) && legajo.id == old(legajo.id))
    ensures r.Ok? ==> (conn.View() == WithLegajo(old(conn.View()), old(conn.db.nextLegajoId), legajo.Fields(), empleadoId)
      && conn.db.nextLegajoId == old(conn.db.nextLegajoId) + 1
      && legajo.id == (if keyReturned then old(conn.db.nextLegajoId) else old(legajo.id)))
    ensures conn.autoCommit ==> conn.pending == old(conn.pending)
    ensures !conn.autoCommit ==> conn.db.tables == old(conn.db.tables)
    ensures legajo.Fields() == old(legajo.Fields()) && legajo.eliminado == old(legajo.eliminado)
  {
    if conn.closed {
      return Fail(Sql(ConnectionClosed));
    }
    if rejected {
      return Fail(Sql(Rejected));
    }
    var id := conn.db.nextLegajoId;
    conn.Execute(WithLegajo(conn.View(), id, legajo.Fields(), empleadoId));
    conn.db.nextLegajoId := id + 1;
    if keyReturned {
      legajo.SetId(id);
    }
    r := Ok;
  }

  /**
   * actualizarTx: rewrites the five data columns of the rows whose id is
   * `legajo.id`, deleted or not; the owner column stays. Zero matched
   * rows is an error.
   */
  method ActualizarTx(legajo: Legajo, conn: Connection, rejected: bool) returns (r: Outcome)
    modifies conn`pending, conn.db`tables
    ensures r.Ok? <==> !conn.closed && !rejected && HasId(old(conn.View().legajos), legajo.id)
    ensures conn.closed ==> r == Fail(Sql(ConnectionClosed))
    ensures !conn.closed && rejected ==> r == Fail(Sql(Rejected))
    ensures !conn.closed && !rejected && !HasId(old(conn.View().legajos), legajo.id) ==> r == Fail(Sql(RowNotFound))
    ensures r.Fail? ==> conn.pending == old(conn.pending) && conn.db.tables == old(conn.db.tables)
    ensures r.Ok? ==> conn.View() == old(conn.View()).(legajos := UpdateLegajos(old(conn.View().legajos), legajo.id, legajo.Fields()))
    ensures conn.autoCommit ==> conn.pending == old(conn.pending)
    ensures !conn.autoCommit ==> conn.db.tables == old(conn.db.tables)
  {
    if conn.closed {
      return Fail(Sql(ConnectionClosed));
    }
    if rejected {
      return Fail(Sql(Rejected));
    }
    var t := conn.View();
    if !HasId(t.legajos, legajo.id) {
      return Fail(Sql(RowNotFound));
    }
    conn.Execute(t.(legajos := UpdateLegajos(t.legajos, legajo.id, legajo.Fields())));
    r := Ok;
  }

  /** actualizar: actualizarTx on a connection of its own, committed at once. */
  method Actualizar(legajo: Legajo, db: Database, connectFails: bool, rejected: bool) returns (r: Outcome)
    modifies db`tables
    ensures r.Ok? <==> !connectFails && !rejected && HasId(old(db.tables.legajos), legajo.id)
    ensures connectFails ==> r == Fail(Sql(Unavailable))
    ensures !connectFails && rejected ==> r == Fail(Sql(Rejected))
    ensures r.Fail? ==> db.tables == old(db.tables)
    ensures r.Ok? ==> db.tables == old(db.tables).(legajos := UpdateLegajos(old(db.tables.legajos), legajo.id, legajo.Fields()))
  {
    var c := Open(db, connectFails);
    if c.Failure? {
      return Fail(c.error);
    }
    var conn := c.value;
    r := ActualizarTx(legajo, conn, rejected);
    var _ := conn.Close(false);
  }

  /**
   * eliminarTx: the logical delete, `eliminado = TRUE` on the rows whose
   * id is `id`; every other column, `estado` included, stays.
   */
  method EliminarTx(id: int, conn: Connection, rejected: bool) returns (r: Outcome)
    modifies conn`pending, conn.db`tables
    ensures r.Ok? <==> !conn.closed && !rejected && HasId(old(conn.View().legajos), id)
    ensures conn.closed ==> r == Fail(Sql(ConnectionClosed))
    ensures !conn.closed && rejected ==> r == Fail(Sql(Rejected))
    ensures !conn.closed && !rejected && !HasId(old(conn.View().legajos), id) ==> r == Fail(Sql(RowNotFound))
    ensures r.Fail? ==> conn.pending == old(conn.pending) && conn.db.tables == old(conn.db.tables)
    ensures r.Ok? ==> conn.View() == old(conn.View()).(legajos := SoftDelete(old(conn.View().legajos), id))
    ensures conn.autoCommit ==> conn.pending == old(conn.pending)
    ensures !conn.autoCommit ==> conn.db.tables == old(conn.db.tables)
  {
    if conn.closed {
      return Fail(Sql(ConnectionClosed));
    }
    if rejected {
      return Fail(Sql(Rejected));
    }
    var t := conn.View();
    if !HasId(t.legajos, id) {
      return Fail(Sql(RowNotFound));
    }
    conn.Execute(t.(legajos := SoftDelete(t.legajos, id)));
    r := Ok;
  }

  /** eliminar: eliminarTx on a connection of its own, committed at once. */
  method Eliminar(id: int, db: Database, connectFails: bool, rejected: bool) returns (r: Outcome)
    modifies db`tables
    ensures r.Ok? <==> !connectFails && !rejected && HasId(old(db.tables.legajos), id)
    ensures connectFails ==> r == Fail(Sql(Unavailable))
    ensures !connectFails && rejected ==> r == Fail(Sql(Rejected))
    ensures r.Fail? ==> db.tables == old(db.tables)
    ensures r.Ok? ==> db.tables == old(db.tables).(legajos := SoftDelete(old(db.tables.legajos), id))
  {
    var c := Open(db, connectFails);
    if c.Failure? {
      return Fail(c.error);
    }
    var conn := c.value;
    r := EliminarTx(id, conn, rejected);
    var _ := conn.Close(false);
  }

  /** mapResultSetToLegajo: a new object holding the row; `eliminado` keeps its default. */
  method MapRow(row: LegajoRow) returns (l: Legajo)
    ensures fresh(l) && Hydrates(l, row)
  {
    var d := row.fields.data;
    l := new Legajo(d.numeroLegajo, d.categoria, d.estado, d.fechaAlta, d.observaciones);
    l.SetId(row.id);
  }

  /** leer: the visible file with that id, or null. */
  method Leer(db: Database, id: int, connectFails: bool) returns (r: Result<Legajo?>)
    ensures r.Failure? <==> connectFails
    ensures r.Failure? ==> r.error == Sql(Unavailable)
    ensures r.Success? ==> (r.value == null <==> FindActive(db.tables.legajos, id).None?)
    ensures r.Success? && r.value != null ==> fresh(r.value) && Hydrates(r.value, FindActive(db.tables.legajos, id).value)
  {
    var c := Open(db, connectFails);
    if c.Failure? {
      return Failure(c.error);
    }
    var found := FindActive(c.value.View().legajos, id);
    var _ := c.value.Close(false);
    if found.None? {
      return Success(null);
    }
    var l := MapRow(found.value);
    r := Success(l);
  }

  /** leerTodos: one new object per visible row, in table order. */
  method LeerTodos(db: Database, connectFails: bool) returns (r: Result<seq<Legajo>>)
    ensures r.Failure? <==> connectFails
    ensures r.Failure? ==> r.error == Sql(Unavailable)
    ensures r.Success? ==> |r.value| == |Active(db.tables.legajos)|
    ensures r.Success? ==> forall i :: 0 <= i < |r.value| ==>
      fresh(r.value[i]) && Hydrates(r.value[i], Active(db.tables.legajos)[i])
  {
    var c := Open(db, connectFails);
    if c.Failure? {
      return Failure(c.error);
    }
    var rows := Active(c.value.View().legajos);
    var _ := c.value.Close(false);
    var legajos: seq<Legajo> := [];
    var i := 0;
    while i < |rows|
      invariant 0 <= i <= |rows| && |legajos| == i
      invariant forall k :: 0 <= k < i ==> fresh(legajos[k]) && Hydrates(legajos[k], rows[k])
    {
      var l := MapRow(rows[i]);
      legajos := legajos + [l];
      i := i + 1;
    }
    r := Success(legajos);
  }

  /**
   * buscarPorNroLegajo: null for a null or blank number, without touching
   * the store; otherwise the first visible file whose number equals the
   * trimmed argument exactly.
   */
  method BuscarPorNroLegajo(db: Database, nroLegajo: Option<string>, connectFails: bool) returns (r: Result<Legajo?>)
    ensures IsNullOrBlank(nroLegajo) ==> r == Success(null)
    ensures !IsNullOrBlank(nroLegajo) ==> (r.Failure? <==> connectFails)
    ensures r.Failure? ==> r.error == Sql(Unavailable)
    ensures r.Success? ==> (r.value == null <==> NumeroHolder(db.tables, nroLegajo).None?)
    ensures r.Success? && r.value != null ==> fresh(r.value) && Hydrates(r.value, NumeroHolder(db.tables, nroLegajo).value)
  {
    if IsNullOrBlank(nroLegajo) {
      return Success(null);
    }
    var c := Open(db, connectFails);
    if c.Failure? {
      return Failure(c.error);
    }
    var found := LegajoByNumero(c.value.View().legajos, Trim(nroLegajo.value));
    var _ := c.value.Close(false);
    if found.None? {
      return Success(null);
    }
    var l := MapRow(found.value);
    r := Success(l);
  }
}
