/**
 * EmpleadoDAO over the abstract tables. Writes follow the same pattern as
 * LegajoDao; every read is the LEFT JOIN of `Tables.Query`, and each
 * result row becomes a new Empleado with its file attached when the join
 * found one.
 */
module EmpleadoDao {
  import opened Wrappers
  import opened Errors
  import opened Entities
  import opened Text
  import opened Tables
  import opened Jdbc
  import LegajoDao

  /**
   * `e` is the object mapRowToEmpleado builds from `read`: the employee's
   * columns, and a file exactly when the joined file id is positive.
   */
  predicate Hydrates(e: Empleado, read: EmpleadoRead)
    reads e, e.legajo
  {
    e.id == read.empleado.id && !e.eliminado && e.Fields() == read.empleado.fields
    && (e.legajo != null <==> read.legajo.Some? && read.legajo.value.id > 0)
    && (e.legajo != null ==> LegajoDao.Hydrates(e.legajo, read.legajo.value))
  }

  /**
   * What buscarPorDni finds for `dni` in `t`: nothing for a null or blank
   * DNI, else the employee of the first result row of the DNI query.
   */
  function DniHolder(t: Tables, dni: Option<string>): (r: Option<EmpleadoRow>)
    ensures IsNullOrBlank(dni) ==> r.None?
    ensures r.Some? ==> (r.value in t.empleados && !r.value.eliminado && dni.Some?
      && r.value.fields.dni == Some(Trim(dni.value)))
    ensures r.None? && !IsNullOrBlank(dni) ==>
      forall i :: 0 <= i < |t.empleados| && !t.empleados[i].eliminado ==> t.empleados[i].fields.dni != Some(Trim(dni.value))
  {
    if IsNullOrBlank(dni) then None
    else
      var rows := Query(t, ByDni(Trim(dni.value)));
      DniQueryEmpty(t, Trim(dni.value));
      if rows == [] then None
      else
        QueryRowsSound(t.empleados, t.legajos, ByDni(Trim(dni.value)), 0);
        Some(rows[0].empleado)
  }

  /** The table after inserting an employee with id `id` and data `f`. */
  function WithEmpleado(t: Tables, id: int, f: EmpleadoFields): (r: Tables)
    ensures r.legajos == t.legajos
    ensures |r.empleados| == |t.empleados| + 1 && r.empleados[..|t.empleados|] == t.empleados
    ensures r.empleados[|t.empleados|] == Row(id, false, f)
  {
    t.(empleados := t.empleados + [Row(id, false, f)])
  }

  /**
   * crearTx: inserts a visible row under the next generated id and, when
   * the driver returns the key, writes it onto `empleado`; otherwise the
   * object's id is left as it was.
   */
  method CrearTx(empleado: Empleado, conn: Connection, rejected: bool, keyReturned: bool) returns (r: Outcome)
    modifies empleado`id, conn`pending, conn.db`tables, conn.db`nextEmpleadoId
    ensures r.Ok? <==> !conn.closed && !rejected
    ensures conn.closed ==> r == Fail(Sql(ConnectionClosed))
    ensures !conn.closed && rejected ==> r == Fail(Sql(Rejected))
    ensures r.Fail? ==> (conn.pending == old(conn.pending) && conn.db.tables == old(conn.db.tables)
      && conn.db.nextEmpleadoId == old(conn.db.nextEmpleadoId) && empleado.id == old(empleado.id))
    ensures r.Ok? ==> (conn.View() == WithEmpleado(old(conn.View()), old(conn.db.nextEmpleadoId), empleado.Fields())
      && conn.db.nextEmpleadoId == old(conn.db.nextEmpleadoId) + 1
      && empleado.id == (if keyReturned then old(conn.db.nextEmpleadoId) else old(empleado.id)))
    ensures conn.autoCommit ==> conn.pending == old(conn.pending)
    ensures !conn.autoCommit ==> conn.db.tables == old(conn.db.tables)
    ensures empleado.Fields() == old(empleado.Fields()) && empleado.legajo == old(empleado.legajo)
  {
    if conn.closed {
      return Fail(Sql(ConnectionClosed));
    }
    if rejected {
      return Fail(Sql(Rejected));
    }
    var id := conn.db.nextEmpleadoId;
    conn.Execute(WithEmpleado(conn.View(), id, empleado.Fields()));
    conn.db.nextEmpleadoId := id + 1;
    if keyReturned {
      empleado.SetId(id);
    }
    r := Ok;
  }

  /** crear: crearTx on a connection of its own, committed at once. */
  method Crear(empleado: Empleado, db: Database, connectFails: bool, rejected: bool, keyReturned: bool)
    returns (r: Outcome)
    modifies empleado`id, db`tables, db`nextEmpleadoId
    ensures r.Ok? <==> !connectFails && !rejected
    ensures connectFails ==> r == Fail(Sql(Unavailable))
    ensures !connectFails && rejected ==> r == Fail(Sql(Rejected))
    ensures r.Fail? ==> db.tables == old(db.tables) && db.nextEmpleadoId == old(db.nextEmpleadoId) && empleado.id == old(empleado.id)
    ensures r.Ok? ==> (db.tables == WithEmpleado(old(db.tables), old(db.nextEmpleadoId), empleado.Fields())
      && db.nextEmpleadoId == old(db.nextEmpleadoId) + 1
      && empleado.id == (if keyReturned then old(db.nextEmpleadoId) else old(empleado.id)))
  {
    var c := Open(db, connectFails);
    if c.Failure? {
      return Fail(c.error);
    }
    var conn := c.value;
    r := CrearTx(empleado, conn, rejected, keyReturned);
    var _ := conn.Close(false);
  }

  /** actualizarTx: rewrites the six data columns of the rows whose id is `empleado.id`. */
  method ActualizarTx(empleado: Empleado, conn: Connection, rejected: bool) returns (r: Outcome)
    modifies conn`pending, conn.db`tables
    ensures r.Ok? <==> !conn.closed && !rejected && HasId(old(conn.View().empleados), empleado.id)
    ensures conn.closed ==> r == Fail(Sql(ConnectionClosed))
    ensures !conn.closed && rejected ==> r == Fail(Sql(Rejected))
    ensures !conn.closed && !rejected && !HasId(old(conn.View().empleados), empleado.id) ==> r == Fail(Sql(RowNotFound))
    ensures r.Fail? ==> conn.pending == old(conn.pending) && conn.db.tables == old(conn.db.tables)
    ensures r.Ok? ==> conn.View() == old(conn.View()).(empleados := UpdateEmpleados(old(conn.View().empleados), empleado.id, empleado.Fields()))
    ensures conn.autoCommit ==> conn.pending == old(conn.pending)
    ensures !conn.autoCommit ==> conn.db.tables == old(conn.db.tables)
  {
    if conn.closed {
      return Fail(Sql(ConnectionClosed));
    }
    if rejected {
      return Fail(Sql(Rejected));
    }
    var t := conn.View();
    if !HasId(t.empleados, empleado.id) {
      return Fail(Sql(RowNotFound));
    }
    conn.Execute(t.(empleados := UpdateEmpleados(t.empleados, empleado.id, empleado.Fields())));
    r := Ok;
  }

  /** actualizar: actualizarTx on a connection of its own, committed at once. */
  method Actualizar(empleado: Empleado, db: Database, connectFails: bool, rejected: bool) returns (r: Outcome)
    modifies db`tables
    ensures r.Ok? <==> !connectFails && !rejected && HasId(old(db.tables.empleados), empleado.id)
    ensures connectFails ==> r == Fail(Sql(Unavailable))
    ensures !connectFails && rejected ==> r == Fail(Sql(Rejected))
    ensures r.Fail? ==> db.tables == old(db.tables)
    ensures r.Ok? ==> db.tables == old(db.tables).(empleados := UpdateEmpleados(old(db.tables.empleados), empleado.id, empleado.Fields()))
  {
    var c := Open(db, connectFails);
    if c.Failure? {
      return Fail(c.error);
    }
    var conn := c.value;
    r := ActualizarTx(empleado, conn, rejected);
    var _ := conn.Close(false);
  }

  /** eliminarTx: the logical delete of the rows whose id is `id`. */
  method EliminarTx(id: int, conn: Connection, rejected: bool) returns (r: Outcome)
    modifies conn`pending, conn.db`tables
    ensures r.Ok? <==> !conn.closed && !rejected && HasId(old(conn.View().empleados), id)
    ensures conn.closed ==> r == Fail(Sql(ConnectionClosed))
    ensures !conn.closed && rejected ==> r == Fail(Sql(Rejected))
    ensures !conn.closed && !rejected && !HasId(old(conn.View().empleados), id) ==> r == Fail(Sql(RowNotFound))
    ensures r.Fail? ==> conn.pending == old(conn.pending) && conn.db.tables == old(conn.db.tables)
    ensures r.Ok? ==> conn.View() == old(conn.View()).(empleados := SoftDelete(old(conn.View().empleados), id))
    ensures conn.autoCommit ==> conn.pending == old(conn.pending)
    ensures !conn.autoCommit ==> conn.db.tables == old(conn.db.tables)
  {
    if conn.closed {
      return Fail(Sql(ConnectionClosed));
    }
    if rejected {
      return Fail(Sql(Rejected));
    }
    var t := conn.View();
    if !HasId(t.empleados, id) {
      return Fail(Sql(RowNotFound));
    }
    conn.Execute(t.(empleados := SoftDelete(t.empleados, id)));
    r := Ok;
  }

  /** eliminar: eliminarTx on a connection of its own, committed at once. */
  method Eliminar(id: int, db: Database, connectFails: bool, rejected: bool) returns (r: Outcome)
    modifies db`tables
    ensures r.Ok? <==> !connectFails && !rejected && HasId(old(db.tables.empleados), id)
    ensures connectFails ==> r == Fail(Sql(Unavailable))
    ensures !connectFails && rejected ==> r == Fail(Sql(Rejected))
    ensures r.Fail? ==> db.tables == old(db.tables)
    ensures r.Ok? ==> db.tables == old(db.tables).(empleados := SoftDelete(old(db.tables.empleados), id))
  {
    var c := Open(db, connectFails);
    if c.Failure? {
      return Fail(c.error);
    }
    var conn := c.value;
    r := EliminarTx(id, conn, rejected);
    var _ := conn.Close(false);
  }

  /** mapRowToEmpleado: a new employee, with a new file when the joined file id is positive. */
  method MapRow(read: EmpleadoRead) returns (e: Empleado)
    ensures fresh(e) && (e.legajo != null ==> fresh(e.legajo))
    ensures Hydrates(e, read)
  {
    var f := read.empleado.fields;
    e := new Empleado(f.nombre, f.apellido, f.dni, f.email, f.fechaIngreso, f.area, null);
    e.SetId(read.empleado.id);
    if read.legajo.Some? && read.legajo.value.id > 0 {
      var l := LegajoDao.MapRow(read.legajo.value);
      e.SetLegajo(l);
    }
  }

  /** The `while (rs.next())` loop of leerTodos and buscarPorNombreApellido. */
  method MapRows(results: seq<EmpleadoRead>) returns (es: seq<Empleado>)
    ensures |es| == |results|
    ensures forall i :: 0 <= i < |es| ==> fresh(es[i]) && Hydrates(es[i], results[i])
  {
    es := [];
    var i := 0;
    while i < |results|
      invariant 0 <= i <= |results| && |es| == i
      invariant forall k :: 0 <= k < i ==> fresh(es[k]) && Hydrates(es[k], results[k])
    {
      var e := MapRow(results[i]);
      es := es + [e];
      i := i + 1;
    }
  }

  /** The first result row of a query, mapped, or null when there is none. */
  method First(rows: seq<EmpleadoRead>) returns (e: Empleado?)
    ensures e == null <==> rows == []
    ensures e != null ==> fresh(e) && Hydrates(e, rows[0])
  {
    if rows == [] {
      return null;
    }
    e := MapRow(rows[0]);
  }

  /** leer: the visible employee with that id, joined with its visible file, or null. */
  method Leer(db: Database, id: int, connectFails: bool) returns (r: Result<Empleado?>)
    ensures r.Failure? <==> connectFails
    ensures r.Failure? ==> r.error == Sql(Unavailable)
    ensures r.Success? ==> (r.value == null <==> Query(db.tables, ById(id)) == [])
    ensures r.Success? && r.value != null ==> fresh(r.value) && Hydrates(r.value, Query(db.tables, ById(id))[0])
  {
    var c := Open(db, connectFails);
    if c.Failure? {
      return Failure(c.error);
    }
    var rows := Query(c.value.View(), ById(id));
    var _ := c.value.Close(false);
    var e := First(rows);
    r := Success(e);
  }

  /** leerTodos: one new employee per result row of the join over all visible employees. */
  method LeerTodos(db: Database, connectFails: bool) returns (r: Result<seq<Empleado>>)
    ensures r.Failure? <==> connectFails
    ensures r.Failure? ==> r.error == Sql(Unavailable)
    ensures r.Success? ==> |r.value| == |Query(db.tables, All)|
    ensures r.Success? ==> forall i :: 0 <= i < |r.value| ==> fresh(r.value[i]) && Hydrates(r.value[i], Query(db.tables, All)[i])
  {
    var c := Open(db, connectFails);
    if c.Failure? {
      return Failure(c.error);
    }
    var rows := Query(c.value.View(), All);
    var _ := c.value.Close(false);
    var es := MapRows(rows);
    r := Success(es);
  }

  /**
   * buscarPorDni: null for a null or blank DNI, without touching the
   * store; otherwise the first visible employee whose DNI equals the
   * trimmed argument exactly.
   */
  method BuscarPorDni(db: Database, dni: Option<string>, connectFails: bool) returns (r: Result<Empleado?>)
    ensures IsNullOrBlank(dni) ==> r == Success(null)
    ensures !IsNullOrBlank(dni) ==> (r.Failure? <==> connectFails)
    ensures r.Failure? ==> r.error == Sql(Unavailable)
    ensures r.Success? ==> (r.value == null <==> DniHolder(db.tables, dni).None?)
    ensures r.Success? && r.value != null ==> fresh(r.value) && r.value.id == DniHolder(db.tables, dni).value.id
    ensures !IsNullOrBlank(dni) && r.Success? && r.value != null ==>
      Hydrates(r.value, Query(db.tables, ByDni(Trim(dni.value)))[0])
  {
    if IsNullOrBlank(dni) {
      return Success(null);
    }
    var c := Open(db, connectFails);
    if c.Failure? {
      return Failure(c.error);
    }
    var rows := Query(c.value.View(), ByDni(Trim(dni.value)));
    var _ := c.value.Close(false);
    var e := First(rows);
    r := Success(e);
  }

  /**
   * buscarPorNombreApellido: an empty list for a null or blank filter,
   * without touching the store; otherwise the visible employees whose
   * name or surname contains the trimmed filter.
   */
  method BuscarPorNombreApellido(db: Database, filtro: Option<string>, connectFails: bool)
    returns (r: Result<seq<Empleado>>)
    ensures IsNullOrBlank(filtro) ==> r == Success([])
    ensures !IsNullOrBlank(filtro) ==> (r.Failure? <==> connectFails)
    ensures r.Failure? ==> r.error == Sql(Unavailable)
    ensures !IsNullOrBlank(filtro) && r.Success? ==>
      var rows := Query(db.tables, ByNombreApellido(Trim(filtro.value)));
      |r.value| == |rows| && forall i :: 0 <= i < |rows| ==> fresh(r.value[i]) && Hydrates(r.value[i], rows[i])
  {
    if IsNullOrBlank(filtro) {
      return Success([]);
    }
    var c := Open(db, connectFails);
    if c.Failure? {
      return Failure(c.error);
    }
    var rows := Query(c.value.View(), ByNombreApellido(Trim(filtro.value)));
    var _ := c.value.Close(false);
    var es := MapRows(rows);
    r := Success(es);
  }
}
