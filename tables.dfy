/**
 * The two soft-delete tables `empleado` and `legajo`, as values, and the
 * meaning of every SQL statement the DAOs issue against them. A table is
 * the sequence of its rows in insertion order; rows are never removed,
 * deletion only sets the `eliminado` flag, and every read filters it.
 */
module Tables {
  import opened Wrappers
  import opened Entities
  import opened Text

  /** A row of a soft-delete table: Base's `id` and `eliminado`, and the data columns. */
  datatype Row<F> = Row(id: int, eliminado: bool, fields: F)

  /** The columns of a `legajo` row: its data and the foreign key `empleado_id`. */
  datatype LegajoColumns = LegajoColumns(data: LegajoFields, empleadoId: int)

  type EmpleadoRow = Row<EmpleadoFields>
  type LegajoRow = Row<LegajoColumns>

  /** The committed (or pending) contents of both tables. */
  datatype Tables = Tables(empleados: seq<EmpleadoRow>, legajos: seq<LegajoRow>)

  // ---------------------------------------------------------------------
  // Statements shared by both tables (the id / eliminado part of Base)
  // ---------------------------------------------------------------------

  /** Some row, deleted or not, carries `id`: an UPDATE `WHERE id = ?` affects a row. */
  predicate HasId<F>(rows: seq<Row<F>>, id: int)
    ensures FindActive(rows, id).Some? ==> HasId(rows, id)
  {
    exists i :: 0 <= i < |rows| && rows[i].id == id
  }

  /** The rows that `WHERE eliminado = FALSE` keeps, in table order. */
  function Active<F>(rows: seq<Row<F>>): (r: seq<Row<F>>)
    ensures forall k :: 0 <= k < |r| ==> r[k] in rows && !r[k].eliminado
    ensures forall i :: 0 <= i < |rows| && !rows[i].eliminado ==> rows[i] in r
    ensures |r| <= |rows|
  {
    if rows == [] then [] else (if rows[0].eliminado then [] else [rows[0]]) + Active(rows[1..])
  }

  /** The first row that `WHERE id = ? AND eliminado = FALSE` returns, if any. */
  function FindActive<F>(rows: seq<Row<F>>, id: int): (r: Option<Row<F>>)
    ensures r.Some? ==> r.value in rows && r.value.id == id && !r.value.eliminado
    ensures r.None? <==> forall i :: 0 <= i < |rows| && rows[i].id == id ==> rows[i].eliminado
  {
    if rows == [] then None
    else if rows[0].id == id && !rows[0].eliminado then Some(rows[0])
    else FindActive(rows[1..], id)
  }

  /** `UPDATE ... SET eliminado = TRUE WHERE id = ?`: matches on the id alone. */
  function SoftDelete<F>(rows: seq<Row<F>>, id: int): (r: seq<Row<F>>)
    ensures |r| == |rows|
  {
    if rows == [] then []
    else [if rows[0].id == id then rows[0].(eliminado := true) else rows[0]] + SoftDelete(rows[1..], id)
  }

  /** A soft delete keeps every row; it only raises the flag of the rows with that id. */
  lemma {:induction false} SoftDeleteAt<F>(rows: seq<Row<F>>, id: int, i: int)
    requires 0 <= i < |rows|
    ensures |SoftDelete(rows, id)| == |rows|
    ensures SoftDelete(rows, id)[i] == if rows[i].id == id then rows[i].(eliminado := true) else rows[i]
  {
    if i > 0 {
      SoftDeleteAt(rows[1..], id, i - 1);
    } else if |rows| > 1 {
      SoftDeleteAt(rows[1..], id, 0);
    }
  }

  /** After a soft delete no read sees a row with that id. */
  lemma SoftDeleteHides<F>(rows: seq<Row<F>>, id: int)
    ensures FindActive(SoftDelete(rows, id), id).None?
  {
    var r := SoftDelete(rows, id);
    forall i | 0 <= i < |r| && r[i].id == id
      ensures r[i].eliminado
    {
      SoftDeleteAt(rows, id, i);
    }
  }

  /** The `eliminado = FALSE` filter of every read hides exactly the deleted rows. */
  lemma ActiveIsTheVisibleRows<F>(rows: seq<Row<F>>, id: int)
    ensures FindActive(rows, id).Some? <==> exists k :: 0 <= k < |Active(rows)| && Active(rows)[k].id == id
  {
    var a := Active(rows);
    if FindActive(rows, id).Some? {
      var x := FindActive(rows, id).value;
      var i :| 0 <= i < |rows| && rows[i] == x;
      assert x in a;
    }
  }

  // ---------------------------------------------------------------------
  // Statements on `empleado`
  // ---------------------------------------------------------------------

  /** `UPDATE empleado SET <six data columns> WHERE id = ?`. */
  function UpdateEmpleados(rows: seq<EmpleadoRow>, id: int, f: EmpleadoFields): (r: seq<EmpleadoRow>)
    ensures |r| == |rows|
  {
    if rows == [] then []
    else [if rows[0].id == id then rows[0].(fields := f) else rows[0]] + UpdateEmpleados(rows[1..], id, f)
  }

  /** The employee update rewrites the data columns of the rows with that id, and nothing else. */
  lemma {:induction false} UpdateEmpleadosAt(rows: seq<EmpleadoRow>, id: int, f: EmpleadoFields, i: int)
    requires 0 <= i < |rows|
    ensures |UpdateEmpleados(rows, id, f)| == |rows|
    ensures UpdateEmpleados(rows, id, f)[i] == if rows[i].id == id then rows[i].(fields := f) else rows[i]
  {
    if i > 0 {
      UpdateEmpleadosAt(rows[1..], id, f, i - 1);
    } else if |rows| > 1 {
      UpdateEmpleadosAt(rows[1..], id, f, 0);
    }
  }

  // ---------------------------------------------------------------------
  // Statements on `legajo`
  // ---------------------------------------------------------------------

  /** `UPDATE legajo SET <five data columns> WHERE id = ?`: `empleado_id` is not in the SET list. */
  function UpdateLegajos(rows: seq<LegajoRow>, id: int, d: LegajoFields): (r: seq<LegajoRow>)
    ensures |r| == |rows|
  {
    if rows == [] then []
    else [if rows[0].id == id then rows[0].(fields := rows[0].fields.(data := d)) else rows[0]]
         + UpdateLegajos(rows[1..], id, d)
  }

  /** The file update rewrites the data of the rows with that id; the owner and the flag stay. */
  lemma {:induction false} UpdateLegajosAt(rows: seq<LegajoRow>, id: int, d: LegajoFields, i: int)
    requires 0 <= i < |rows|
    ensures |UpdateLegajos(rows, id, d)| == |rows|
    ensures UpdateLegajos(rows, id, d)[i] ==
      if rows[i].id == id then Row(id, rows[i].eliminado, LegajoColumns(d, rows[i].fields.empleadoId)) else rows[i]
  {
    if i > 0 {
      UpdateLegajosAt(rows[1..], id, d, i - 1);
    } else if |rows| > 1 {
      UpdateLegajosAt(rows[1..], id, d, 0);
    }
  }

  /** `SELECT * FROM legajo WHERE nro_legajo = ? AND eliminado = FALSE`, first row. */
  function LegajoByNumero(rows: seq<LegajoRow>, n: string): (r: Option<LegajoRow>)
    ensures r.Some? ==> r.value in rows && !r.value.eliminado && r.value.fields.data.numeroLegajo == Some(n)
    ensures r.None? <==> forall l :: l in rows && !l.eliminado ==> l.fields.data.numeroLegajo != Some(n)
  {
    if rows == [] then None
    else if !rows[0].eliminado && rows[0].fields.data.numeroLegajo == Some(n) then Some(rows[0])
    else LegajoByNumero(rows[1..], n)
  }

  // ---------------------------------------------------------------------
  // The employee read: SELECT ... FROM empleado e LEFT JOIN legajo l
  //   ON e.id = l.empleado_id AND l.eliminado = FALSE WHERE <q> AND e.eliminado = FALSE
  // ---------------------------------------------------------------------

  /** One result row of the join: the employee and the file it was joined with, if any. */
  datatype EmpleadoRead = EmpleadoRead(empleado: EmpleadoRow, legajo: Option<LegajoRow>)

  /** The WHERE clauses of the four employee queries. */
  datatype EmpleadoQuery =
    | All                               // leerTodos
    | ById(id: int)                     // leer
    | ByDni(dni: string)                // buscarPorDni
    | ByNombreApellido(filtro: string)  // buscarPorNombreApellido

  predicate Selects(q: EmpleadoQuery, e: EmpleadoRow) {
    match q
    case All => true
    case ById(id) => e.id == id
    case ByDni(d) => e.fields.dni == Some(d)
    case ByNombreApellido(p) =>
      (e.fields.nombre.Some? && Contains(e.fields.nombre.value, p))
      || (e.fields.apellido.Some? && Contains(e.fields.apellido.value, p))
  }

  /** The files the join condition pairs with employee `eid`: not deleted, `empleado_id = eid`. */
  function FilesOf(rows: seq<LegajoRow>, eid: int): (r: seq<LegajoRow>)
    ensures forall l :: l in r <==> l in rows && !l.eliminado && l.fields.empleadoId == eid
  {
    if rows == [] then []
    else (if !rows[0].eliminado && rows[0].fields.empleadoId == eid then [rows[0]] else [])
         + FilesOf(rows[1..], eid)
  }

  /** The result rows of a LEFT JOIN for one employee: one per joined file, or one with no file. */
  function Join(e: EmpleadoRow, legajos: seq<LegajoRow>): (r: seq<EmpleadoRead>)
    ensures |r| >= 1
    ensures forall k :: 0 <= k < |r| ==> r[k].empleado == e
    ensures forall k :: 0 <= k < |r| && r[k].legajo.Some? ==> r[k].legajo.value in FilesOf(legajos, e.id)
    ensures r[0].legajo.None? <==> FilesOf(legajos, e.id) == []
  {
    var fs := FilesOf(legajos, e.id);
    if fs == [] then [EmpleadoRead(e, None)]
    else seq(|fs|, k requires 0 <= k < |fs| => EmpleadoRead(e, Some(fs[k])))
  }

  /** The result rows one employee row contributes to a query. */
  function RowsFor(e: EmpleadoRow, legajos: seq<LegajoRow>, q: EmpleadoQuery): (r: seq<EmpleadoRead>)
    ensures r != [] <==> !e.eliminado && Selects(q, e)
    ensures forall k :: 0 <= k < |r| ==> r[k].empleado == e
  {
    if !e.eliminado && Selects(q, e) then Join(e, legajos) else []
  }

  /** The result rows of a query over the employee rows `es`, in table order. */
  function QueryRows(es: seq<EmpleadoRow>, legajos: seq<LegajoRow>, q: EmpleadoQuery): seq<EmpleadoRead> {
    if es == [] then [] else RowsFor(es[0], legajos, q) + QueryRows(es[1..], legajos, q)
  }

  function Query(t: Tables, q: EmpleadoQuery): seq<EmpleadoRead> {
    QueryRows(t.empleados, t.legajos, q)
  }

  /**
   * Every result row is a visible employee that the query selects, joined
   * with nothing or with one of its own visible files.
   */
  lemma {:induction false} QueryRowsSound(es: seq<EmpleadoRow>, legajos: seq<LegajoRow>, q: EmpleadoQuery, k: int)
    requires 0 <= k < |QueryRows(es, legajos, q)|
    ensures var r := QueryRows(es, legajos, q)[k];
      r.empleado in es && !r.empleado.eliminado && Selects(q, r.empleado)
      && (r.legajo.Some? ==> r.legajo.value in FilesOf(legajos, r.empleado.id))
  {
    var here := RowsFor(es[0], legajos, q);
    if k >= |here| {
      QueryRowsSound(es[1..], legajos, q, k - |here|);
    }
  }

  /** Every visible employee that the query selects appears in some result row. */
  lemma {:induction false} QueryRowsComplete(es: seq<EmpleadoRow>, legajos: seq<LegajoRow>, q: EmpleadoQuery, i: int)
    requires 0 <= i < |es| && !es[i].eliminado && Selects(q, es[i])
    ensures exists k :: 0 <= k < |QueryRows(es, legajos, q)| && QueryRows(es, legajos, q)[k].empleado == es[i]
  {
    var here := RowsFor(es[0], legajos, q);
    var r := QueryRows(es, legajos, q);
    if i == 0 {
      assert r[0] == here[0];
    } else {
      assert es[i] == es[1..][i - 1];
      QueryRowsComplete(es[1..], legajos, q, i - 1);
      var rest := QueryRows(es[1..], legajos, q);
      var k' :| 0 <= k' < |rest| && rest[k'].empleado == es[i];
      assert r[|here| + k'] == rest[k'];
    }
  }

  /** Appending an employee row appends its join rows (when it is visible and selected). */
  lemma {:induction false} QueryRowsAppend(es: seq<EmpleadoRow>, e: EmpleadoRow, legajos: seq<LegajoRow>, q: EmpleadoQuery)
    ensures QueryRows(es + [e], legajos, q) == QueryRows(es, legajos, q) + RowsFor(e, legajos, q)
  {
    if es == [] {
      assert es + [e] == [e];
    } else {
      var es' := es + [e];
      assert es'[0] == es[0];
      assert es'[1..] == es[1..] + [e];
      QueryRowsAppend(es[1..], e, legajos, q);
      var h := RowsFor(es[0], legajos, q);
      assert h + (QueryRows(es[1..], legajos, q) + RowsFor(e, legajos, q))
          == (h + QueryRows(es[1..], legajos, q)) + RowsFor(e, legajos, q);
    }
  }

  /** A query that selects no visible row yields no result rows. */
  lemma {:induction false} QueryRowsEmpty(es: seq<EmpleadoRow>, legajos: seq<LegajoRow>, q: EmpleadoQuery)
    requires forall i :: 0 <= i < |es| && !es[i].eliminado ==> !Selects(q, es[i])
    ensures QueryRows(es, legajos, q) == []
  {
    if es != [] {
      QueryRowsEmpty(es[1..], legajos, q);
    }
  }

  /** `buscarPorDni` finds nothing exactly when no visible employee holds that DNI. */
  lemma DniQueryEmpty(t: Tables, d: string)
    ensures Query(t, ByDni(d)) == [] <==>
      forall i :: 0 <= i < |t.empleados| && !t.empleados[i].eliminado ==> t.empleados[i].fields.dni != Some(d)
  {
    if Query(t, ByDni(d)) == [] {
      forall i | 0 <= i < |t.empleados| && !t.empleados[i].eliminado
        ensures t.empleados[i].fields.dni != Some(d)
      {
        if t.empleados[i].fields.dni == Some(d) {
          QueryRowsComplete(t.empleados, t.legajos, ByDni(d), i);
        }
      }
    } else {
      QueryRowsSound(t.empleados, t.legajos, ByDni(d), 0);
    }
  }

  // ---------------------------------------------------------------------
  // The composite writes of EmpleadoServiceImpl, as functions of the tables
  // ---------------------------------------------------------------------

  /** insertar: the employee row, then its file with the given foreign key. */
  function CreatePair(t: Tables, eid: int, ef: EmpleadoFields, lid: int, lf: LegajoFields, fk: int): Tables {
    Tables(t.empleados + [Row(eid, false, ef)], t.legajos + [Row(lid, false, LegajoColumns(lf, fk))])
  }

  /** actualizar: the file update, then the employee update. */
  function UpdatePair(t: Tables, eid: int, ef: EmpleadoFields, lid: int, lf: LegajoFields): Tables {
    Tables(UpdateEmpleados(t.empleados, eid, ef), UpdateLegajos(t.legajos, lid, lf))
  }

  /** eliminar: the file soft delete, then the employee soft delete. */
  function DeletePair(t: Tables, eid: int, lid: int): Tables {
    Tables(SoftDelete(t.empleados, eid), SoftDelete(t.legajos, lid))
  }
}
