/**
 * The invariants that must hold after every committed operation (the
 * one-to-one association, the two natural-key uniqueness rules, fresh
 * surrogate ids) and the proofs that each composite write of
 * EmpleadoServiceImpl preserves them once its checks have passed.
 */
module Invariants {
  import opened Wrappers
  import opened Entities
  import opened Tables

  /** Ids are positive, below the next value of the counter, and increase along the table. */
  predicate IdsFresh<F>(rows: seq<Row<F>>, next: int) {
    (forall i :: 0 <= i < |rows| ==> 0 < rows[i].id < next)
    && (forall i, j :: 0 <= i < j < |rows| ==> rows[i].id < rows[j].id)
  }

  predicate IsActiveEmpleado(es: seq<EmpleadoRow>, id: int) {
    exists i :: 0 <= i < |es| && !es[i].eliminado && es[i].id == id
  }

  /** Every visible employee is joined with exactly one visible file. */
  predicate OneFileEach(t: Tables) {
    forall i :: 0 <= i < |t.empleados| && !t.empleados[i].eliminado ==>
      |FilesOf(t.legajos, t.empleados[i].id)| == 1
  }

  /** Every visible file belongs to a visible employee. */
  predicate FilesOwned(t: Tables) {
    forall j :: 0 <= j < |t.legajos| && !t.legajos[j].eliminado ==>
      IsActiveEmpleado(t.empleados, t.legajos[j].fields.empleadoId)
  }

  /** No two visible employees share a DNI. */
  predicate DniUnique(es: seq<EmpleadoRow>) {
    forall i, j :: 0 <= i < j < |es| && !es[i].eliminado && !es[j].eliminado && es[i].fields.dni.Some? ==>
      es[i].fields.dni != es[j].fields.dni
  }

  /** No two visible files share a file number. */
  predicate NumeroUnique(ls: seq<LegajoRow>) {
    forall i, j :: 0 <= i < j < |ls| && !ls[i].eliminado && !ls[j].eliminado && ls[i].fields.data.numeroLegajo.Some? ==>
      ls[i].fields.data.numeroLegajo != ls[j].fields.data.numeroLegajo
  }

  predicate Inv(t: Tables, nextEmpleadoId: int, nextLegajoId: int) {
    0 < nextEmpleadoId && 0 < nextLegajoId
    && IdsFresh(t.empleados, nextEmpleadoId) && IdsFresh(t.legajos, nextLegajoId)
    && OneFileEach(t) && FilesOwned(t)
    && DniUnique(t.empleados) && NumeroUnique(t.legajos)
  }

  lemma EmptyStoreSatisfiesInv()
    ensures Inv(Tables([], []), 1, 1)
  {
  }

  /** A row stored under the counter's current value keeps the ids fresh for the next value. */
  lemma AppendKeepsIdsFresh<F>(rows: seq<Row<F>>, r: Row<F>, next: int)
    requires IdsFresh(rows, next) && r.id == next && 0 < next
    ensures IdsFresh(rows + [r], next + 1)
  {
  }

  /**
   * The counters only bound the stored ids from above, so the invariant
   * survives counters that moved on, as they do when a rolled-back insert
   * has consumed an id.
   */
  lemma InvForLargerCounters(t: Tables, nextE: int, nextL: int, nextE': int, nextL': int)
    requires Inv(t, nextE, nextL) && nextE <= nextE' && nextL <= nextL'
    ensures Inv(t, nextE', nextL')
  {
  }

  // ---------------------------------------------------------------------
  // How the join reacts to each write
  // ---------------------------------------------------------------------

  lemma {:induction false} FilesOfAppend(ls: seq<LegajoRow>, l: LegajoRow, o: int)
    ensures FilesOf(ls + [l], o) == FilesOf(ls, o) + (if !l.eliminado && l.fields.empleadoId == o then [l] else [])
  {
    if ls == [] {
      assert ls + [l] == [l];
    } else {
      assert (ls + [l])[0] == ls[0];
      assert (ls + [l])[1..] == ls[1..] + [l];
      FilesOfAppend(ls[1..], l, o);
    }
  }

  /** A file update never changes how many files the join pairs with an employee. */
  lemma {:induction false} FilesOfUpdate(ls: seq<LegajoRow>, lid: int, d: LegajoFields, o: int)
    ensures |FilesOf(UpdateLegajos(ls, lid, d), o)| == |FilesOf(ls, o)|
  {
    if ls != [] {
      FilesOfUpdate(ls[1..], lid, d, o);
    }
  }

  /** Deleting a file that does not belong to `o` leaves the files of `o` as they were. */
  lemma {:induction false} FilesOfSoftDeleteOther(ls: seq<LegajoRow>, lid: int, o: int)
    requires forall j :: 0 <= j < |ls| && ls[j].id == lid && !ls[j].eliminado ==> ls[j].fields.empleadoId != o
    ensures FilesOf(SoftDelete(ls, lid), o) == FilesOf(ls, o)
  {
    if ls != [] {
      assert forall j :: 0 <= j < |ls[1..]| ==> ls[1..][j] == ls[j + 1];
      FilesOfSoftDeleteOther(ls[1..], lid, o);
    }
  }

  /** When only row `i` can answer a query, the query yields exactly that row's join rows. */
  lemma {:induction false} QueryRowsSingle(es: seq<EmpleadoRow>, ls: seq<LegajoRow>, q: EmpleadoQuery, i: int)
    requires 0 <= i < |es|
    requires forall j :: 0 <= j < |es| && j != i ==> es[j].eliminado || !Selects(q, es[j])
    ensures QueryRows(es, ls, q) == RowsFor(es[i], ls, q)
  {
    if i == 0 {
      QueryRowsEmpty(es[1..], ls, q);
    } else {
      QueryRowsSingle(es[1..], ls, q, i - 1);
    }
  }

  /** With the invariant, `leer` finds a visible employee together with its only file. */
  lemma ConsistentReadHasFile(t: Tables, nextE: int, nextL: int, i: int)
    requires Inv(t, nextE, nextL)
    requires 0 <= i < |t.empleados| && !t.empleados[i].eliminado
    ensures Query(t, ById(t.empleados[i].id)) ==
      [EmpleadoRead(t.empleados[i], Some(FilesOf(t.legajos, t.empleados[i].id)[0]))]
  {
    QueryRowsSingle(t.empleados, t.legajos, ById(t.empleados[i].id), i);
  }

  /** No visible file names `o` as its owner, so the join pairs `o` with nothing. */
  lemma {:induction false} FilesOfNone(ls: seq<LegajoRow>, o: int)
    requires forall j :: 0 <= j < |ls| && !ls[j].eliminado ==> ls[j].fields.empleadoId != o
    ensures FilesOf(ls, o) == []
  {
    if ls != [] {
      assert forall j :: 0 <= j < |ls[1..]| ==> ls[1..][j] == ls[j + 1];
      FilesOfNone(ls[1..], o);
    }
  }

  /** The counter's next value is no visible file's owner yet. */
  lemma {:induction false} NoFilesForFreshId(t: Tables, nextE: int)
    requires IdsFresh(t.empleados, nextE) && FilesOwned(t)
    ensures FilesOf(t.legajos, nextE) == []
  {
    var ls := t.legajos;
    forall j | 0 <= j < |ls| && !ls[j].eliminado
      ensures ls[j].fields.empleadoId != nextE
    {
      var k :| 0 <= k < |t.empleados| && !t.empleados[k].eliminado && t.empleados[k].id == ls[j].fields.empleadoId;
    }
    FilesOfNone(ls, nextE);
  }

  // ---------------------------------------------------------------------
  // insertar
  // ---------------------------------------------------------------------

  lemma CreateKeepsOneFileEach(t: Tables, nextE: int, nextL: int, ef: EmpleadoFields, lf: LegajoFields)
    requires IdsFresh(t.empleados, nextE) && OneFileEach(t) && FilesOwned(t)
    ensures OneFileEach(CreatePair(t, nextE, ef, nextL, lf, nextE))
  {
    var e := Row(nextE, false, ef);
    var l := Row(nextL, false, LegajoColumns(lf, nextE));
    var t' := CreatePair(t, nextE, ef, nextL, lf, nextE);
    var es, es' := t.empleados, t'.empleados;
    NoFilesForFreshId(t, nextE);
    forall i | 0 <= i < |es'| && !es'[i].eliminado
      ensures |FilesOf(t'.legajos, es'[i].id)| == 1
    {
      FilesOfAppend(t.legajos, l, es'[i].id);
      if i == |es| {
        assert es'[i] == e;
      } else {
        assert es'[i] == es[i];
      }
    }
  }

  lemma CreateKeepsFilesOwned(t: Tables, nextE: int, nextL: int, ef: EmpleadoFields, lf: LegajoFields)
    requires FilesOwned(t)
    ensures FilesOwned(CreatePair(t, nextE, ef, nextL, lf, nextE))
  {
    var t' := CreatePair(t, nextE, ef, nextL, lf, nextE);
    var es, ls, es', ls' := t.empleados, t.legajos, t'.empleados, t'.legajos;
    forall j | 0 <= j < |ls'| && !ls'[j].eliminado
      ensures IsActiveEmpleado(es', ls'[j].fields.empleadoId)
    {
      if j == |ls| {
        assert es'[|es|] == Row(nextE, false, ef);
      } else {
        assert ls'[j] == ls[j];
        var k :| 0 <= k < |es| && !es[k].eliminado && es[k].id == ls[j].fields.empleadoId;
        assert es'[k] == es[k];
      }
    }
  }

  lemma CreateKeepsDniUnique(t: Tables, nextE: int, nextL: int, ef: EmpleadoFields, lf: LegajoFields)
    requires DniUnique(t.empleados)
    requires ef.dni.Some? && Query(t, ByDni(ef.dni.value)) == []
    ensures DniUnique(CreatePair(t, nextE, ef, nextL, lf, nextE).empleados)
  {
    var es' := CreatePair(t, nextE, ef, nextL, lf, nextE).empleados;
    DniQueryEmpty(t, ef.dni.value);
    assert forall i :: 0 <= i < |t.empleados| ==> es'[i] == t.empleados[i];
  }

  lemma CreateKeepsNumeroUnique(t: Tables, nextE: int, nextL: int, ef: EmpleadoFields, lf: LegajoFields)
    requires NumeroUnique(t.legajos)
    requires lf.numeroLegajo.Some? && LegajoByNumero(t.legajos, lf.numeroLegajo.value).None?
    ensures NumeroUnique(CreatePair(t, nextE, ef, nextL, lf, nextE).legajos)
  {
    var ls, ls' := t.legajos, CreatePair(t, nextE, ef, nextL, lf, nextE).legajos;
    assert forall j :: 0 <= j < |ls| ==> ls'[j] == ls[j];
    forall j | 0 <= j < |ls| && !ls[j].eliminado
      ensures ls[j].fields.data.numeroLegajo != lf.numeroLegajo
    {
      assert ls[j] in ls;
    }
  }

  /**
   * insertar keeps the invariant once its two uniqueness checks have found
   * nothing and the file's foreign key is the employee's new id.
   */
  lemma CreatePreservesInv(t: Tables, nextE: int, nextL: int, ef: EmpleadoFields, lf: LegajoFields)
    requires Inv(t, nextE, nextL)
    requires ef.dni.Some? && Query(t, ByDni(ef.dni.value)) == []
    requires lf.numeroLegajo.Some? && LegajoByNumero(t.legajos, lf.numeroLegajo.value).None?
    ensures Inv(CreatePair(t, nextE, ef, nextL, lf, nextE), nextE + 1, nextL + 1)
  {
    AppendKeepsIdsFresh(t.empleados, Row(nextE, false, ef), nextE);
    AppendKeepsIdsFresh(t.legajos, Row(nextL, false, LegajoColumns(lf, nextE)), nextL);
    CreateKeepsOneFileEach(t, nextE, nextL, ef, lf);
    CreateKeepsFilesOwned(t, nextE, nextL, ef, lf);
    CreateKeepsDniUnique(t, nextE, nextL, ef, lf);
    CreateKeepsNumeroUnique(t, nextE, nextL, ef, lf);
  }

  /** After insertar, `leer` of the new id returns the new employee joined with the new file. */
  lemma CreateThenRead(t: Tables, nextE: int, nextL: int, ef: EmpleadoFields, lf: LegajoFields)
    requires Inv(t, nextE, nextL)
    ensures Query(CreatePair(t, nextE, ef, nextL, lf, nextE), ById(nextE)) ==
      [EmpleadoRead(Row(nextE, false, ef), Some(Row(nextL, false, LegajoColumns(lf, nextE))))]
  {
    var e := Row(nextE, false, ef);
    var l := Row(nextL, false, LegajoColumns(lf, nextE));
    var ls := t.legajos;
    QueryRowsAppend(t.empleados, e, ls + [l], ById(nextE));
    QueryRowsEmpty(t.empleados, ls + [l], ById(nextE));
    NoFilesForFreshId(t, nextE);
    FilesOfAppend(ls, l, nextE);
  }

  // ---------------------------------------------------------------------
  // actualizar
  // ---------------------------------------------------------------------

  lemma UpdateKeepsAssociation(t: Tables, nextE: int, nextL: int, eid: int, ef: EmpleadoFields, lid: int, lf: LegajoFields)
    requires IdsFresh(t.empleados, nextE) && IdsFresh(t.legajos, nextL) && OneFileEach(t) && FilesOwned(t)
    ensures var t' := UpdatePair(t, eid, ef, lid, lf);
      IdsFresh(t'.empleados, nextE) && IdsFresh(t'.legajos, nextL) && OneFileEach(t') && FilesOwned(t')
  {
    var t' := UpdatePair(t, eid, ef, lid, lf);
    var es, ls := t.empleados, t.legajos;
    var es', ls' := t'.empleados, t'.legajos;
    forall i | 0 <= i < |es|
      ensures es'[i].id == es[i].id && es'[i].eliminado == es[i].eliminado
    {
      UpdateEmpleadosAt(es, eid, ef, i);
    }
    forall j | 0 <= j < |ls|
      ensures ls'[j].id == ls[j].id && ls'[j].eliminado == ls[j].eliminado
        && ls'[j].fields.empleadoId == ls[j].fields.empleadoId
    {
      UpdateLegajosAt(ls, lid, lf, j);
    }
    forall i | 0 <= i < |es'| && !es'[i].eliminado
      ensures |FilesOf(ls', es'[i].id)| == 1
    {
      FilesOfUpdate(ls, lid, lf, es[i].id);
    }
    forall j | 0 <= j < |ls'| && !ls'[j].eliminado
      ensures IsActiveEmpleado(es', ls'[j].fields.empleadoId)
    {
      var k :| 0 <= k < |es| && !es[k].eliminado && es[k].id == ls[j].fields.empleadoId;
      assert es'[k].id == es[k].id && !es'[k].eliminado;
    }
  }

  lemma UpdateKeepsDniUnique(t: Tables, nextE: int, eid: int, ef: EmpleadoFields, lid: int, lf: LegajoFields)
    requires IdsFresh(t.empleados, nextE) && DniUnique(t.empleados)
    requires ef.dni.Some?
    requires var h := Query(t, ByDni(ef.dni.value)); h == [] || h[0].empleado.id == eid
    ensures DniUnique(UpdatePair(t, eid, ef, lid, lf).empleados)
  {
    var es, es' := t.empleados, UpdatePair(t, eid, ef, lid, lf).empleados;
    var d := ef.dni.value;
    forall i | 0 <= i < |es|
      ensures es'[i] == if es[i].id == eid then es[i].(fields := ef) else es[i]
    {
      UpdateEmpleadosAt(es, eid, ef, i);
    }
    NoOtherHolder(t, eid, d);
    forall i, j | 0 <= i < j < |es'| && !es'[i].eliminado && !es'[j].eliminado && es'[i].fields.dni.Some?
      ensures es'[i].fields.dni != es'[j].fields.dni
    {
      assert es[i].id < es[j].id;
    }
  }

  /** The DNI check of actualizar: when the DNI is unique, only `eid` may already hold `d`. */
  lemma NoOtherHolder(t: Tables, eid: int, d: string)
    requires DniUnique(t.empleados)
    requires var h := Query(t, ByDni(d)); h == [] || h[0].empleado.id == eid
    ensures forall k :: 0 <= k < |t.empleados| && !t.empleados[k].eliminado && t.empleados[k].fields.dni == Some(d) ==>
      t.empleados[k].id == eid
  {
    var es := t.empleados;
    forall k | 0 <= k < |es| && !es[k].eliminado && es[k].fields.dni == Some(d)
      ensures es[k].id == eid
    {
      QueryRowsComplete(es, t.legajos, ByDni(d), k);
      QueryRowsSound(es, t.legajos, ByDni(d), 0);
      var h := Query(t, ByDni(d))[0].empleado;
      var m :| 0 <= m < |es| && es[m] == h;
      assert !(m < k) && !(k < m);
    }
  }

  lemma UpdateKeepsNumeroUnique(t: Tables, nextL: int, eid: int, ef: EmpleadoFields, lid: int, lf: LegajoFields)
    requires IdsFresh(t.legajos, nextL) && NumeroUnique(t.legajos)
    requires lf.numeroLegajo.Some?
    requires var h := LegajoByNumero(t.legajos, lf.numeroLegajo.value); h.None? || h.value.id == lid
    ensures NumeroUnique(UpdatePair(t, eid, ef, lid, lf).legajos)
  {
    var ls, ls' := t.legajos, UpdatePair(t, eid, ef, lid, lf).legajos;
    var n := lf.numeroLegajo.value;
    forall j | 0 <= j < |ls|
      ensures ls'[j] == if ls[j].id == lid then Row(lid, ls[j].eliminado, LegajoColumns(lf, ls[j].fields.empleadoId)) else ls[j]
    {
      UpdateLegajosAt(ls, lid, lf, j);
    }
    forall k | 0 <= k < |ls| && !ls[k].eliminado && ls[k].fields.data.numeroLegajo == Some(n)
      ensures ls[k].id == lid
    {
      assert ls[k] in ls;
      var h := LegajoByNumero(ls, n).value;
      var m :| 0 <= m < |ls| && ls[m] == h;
      assert m == k || m < k || k < m;
    }
    forall i, j | 0 <= i < j < |ls'| && !ls'[i].eliminado && !ls'[j].eliminado && ls'[i].fields.data.numeroLegajo.Some?
      ensures ls'[i].fields.data.numeroLegajo != ls'[j].fields.data.numeroLegajo
    {
      assert ls[i].id < ls[j].id;
    }
  }

  /**
   * actualizar keeps the invariant once its checks have passed: the DNI is
   * held by no other visible employee and the number by no other visible
   * file. Owners, flags and ids are untouched by both updates.
   */
  lemma UpdatePreservesInv(t: Tables, nextE: int, nextL: int, eid: int, ef: EmpleadoFields, lid: int, lf: LegajoFields)
    requires Inv(t, nextE, nextL)
    requires ef.dni.Some?
    requires var h := Query(t, ByDni(ef.dni.value)); h == [] || h[0].empleado.id == eid
    requires lf.numeroLegajo.Some?
    requires var h := LegajoByNumero(t.legajos, lf.numeroLegajo.value); h.None? || h.value.id == lid
    ensures Inv(UpdatePair(t, eid, ef, lid, lf), nextE, nextL)
  {
    UpdateKeepsAssociation(t, nextE, nextL, eid, ef, lid, lf);
    UpdateKeepsDniUnique(t, nextE, eid, ef, lid, lf);
    UpdateKeepsNumeroUnique(t, nextL, eid, ef, lid, lf);
  }

  // ---------------------------------------------------------------------
  // eliminar
  // ---------------------------------------------------------------------

  lemma SingletonMembers<T>(s: seq<T>, x: T, y: T)
    requires |s| == 1 && x in s && y in s
    ensures x == y
  {
  }

  /** Deleting the file `ls[jf]` of `eid` together with `eid` leaves every other visible employee its one file. */
  lemma DeleteKeepsOneFileEach(t: Tables, nextE: int, nextL: int, eid: int, jf: int)
    requires IdsFresh(t.empleados, nextE) && IdsFresh(t.legajos, nextL) && OneFileEach(t)
    requires 0 <= jf < |t.legajos| && t.legajos[jf].fields.empleadoId == eid
    ensures OneFileEach(DeletePair(t, eid, t.legajos[jf].id))
  {
    var es, ls := t.empleados, t.legajos;
    var lid := ls[jf].id;
    var es' := DeletePair(t, eid, lid).empleados;
    forall i | 0 <= i < |es'| && !es'[i].eliminado
      ensures |FilesOf(SoftDelete(ls, lid), es'[i].id)| == 1
    {
      SoftDeleteAt(es, eid, i);
      assert es[i].id != eid && es'[i] == es[i];
      assert forall j :: 0 <= j < |ls| && ls[j].id == lid ==> j == jf;
      FilesOfSoftDeleteOther(ls, lid, es[i].id);
    }
  }

  /** ... and every file still visible keeps a visible owner. */
  lemma DeleteKeepsFilesOwned(t: Tables, nextL: int, eid: int, jf: int)
    requires IdsFresh(t.legajos, nextL) && FilesOwned(t)
    requires 0 <= jf < |t.legajos| && !t.legajos[jf].eliminado && t.legajos[jf].fields.empleadoId == eid
    requires |FilesOf(t.legajos, eid)| == 1
    ensures FilesOwned(DeletePair(t, eid, t.legajos[jf].id))
  {
    var es, ls := t.empleados, t.legajos;
    var lid := ls[jf].id;
    var t' := DeletePair(t, eid, lid);
    var es', ls' := t'.empleados, t'.legajos;
    forall j | 0 <= j < |ls'| && !ls'[j].eliminado
      ensures IsActiveEmpleado(es', ls'[j].fields.empleadoId)
    {
      SoftDeleteAt(ls, lid, j);
      assert ls[j].id != lid && ls'[j] == ls[j];
      if ls[j].fields.empleadoId == eid {
        SingletonMembers(FilesOf(ls, eid), ls[j], ls[jf]);
      }
      var k :| 0 <= k < |es| && !es[k].eliminado && es[k].id == ls[j].fields.empleadoId;
      SoftDeleteAt(es, eid, k);
    }
  }

  lemma DeleteKeepsAssociation(t: Tables, nextE: int, nextL: int, eid: int)
    requires IdsFresh(t.empleados, nextE) && IdsFresh(t.legajos, nextL) && OneFileEach(t) && FilesOwned(t)
    requires Query(t, ById(eid)) != [] && Query(t, ById(eid))[0].legajo.Some?
    ensures var t' := DeletePair(t, eid, Query(t, ById(eid))[0].legajo.value.id);
      OneFileEach(t') && FilesOwned(t')
  {
    var es, ls := t.empleados, t.legajos;
    var r0 := Query(t, ById(eid))[0];
    QueryRowsSound(es, ls, ById(eid), 0);
    var ie :| 0 <= ie < |es| && es[ie] == r0.empleado;
    var jf :| 0 <= jf < |ls| && ls[jf] == r0.legajo.value;
    DeleteKeepsOneFileEach(t, nextE, nextL, eid, jf);
    DeleteKeepsFilesOwned(t, nextL, eid, jf);
  }

  lemma DeleteKeepsRest(t: Tables, nextE: int, nextL: int, eid: int, lid: int)
    requires IdsFresh(t.empleados, nextE) && IdsFresh(t.legajos, nextL)
    requires DniUnique(t.empleados) && NumeroUnique(t.legajos)
    ensures var t' := DeletePair(t, eid, lid);
      IdsFresh(t'.empleados, nextE) && IdsFresh(t'.legajos, nextL)
      && DniUnique(t'.empleados) && NumeroUnique(t'.legajos)
  {
    var t' := DeletePair(t, eid, lid);
    forall i | 0 <= i < |t.empleados|
      ensures t'.empleados[i] == if t.empleados[i].id == eid then t.empleados[i].(eliminado := true) else t.empleados[i]
    {
      SoftDeleteAt(t.empleados, eid, i);
    }
    forall j | 0 <= j < |t.legajos|
      ensures t'.legajos[j] == if t.legajos[j].id == lid then t.legajos[j].(eliminado := true) else t.legajos[j]
    {
      SoftDeleteAt(t.legajos, lid, j);
    }
  }

  /** eliminar, given the file `leer` attached, deletes both rows and keeps the invariant. */
  lemma DeletePreservesInv(t: Tables, nextE: int, nextL: int, eid: int)
    requires Inv(t, nextE, nextL)
    requires Query(t, ById(eid)) != [] && Query(t, ById(eid))[0].legajo.Some?
    ensures Inv(DeletePair(t, eid, Query(t, ById(eid))[0].legajo.value.id), nextE, nextL)
  {
    DeleteKeepsAssociation(t, nextE, nextL, eid);
    DeleteKeepsRest(t, nextE, nextL, eid, Query(t, ById(eid))[0].legajo.value.id);
  }

  /**
   * After eliminar both reads report "not found", yet both tables keep all
   * their rows: the two rows are still stored, with the flag raised.
   */
  lemma DeleteHides(t: Tables, eid: int, lid: int)
    ensures Query(DeletePair(t, eid, lid), ById(eid)) == []
    ensures FindActive(DeletePair(t, eid, lid).legajos, lid).None?
    ensures |DeletePair(t, eid, lid).empleados| == |t.empleados|
    ensures |DeletePair(t, eid, lid).legajos| == |t.legajos|
    ensures forall i :: 0 <= i < |t.empleados| && t.empleados[i].id == eid ==>
      DeletePair(t, eid, lid).empleados[i] == t.empleados[i].(eliminado := true)
    ensures forall j :: 0 <= j < |t.legajos| && t.legajos[j].id == lid ==>
      DeletePair(t, eid, lid).legajos[j] == t.legajos[j].(eliminado := true)
  {
    var t' := DeletePair(t, eid, lid);
    forall i | 0 <= i < |t.empleados|
      ensures t'.empleados[i] == if t.empleados[i].id == eid then t.empleados[i].(eliminado := true) else t.empleados[i]
    {
      SoftDeleteAt(t.empleados, eid, i);
    }
    forall j | 0 <= j < |t.legajos|
      ensures t'.legajos[j] == if t.legajos[j].id == lid then t.legajos[j].(eliminado := true) else t.legajos[j]
    {
      SoftDeleteAt(t.legajos, lid, j);
    }
    QueryRowsEmpty(t'.empleados, t'.legajos, ById(eid));
    SoftDeleteHides(t.legajos, lid);
  }
}
