/**
 * The two entities and their shared base (Base.java). Dafny has no class
 * inheritance here, so the two Base fields, `id` and `eliminado`, and
 * their accessors are written out in both classes. Nullable Java fields
 * are `Option`s; dates are opaque.
 */
module Entities {
  import opened Wrappers

  /** EstadoLegajo: the contractual status of a personnel file. */
  datatype EstadoLegajo = Activo | Inactivo

  /** A calendar date, kept opaque (the core never computes with dates). */
  datatype Date = Date(epochDay: int)

  /** The data columns of a personnel file (everything but the Base fields). */
  datatype LegajoFields = LegajoFields(
    numeroLegajo: Option<string>,
    categoria: Option<string>,
    estado: Option<EstadoLegajo>,
    fechaAlta: Option<Date>,
    observaciones: Option<string>)

  /** The data columns of an employee (everything but the Base fields and the file). */
  datatype EmpleadoFields = EmpleadoFields(
    nombre: Option<string>,
    apellido: Option<string>,
    dni: Option<string>,
    email: Option<string>,
    fechaIngreso: Option<Date>,
    area: Option<string>)

  /** Legajo: a personnel file. */
  class Legajo {
    var id: int
    var eliminado: bool
    var numeroLegajo: Option<string>
    var categoria: Option<string>
    var estado: Option<EstadoLegajo>
    var fechaAlta: Option<Date>
    var observaciones: Option<string>

    /** The current data columns. */
    function Fields(): LegajoFields
      reads this
    {
      LegajoFields(numeroLegajo, categoria, estado, fechaAlta, observaciones)
    }

    /** The full constructor: the given data, with Base's defaults id 0 and not deleted. */
    constructor (numeroLegajo: Option<string>, categoria: Option<string>, estado: Option<EstadoLegajo>,
                 fechaAlta: Option<Date>, observaciones: Option<string>)
      ensures id == 0 && !eliminado
      ensures Fields() == LegajoFields(numeroLegajo, categoria, estado, fechaAlta, observaciones)
    {
      id := 0;
      eliminado := false;
      this.numeroLegajo := numeroLegajo;
      this.categoria := categoria;
      this.estado := estado;
      this.fechaAlta := fechaAlta;
      this.observaciones := observaciones;
    }

    /** The no-argument constructor: every data field null. */
    constructor Empty()
      ensures id == 0 && !eliminado
      ensures Fields() == LegajoFields(None, None, None, None, None)
    {
      id := 0;
      eliminado := false;
      numeroLegajo, categoria, estado, fechaAlta, observaciones := None, None, None, None, None;
    }

    method SetId(v: int)
      modifies this`id
      ensures id == v
      ensures eliminado == old(eliminado) && Fields() == old(Fields())
    {
      id := v;
    }

    method SetEliminado(b: bool)
      modifies this`eliminado
      ensures eliminado == b
      ensures id == old(id) && Fields() == old(Fields())
    {
      eliminado := b;
    }

    method SetEstado(e: Option<EstadoLegajo>)
      modifies this`estado
      ensures Fields() == old(Fields()).(estado := e)
      ensures id == old(id) && eliminado == old(eliminado)
    {
      estado := e;
    }

    /**
     * Logical deletion of the object: deleted, and status forced to
     * INACTIVO. A second call changes nothing, so the operation is
     * idempotent.
     */
    method EliminarRegistro()
      modifies this`eliminado, this`estado
      ensures eliminado && estado == Some(Inactivo)
      ensures Fields() == old(Fields()).(estado := Some(Inactivo))
      ensures id == old(id)
      ensures old(eliminado) && old(estado) == Some(Inactivo) ==> Fields() == old(Fields()) && eliminado
    {
      SetEliminado(true);
      SetEstado(Some(Inactivo));
    }
  }

  /** Empleado: an employee, with the one-to-one reference to its file. */
  class Empleado {
    var id: int
    var eliminado: bool
    var nombre: Option<string>
    var apellido: Option<string>
    var dni: Option<string>
    var email: Option<string>
    var fechaIngreso: Option<Date>
    var area: Option<string>
    var legajo: Legajo?

    /** The current data columns. */
    function Fields(): EmpleadoFields
      reads this
    {
      EmpleadoFields(nombre, apellido, dni, email, fechaIngreso, area)
    }

    /** The full constructor: the six data fields and the file, id 0, not deleted. */
    constructor (nombre: Option<string>, apellido: Option<string>, dni: Option<string>, email: Option<string>,
                 fechaIngreso: Option<Date>, area: Option<string>, legajo: Legajo?)
      ensures id == 0 && !eliminado
      ensures Fields() == EmpleadoFields(nombre, apellido, dni, email, fechaIngreso, area)
      ensures this.legajo == legajo
    {
      id := 0;
      eliminado := false;
      this.nombre := nombre;
      this.apellido := apellido;
      this.dni := dni;
      this.email := email;
      this.fechaIngreso := fechaIngreso;
      this.area := area;
      this.legajo := legajo;
    }

    /** The no-argument constructor: id 0, not deleted, no file. */
    constructor Empty()
      ensures id == 0 && !eliminado && legajo == null
      ensures Fields() == EmpleadoFields(None, None, None, None, None, None)
    {
      id := 0;
      eliminado := false;
      nombre, apellido, dni, email, fechaIngreso, area := None, None, None, None, None, None;
      legajo := null;
    }

    method SetId(v: int)
      modifies this`id
      ensures id == v
      ensures eliminado == old(eliminado) && Fields() == old(Fields()) && legajo == old(legajo)
    {
      id := v;
    }

    method SetEliminado(b: bool)
      modifies this`eliminado
      ensures eliminado == b
      ensures id == old(id) && Fields() == old(Fields()) && legajo == old(legajo)
    {
      eliminado := b;
    }

    method SetLegajo(l: Legajo?)
      modifies this`legajo
      ensures legajo == l
      ensures id == old(id) && eliminado == old(eliminado) && Fields() == old(Fields())
    {
      legajo := l;
    }

    /**
     * Logical deletion of the object: only the employee's own flag is set;
     * the attached file is neither detached nor changed. Idempotent.
     */
    method EliminarRegistro()
      modifies this`eliminado
      ensures eliminado
      ensures id == old(id) && Fields() == old(Fields()) && legajo == old(legajo)
      ensures legajo != null ==> legajo.eliminado == old(legajo.eliminado) && legajo.Fields() == old(legajo.Fields())
      ensures old(eliminado) ==> Fields() == old(Fields()) && eliminado == old(eliminado)
    {
      SetEliminado(true);
    }
  }
}
