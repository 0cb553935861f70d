/**
 * The exceptions the core raises, as values. Each Java exception class
 * becomes a constructor; the message strings are replaced by a reason.
 */
module Errors {

  /** Why an IllegalArgumentException or IllegalStateException was thrown. */
  datatype Reason =
    // TransactionManager
    | NullConnection
    // LegajoServiceImpl
    | NullLegajo
    | BlankNumeroLegajo
    | NullEstado
    | NumeroLegajoTooLong
    | CategoriaTooLong
    | ObservacionesTooLong
    | InvalidId
    | LegajoNotFound
    | InvalidLegajoForUpdate
    | DuplicateNumeroLegajo
    | DuplicateNumeroLegajoOther
    // EmpleadoServiceImpl
    | NullEmpleado
    | BlankNombre
    | BlankApellido
    | BlankDni
    | DuplicateDni
    | MissingLegajo
    | InvalidEmpleadoForUpdate
    | MissingLegajoForUpdate
    | EmpleadoNotFound
    | EmpleadoWithoutLegajo

  /** Why an SQLException was thrown. */
  datatype SqlCause =
    | ConnectionClosed      // the connection was closed before the call
    | NoActiveTransaction   // TransactionManager.commit without startTransaction
    | AutoCommitMode        // JDBC commit/rollback while auto-commit is on
    | RowNotFound           // an UPDATE matched zero rows
    | ZeroId                // the employee still has id 0 after its insert
    | Rejected              // the store rejected the statement (injected fault)
    | Unavailable           // the driver or the server failed the call (injected fault)

  /** The operation named in the wrapping message of EmpleadoServiceImpl. */
  datatype Operation = Create | Update | Delete

  datatype Failure =
    | IllegalArgument(reason: Reason)
    | IllegalState(reason: Reason)
    | Unsupported
    | Sql(sqlCause: SqlCause)
    | Wrapped(op: Operation, cause: Failure)  // new Exception("Error al ...", cause)

  /** A void Java call: it returns normally or throws. */
  datatype Outcome = Ok | Fail(error: Failure)

  /** A Java call that returns a value or throws. */
  datatype Result<+T> = Success(value: T) | Failure(error: Failure)
}
