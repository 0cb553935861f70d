/**
 * The database and its JDBC connections, abstracted. The server keeps the
 * committed tables and the two AUTO_INCREMENT counters; a connection in
 * manual-commit mode keeps a pending working copy that only `Commit`
 * publishes. The counters live outside the transactional state: MySQL
 * does not give back an id consumed by a rolled-back insert.
 *
 * Every failure a driver can report is an input: a `fails` flag on the
 * call, or a field of `Faults` for a whole service operation.
 */
module Jdbc {
  import opened Errors
  import opened Tables

  /** The database server. */
  class Database {
    var tables: Tables
    var nextEmpleadoId: int
    var nextLegajoId: int

    /** A new, empty schema: both tables empty, both counters at 1. */
    constructor ()
      ensures tables == Tables([], []) && nextEmpleadoId == 1 && nextLegajoId == 1
    {
      tables := Tables([], []);
      nextEmpleadoId := 1;
      nextLegajoId := 1;
    }
  }

  /**
   * Which steps of one service operation the environment makes fail.
   * `empleadoKey` and `legajoKey` say whether the driver returns the
   * generated key of the insert.
   */
  datatype Faults = Faults(
    connect: bool,            // opening the operation's own connection
    empleadoLookup: bool,     // opening the connection of an employee read (leer, buscarPorDni)
    legajoLookup: bool,       // opening the connection of a file read (leer, buscarPorNroLegajo)
    startTransaction: bool,   // setAutoCommit(false)
    empleadoStatement: bool,  // the statement on `empleado` is rejected
    empleadoKey: bool,
    legajoStatement: bool,    // the statement on `legajo` is rejected
    legajoKey: bool,
    commit: bool,
    rollback: bool,
    restoreAutoCommit: bool,  // setAutoCommit(true) in close
    closeConnection: bool)

  /** A JDBC connection to `db`. */
  class Connection {
    const db: Database
    var closed: bool
    var autoCommit: bool
    var pending: Tables

    /** The tables a statement on this connection reads and writes. */
    function View(): Tables
      reads this, db
    {
      if autoCommit then db.tables else pending
    }

    /** A connection as the driver hands it out: open, in auto-commit mode. */
    constructor (db: Database)
      ensures this.db == db && !closed && autoCommit && pending == db.tables
    {
      this.db := db;
      closed := false;
      autoCommit := true;
      pending := db.tables;
    }

    /**
     * setAutoCommit. Leaving auto-commit mode snapshots the committed
     * tables as the working copy; re-entering it drops the working copy.
     */
    method SetAutoCommit(on: bool, fails: bool) returns (r: Outcome)
      modifies this`autoCommit, this`pending
      ensures r.Ok? <==> !closed && !fails
      ensures closed ==> r == Fail(Sql(ConnectionClosed))
      ensures !closed && fails ==> r == Fail(Sql(Unavailable))
      ensures r.Fail? ==> autoCommit == old(autoCommit) && pending == old(pending)
      ensures r.Ok? ==> autoCommit == on
      ensures r.Ok? && !on ==> pending == if old(autoCommit) then db.tables else old(pending)
      ensures r.Ok? && on ==> pending == db.tables
    {
      if closed {
        return Fail(Sql(ConnectionClosed));
      }
      if fails {
        return Fail(Sql(Unavailable));
      }
      if on || autoCommit {
        pending := db.tables;
      }
      autoCommit := on;
      r := Ok;
    }

    /** commit: publishes the working copy; refused when closed or in auto-commit mode. */
    method Commit(fails: bool) returns (r: Outcome)
      modifies db`tables
      ensures r.Ok? <==> !closed && !autoCommit && !fails
      ensures closed ==> r == Fail(Sql(ConnectionClosed))
      ensures !closed && autoCommit ==> r == Fail(Sql(AutoCommitMode))
      ensures !closed && !autoCommit && fails ==> r == Fail(Sql(Unavailable))
      ensures r.Ok? ==> db.tables == pending
      ensures r.Fail? ==> db.tables == old(db.tables)
    {
      if closed {
        return Fail(Sql(ConnectionClosed));
      }
      if autoCommit {
        return Fail(Sql(AutoCommitMode));
      }
      if fails {
        return Fail(Sql(Unavailable));
      }
      db.tables := pending;
      r := Ok;
    }

    /** rollback: drops the working copy; refused when closed or in auto-commit mode. */
    method Rollback(fails: bool) returns (r: Outcome)
      modifies this`pending
      ensures r.Ok? <==> !closed && !autoCommit && !fails
      ensures closed ==> r == Fail(Sql(ConnectionClosed))
      ensures !closed && autoCommit ==> r == Fail(Sql(AutoCommitMode))
      ensures !closed && !autoCommit && fails ==> r == Fail(Sql(Unavailable))
      ensures r.Ok? ==> pending == db.tables
      ensures r.Fail? ==> pending == old(pending)
    {
      if closed {
        return Fail(Sql(ConnectionClosed));
      }
      if autoCommit {
        return Fail(Sql(AutoCommitMode));
      }
      if fails {
        return Fail(Sql(Unavailable));
      }
      pending := db.tables;
      r := Ok;
    }

    /** close: uncommitted work is lost; closing a closed connection does nothing. */
    method Close(fails: bool) returns (r: Outcome)
      modifies this`closed, this`pending
      ensures old(closed) ==> r == Ok && closed && pending == old(pending)
      ensures !old(closed) ==> (r.Ok? <==> !fails)
      ensures !old(closed) && fails ==> r == Fail(Sql(Unavailable)) && !closed && pending == old(pending)
      ensures !old(closed) && !fails ==> closed && pending == db.tables
    {
      if closed {
        return Ok;
      }
      if fails {
        return Fail(Sql(Unavailable));
      }
      closed := true;
      pending := db.tables;
      r := Ok;
    }

    /**
     * The effect of one successful statement: `t` becomes what the
     * connection sees; in auto-commit mode that is the committed tables.
     */
    method Execute(t: Tables)
      requires !closed
      modifies this`pending, db`tables
      ensures View() == t
      ensures autoCommit ==> pending == old(pending)
      ensures !autoCommit ==> db.tables == old(db.tables)
    {
      if autoCommit {
        db.tables := t;
      } else {
        pending := t;
      }
    }
  }

  /** DriverManager.getConnection: a fresh connection, or the driver's failure. */
  method Open(db: Database, fails: bool) returns (r: Result<Connection>)
    ensures r.Failure? <==> fails
    ensures r.Failure? ==> r.error == Sql(Unavailable)
    ensures r.Success? ==> fresh(r.value) && r.value.db == db && !r.value.closed && r.value.autoCommit
  {
    if fails {
      return Failure(Sql(Unavailable));
    }
    var c := new Connection(db);
    r := Success(c);
  }
}
