/**
 * TransactionManager: the life cycle of one transaction over one
 * connection. Its `transactionActive` flag and the connection's state
 * give three states: idle, active and (terminal) closed.
 */
module Config {
  import opened Errors
  import opened Tables
  import opened Jdbc

  datatype TxState = Idle | Active | Closed

  class TransactionManager {
    const connection: Connection
    var transactionActive: bool

    /** The state machine's current state. */
    function State(): TxState
      reads this, connection
    {
      if connection.closed then Closed else if transactionActive then Active else Idle
    }

    /** A new manager over an existing connection: no transaction yet. */
    constructor (connection: Connection)
      ensures this.connection == connection && !transactionActive
    {
      this.connection := connection;
      transactionActive := false;
    }

    /** `new TransactionManager(conn)`, including its rejection of a null connection. */
    static method Create(connection: Connection?) returns (r: Result<TransactionManager>)
      ensures connection == null <==> r.Failure?
      ensures r.Failure? ==> r.error == IllegalArgument(NullConnection)
      ensures r.Success? ==> fresh(r.value) && r.value.connection == connection && !r.value.transactionActive
    {
      if connection == null {
        return Failure(IllegalArgument(NullConnection));
      }
      var tm := new TransactionManager(connection);
      r := Success(tm);
    }

    function IsTransactionActive(): bool
      reads this
    {
      transactionActive
    }

    /**
     * startTransaction: refused on a closed connection; otherwise turns
     * auto-commit off and the manager becomes active.
     */
    method StartTransaction(fails: bool) returns (r: Outcome)
      modifies this`transactionActive, connection`autoCommit, connection`pending
      ensures old(connection.closed) ==> r == Fail(Sql(ConnectionClosed))
      ensures !old(connection.closed) && fails ==> r == Fail(Sql(Unavailable))
      ensures r.Ok? <==> !connection.closed && !fails
      ensures r.Fail? ==> (transactionActive == old(transactionActive)
        && connection.autoCommit == old(connection.autoCommit) && connection.pending == old(connection.pending))
      ensures r.Ok? ==> State() == Active && !connection.autoCommit
      ensures r.Ok? && old(connection.autoCommit) ==> connection.pending == connection.db.tables
    {
      if connection.closed {
        return Fail(Sql(ConnectionClosed));
      }
      r := connection.SetAutoCommit(false, fails);
      if r.Ok? {
        transactionActive := true;
      }
    }

    /**
     * commit: refused unless a transaction is active. The flag is cleared
     * only when the connection's commit succeeds, so a second commit fails.
     */
    method Commit(fails: bool) returns (r: Outcome)
      modifies this`transactionActive, connection.db`tables
      ensures !old(transactionActive) ==> r == Fail(Sql(NoActiveTransaction)) && connection.db.tables == old(connection.db.tables)
      ensures old(transactionActive) ==> (r.Ok? <==> !connection.closed && !connection.autoCommit && !fails)
      ensures r.Ok? ==> !transactionActive && connection.db.tables == connection.pending
      ensures r.Fail? ==> transactionActive == old(transactionActive) && connection.db.tables == old(connection.db.tables)
    {
      if !transactionActive {
        return Fail(Sql(NoActiveTransaction));
      }
      r := connection.Commit(fails);
      if r.Ok? {
        transactionActive := false;
      }
    }

    /**
     * rollback: a no-op when no transaction is active; never fails. The
     * flag is cleared only when the connection's rollback succeeds; a
     * failure is swallowed (logged, in the source).
     */
    method Rollback(fails: bool)
      modifies this`transactionActive, connection`pending
      ensures !old(transactionActive) ==> !transactionActive && connection.pending == old(connection.pending)
      ensures old(transactionActive) && !connection.closed && !connection.autoCommit && !fails ==>
        !transactionActive && connection.pending == connection.db.tables
      ensures old(transactionActive) && (connection.closed || connection.autoCommit || fails) ==>
        transactionActive && connection.pending == old(connection.pending)
    {
      if !transactionActive {
        return;
      }
      var r := connection.Rollback(fails);
      if r.Ok? {
        transactionActive := false;
      }
    }

    /**
     * close: rolls back if a transaction is still active, restores
     * auto-commit and closes the connection; every failure is swallowed.
     * The committed tables are never changed: uncommitted work is lost.
     */
    method Close(rollbackFails: bool, restoreFails: bool, closeFails: bool)
      modifies this`transactionActive, connection`pending, connection`autoCommit, connection`closed
      ensures connection.db.tables == old(connection.db.tables)
      ensures old(connection.closed) ==> connection.closed
      ensures !old(connection.closed) && !restoreFails ==>
        connection.autoCommit && connection.pending == connection.db.tables && connection.View() == old(connection.db.tables)
      ensures !old(connection.closed) && !restoreFails && !closeFails ==> State() == Closed
      ensures old(transactionActive) && !old(connection.closed) && !old(connection.autoCommit) && !rollbackFails ==>
        !transactionActive
      ensures !old(transactionActive) ==> !transactionActive
    {
      if transactionActive {
        Rollback(rollbackFails);
      }
      var restored := connection.SetAutoCommit(true, restoreFails);
      if restored.Ok? {
        var _ := connection.Close(closeFails);
      }
    }
  }
}
