/** The single-connection database handle and its transactions. A statement is the change it makes to the visible
    tables; every statement may be refused by the engine. */
module Database {
  import opened Wrappers

  /** Which statements of one operation the engine refuses. */
  datatype Faults = Faults(begin: bool, statement: nat -> bool, commit: bool, rollback: bool)

  class Connection<T> {
    /** What a reopened database would hold. */
    var committed: T
    /** The open transaction's tables, if one is open. */
    var pending: Option<T>

    constructor (tables: T)
      ensures committed == tables && pending == None
    {
      committed, pending := tables, None;
    }

    /** What statements on this connection see. */
    function View(): T
      reads this
    {
      pending.GetOr(committed)
    }

    method Execute(next: T, refused: bool) returns (ok: bool)
      modifies this
      ensures ok == !refused
      ensures !ok ==> committed == old(committed) && pending == old(pending)
      ensures ok ==> View() == next && (pending.None? <==> old(pending).None?)
      ensures old(pending).Some? ==> committed == old(committed)
    {
      if refused {
        return false;
      }
      if pending.Some? {
        pending := Some(next);
      } else {
        committed := next;
      }
      ok := true;
    }

    /** BEGIN IMMEDIATE: refused inside an open transaction. */
    method Begin(refused: bool) returns (ok: bool)
      modifies this
      ensures ok <==> !refused && old(pending).None?
      ensures committed == old(committed)
      ensures pending == if ok then Some(old(committed)) else old(pending)
    {
      ok := !refused && pending.None?;
      if ok {
        pending := Some(committed);
      }
    }

    /** COMMIT: a refused one keeps the transaction open. */
    method Publish(refused: bool) returns (ok: bool)
      modifies this
      ensures ok <==> !refused && old(pending).Some?
      ensures ok ==> committed == old(View()) && pending == None
      ensures !ok ==> committed == old(committed) && pending == old(pending)
    {
      ok := !refused && pending.Some?;
      if ok {
        committed := pending.value;
        pending := None;
      }
    }

    /** ROLLBACK. */
    method Discard(refused: bool)
      modifies this
      ensures committed == old(committed)
      ensures pending == if refused then old(pending) else None
    {
      if !refused {
        pending := None;
      }
    }
  }

  /** A transaction rolls back when it goes out of scope, unless `Commit` was reached. */
  class Transaction<T> {
    const conn: Connection<T>
    var active: bool

    constructor (conn: Connection<T>)
      ensures this.conn == conn && active
    {
      this.conn := conn;
      active := true;
    }

    /** The flag is cleared before COMMIT runs, so a refused COMMIT is never rolled back. */
    method Commit(refused: bool) returns (ok: bool)
      modifies this, conn
      ensures !active
      ensures ok <==> !old(active) || (!refused && old(conn.pending).Some?)
      ensures old(active) && ok ==> conn.committed == old(conn.View()) && conn.pending == None
      ensures !old(active) || !ok ==> conn.committed == old(conn.committed) && conn.pending == old(conn.pending)
    {
      if !active {
        return true;
      }
      active := false;
      ok := conn.Publish(refused);
    }

    method Drop(refused: bool)
      modifies this, conn
      ensures !active
      ensures conn.committed == old(conn.committed)
      ensures conn.pending == if old(active) && !refused then None else old(conn.pending)
    {
      if active {
        active := false;
        conn.Discard(refused);
      }
    }
  }
}
