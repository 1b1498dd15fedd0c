/**
 The database access module of the access-log analyzer: one process-wide
 connection, a `connected` flag, and the `records` table it reads and writes.

 The module-level `STATE` dictionary becomes a `RecordStore` object. The
 SQLite connection and cursor are represented only by the `connected` flag;
 `ready` records whether `setup` has created the table and its unique index
 in the database, which survives closing and reopening the connection.
 */
module Datasource {
  import opened Records

  /** The exceptions the module lets through to its callers. */
  datatype Error =
    | NotConnected     // `STATE['cursor']` / `STATE['conn']` absent: KeyError
    | NoSuchTable      // statement on `records` before `setup`: OperationalError
    | UniqueViolation  // INSERT of an existing pair, index `date_content`: IntegrityError

  datatype Outcome = Pass | Fail(error: Error)

  datatype Result<T> = Success(value: T) | Failure(error: Error)

  class RecordStore {
    /** `STATE['connected']`. */
    var connected: bool
    /** The table `records` and the index `date_content` exist. */
    var ready: bool
    /** The rows of `records`. */
    var table: Table

    /** Module import: `STATE['connected'] = False`, over an empty database. */
    constructor ()
      ensures !connected && !ready && table == map[]
    {
      connected := false;
      ready := false;
      table := map[];
    }

    /** Whether a statement on `records` can run now, and the error it raises if not. */
    function Access(): (o: Outcome)
      reads this
      ensures o.Pass? <==> connected && ready
      ensures !connected ==> o == Fail(NotConnected)
      ensures connected && !ready ==> o == Fail(NoSuchTable)
    {
      if !connected then Fail(NotConnected)
      else if !ready then Fail(NoSuchTable)
      else Pass
    }

    /** `connected()`. */
    method Connected() returns (b: bool)
      ensures b <==> connected
    {
      b := connected;
    }

    /** `open_connection(conn_info)`: a new connection and cursor; any earlier one is dropped. */
    method OpenConnection()
      modifies this`connected
      ensures connected
    {
      connected := true;
    }

    /** `setup()`: `CREATE TABLE IF NOT EXISTS` and `CREATE UNIQUE INDEX IF NOT EXISTS`. */
    method Setup() returns (o: Outcome)
      modifies this`ready
      ensures o == if connected then Pass else Fail(NotConnected)
      ensures ready <==> old(ready) || connected
    {
      if !connected {
        return Fail(NotConnected);
      }
      ready := true;
      o := Pass;
    }

    /** `commit()`: durability is outside the model, only the error path remains. */
    method Commit() returns (o: Outcome)
      ensures o == if connected then Pass else Fail(NotConnected)
    {
      o := if connected then Pass else Fail(NotConnected);
    }

    /** `close()`: fails on a missing connection, otherwise drops it and clears the flag. */
    method Close() returns (o: Outcome)
      modifies this`connected
      ensures o == if old(connected) then Pass else Fail(NotConnected)
      ensures !connected
    {
      if !connected {
        return Fail(NotConnected);
      }
      connected := false;
      o := Pass;
    }

    /** `delete_stale_records(period)`: drops the rows dated like `period` but not `period` itself. */
    method DeleteStaleRecords(period: string) returns (o: Outcome)
      modifies this`table
      ensures o == Access()
      ensures table == if o.Pass? then Prune(old(table), period) else old(table)
    {
      o := Access();
      if o.Pass? {
        table := Prune(table, period);
      }
    }

    /** `query_records(date_query, limit)`, the cursor read to its end. */
    function QueryRecords(q: DateQuery, limit: Option<int>): (r: Result<seq<Row>>)
      reads this
      ensures r.Failure? <==> Access().Fail?
      ensures r.Failure? ==> r.error == Access().error
      ensures r.Success? ==> r.value == Listing(table, q, limit)
    {
      match Access()
      case Fail(e) => Failure(e)
      case Pass => Success(Listing(table, q, limit))
    }

    /** `query_record_count(record_date, resource)`. */
    function QueryRecordCount(date: string, resource: string): (r: Result<int>)
      reads this
      ensures r.Failure? <==> Access().Fail?
      ensures r.Failure? ==> r.error == Access().error
      ensures r.Success? && Key(date, resource) in table ==> r.value == table[Key(date, resource)]
      ensures r.Success? && Key(date, resource) !in table ==> r.value == 0
    {
      match Access()
      case Fail(e) => Failure(e)
      case Pass => Success(CountOf(table, Key(date, resource)))
    }

    /** `update_record_count(count, record_date, resource)`: overwrites, never inserts. */
    method UpdateRecordCount(count: int, date: string, resource: string) returns (o: Outcome)
      modifies this`table
      ensures o == Access()
      ensures table == if o.Pass? then Update(old(table), Key(date, resource), count) else old(table)
    {
      o := Access();
      if o.Pass? {
        table := Update(table, Key(date, resource), count);
      }
    }

    /** `insert_record_count(count, record_date, resource)`: refused by the unique index on a present pair. */
    method InsertRecordCount(count: int, date: string, resource: string) returns (o: Outcome)
      modifies this`table
      ensures o == if Access().Fail? then Access()
                   else if Key(date, resource) in old(table) then Fail(UniqueViolation)
                   else Pass
      ensures table == if o.Pass? then old(table)[Key(date, resource) := count] else old(table)
    {
      o := Access();
      if o.Fail? {
        return;
      }
      if Key(date, resource) in table {
        return Fail(UniqueViolation);
      }
      table := table[Key(date, resource) := count];
    }
  }
}
