/**
 Properties of the record store that span several calls, stated over any
 store in the required state and proved from the operations' contracts.
 */
module StoreProperties {
  import opened Records
  import opened Datasource

  /** Inserting a fresh pair and reading it back yields the inserted count. */
  method InsertThenQuery(store: RecordStore, count: int, date: string, resource: string)
    returns (o: Outcome, r: Result<int>)
    requires store.connected && store.ready && Key(date, resource) !in store.table
    modifies store
    ensures o == Pass && r == Success(count)
    ensures store.table == old(store.table)[Key(date, resource) := count]
  {
    o := store.InsertRecordCount(count, date, resource);
    r := store.QueryRecordCount(date, resource);
  }

  /** A second insert of the same pair is refused and leaves the first count in place. */
  method DuplicateInsertFails(store: RecordStore, first: int, second: int, date: string, resource: string)
    returns (o1: Outcome, o2: Outcome, r: Result<int>)
    requires store.connected && store.ready && Key(date, resource) !in store.table
    modifies store
    ensures o1 == Pass && o2 == Fail(UniqueViolation)
    ensures r == Success(first)
    ensures store.table == old(store.table)[Key(date, resource) := first]
  {
    o1 := store.InsertRecordCount(first, date, resource);
    o2 := store.InsertRecordCount(second, date, resource);
    r := store.QueryRecordCount(date, resource);
  }

  /** An update after an insert replaces the count; it does not add to it. */
  method UpdateOverwrites(store: RecordStore, first: int, second: int, date: string, resource: string)
    returns (r: Result<int>)
    requires store.connected && store.ready && Key(date, resource) !in store.table
    modifies store
    ensures r == Success(second)
    ensures store.table == old(store.table)[Key(date, resource) := second]
  {
    var o := store.InsertRecordCount(first, date, resource);
    o := store.UpdateRecordCount(second, date, resource);
    r := store.QueryRecordCount(date, resource);
  }

  /** An update of an absent pair creates no row: the pair still reads as 0. */
  method UpdateAbsentIsNoop(store: RecordStore, count: int, date: string, resource: string)
    returns (r: Result<int>)
    requires store.connected && store.ready && Key(date, resource) !in store.table
    modifies store
    ensures r == Success(0)
    ensures store.table == old(store.table)
  {
    var o := store.UpdateRecordCount(count, date, resource);
    r := store.QueryRecordCount(date, resource);
  }

  /** Pruning with the same period a second time deletes nothing more. */
  method PruneTwice(store: RecordStore, period: string)
    modifies store
    ensures store.table == if store.connected && store.ready then Prune(old(store.table), period) else old(store.table)
  {
    var o := store.DeleteStaleRecords(period);
    o := store.DeleteStaleRecords(period);
    if o.Pass? {
      PruneIdempotent(old(store.table), period);
    }
  }

  /** Setup on every startup is harmless: a second call succeeds and changes nothing. */
  method SetupTwice(store: RecordStore) returns (o1: Outcome, o2: Outcome)
    requires store.connected
    modifies store
    ensures o1 == Pass && o2 == Pass && store.ready
    ensures store.table == old(store.table)
  {
    o1 := store.Setup();
    o2 := store.Setup();
  }

  /** Closing and reopening the model's single database keeps the schema and the rows. */
  method ReopenKeepsRecords(store: RecordStore) returns (o: Outcome)
    requires store.connected
    modifies store
    ensures o == Pass && store.connected
    ensures store.ready == old(store.ready) && store.table == old(store.table)
  {
    o := store.Close();
    store.OpenConnection();
  }

  /** After `close`, whether or not a connection was open, every statement on the table fails. */
  method ClosedStoreRefuses(store: RecordStore, date: string, resource: string)
    returns (r: Result<int>, o: Outcome)
    modifies store
    ensures r == Failure(NotConnected) && o == Fail(NotConnected)
    ensures store.table == old(store.table)
  {
    var c := store.Close();
    r := store.QueryRecordCount(date, resource);
    o := store.InsertRecordCount(0, date, resource);
  }

  /** On a freshly set up database any pair reads as 0. */
  method MissingRecordIsZero(date: string, resource: string) returns (r: Result<int>)
    ensures r == Success(0)
  {
    var store := new RecordStore();
    store.OpenConnection();
    var o := store.Setup();
    r := store.QueryRecordCount(date, resource);
  }

  /** Three rows inserted into a fresh database; the exact-date query lists one date by count, highest first. */
  method AggregationOrdering() returns (r: Result<seq<Row>>)
    ensures r == Success([Row("2024-01-01", "/b", 5), Row("2024-01-01", "/a", 3)])
  {
    var store := new RecordStore();
    store.OpenConnection();
    var o := store.Setup();
    o := store.InsertRecordCount(3, "2024-01-01", "/a");
    o := store.InsertRecordCount(5, "2024-01-01", "/b");
    o := store.InsertRecordCount(1, "2024-01-02", "/a");
    r := store.QueryRecords(Exact("2024-01-01"), None);
    assert store.table == map[Key("2024-01-01", "/a") := 3, Key("2024-01-01", "/b") := 5, Key("2024-01-02", "/a") := 1];
    OrderingExample();
  }
}
