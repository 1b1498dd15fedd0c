/**
 The contents of the `records` table and the pure meaning of the SQL
 statements the record store issues against it.

 The table `records(record_date, resource, record_count)` carries the unique
 index `date_content` on `(record_date, resource)`, so it holds at most one
 row per pair: it is a finite map from that pair to the row's count.
 */
module Records {
  import Collation

  datatype Option<T> = None | Some(value: T)

  /** The columns the unique index `date_content` covers. */
  datatype Key = Key(date: string, resource: string)

  /** The `records` table: one `record_count` per `(record_date, resource)`. */
  type Table = map<Key, int>

  /** One result tuple `(record_date, resource, sum(record_count))`. */
  datatype Row = Row(date: string, resource: string, count: int)

  /** The two kinds of `date_query`: an integer is a date length, a string an exact date. */
  datatype DateQuery = ByLength(n: int) | Exact(date: string)

  /** The WHERE clause of the query `q` selects a row with this `record_date`. */
  predicate Matches(date: string, q: DateQuery)
  {
    match q
    case ByLength(n) => |date| == n
    case Exact(s) => date == s
  }

  /** The WHERE clause of the pruning DELETE: same length as `period`, different value. */
  predicate Stale(date: string, period: string)
  {
    |date| == |period| && date != period
  }

  function Min(a: int, b: int): (m: int)
  {
    if a <= b then a else b
  }

  /** `SELECT record_count ... WHERE record_date = ? AND resource = ?`, with 0 for no row. */
  function CountOf(t: Table, k: Key): (c: int)
  {
    if k in t then t[k] else 0
  }

  /** `UPDATE records SET record_count = ? WHERE record_date = ? AND resource = ?`. */
  function Update(t: Table, k: Key, count: int): (r: Table)
    ensures r.Keys == t.Keys
    ensures k in t ==> r[k] == count
    ensures forall j :: j in t && j != k ==> r[j] == t[j]
  {
    if k in t then t[k := count] else t
  }

  /** `DELETE FROM records WHERE length(record_date) = ? AND record_date != ?`. */
  function Prune(t: Table, period: string): (r: Table)
    ensures r.Keys <= t.Keys
    ensures forall k :: k in r ==> r[k] == t[k]
    ensures forall k :: k in r && |k.date| == |period| ==> k.date == period
    ensures forall k :: k in t && (|k.date| != |period| || k.date == period) ==> k in r
  {
    map k | k in t && !Stale(k.date, period) :: t[k]
  }

  lemma PruneIdempotent(t: Table, period: string)
    ensures Prune(Prune(t, period), period) == Prune(t, period)
  {
  }

  /** The rows the query `q` selects, each group `(record_date, resource)` summed. */
  function Selected(t: Table, q: DateQuery): (s: set<Row>)
    ensures forall x :: x in s <==>
      Key(x.date, x.resource) in t && t[Key(x.date, x.resource)] == x.count && Matches(x.date, q)
  {
    set k | k in t && Matches(k.date, q) :: Row(k.date, k.resource, t[k])
  }

  /** `ORDER BY record_date DESC, record_count DESC, resource`: `a` comes before `b`. */
  predicate Before(a: Row, b: Row)
  {
    || Collation.Less(b.date, a.date)
    || (a.date == b.date && a.count > b.count)
    || (a.date == b.date && a.count == b.count && Collation.Less(a.resource, b.resource))
  }

  lemma BeforeIrreflexive(a: Row)
    ensures !Before(a, a)
  {
    Collation.LessIrreflexive(a.date);
    Collation.LessIrreflexive(a.resource);
  }

  lemma BeforeAsymmetric(a: Row, b: Row)
    requires Before(a, b)
    ensures !Before(b, a)
  {
    if Collation.Less(b.date, a.date) {
      Collation.LessAsymmetric(b.date, a.date);
      Collation.LessIrreflexive(a.date);
    } else if Collation.Less(a.resource, b.resource) {
      Collation.LessAsymmetric(a.resource, b.resource);
      Collation.LessIrreflexive(a.date);
    } else {
      Collation.LessIrreflexive(a.date);
    }
  }

  lemma BeforeTransitive(a: Row, b: Row, c: Row)
    requires Before(a, b) && Before(b, c)
    ensures Before(a, c)
  {
    if Collation.Less(b.date, a.date) && Collation.Less(c.date, b.date) {
      Collation.LessTransitive(c.date, b.date, a.date);
    } else if a.date == b.date == c.date && a.count == b.count == c.count {
      Collation.LessTransitive(a.resource, b.resource, c.resource);
    }
  }

  lemma BeforeTotal(a: Row, b: Row)
    requires a != b
    ensures Before(a, b) || Before(b, a)
  {
    if a.date != b.date {
      Collation.LessTotal(a.date, b.date);
    } else if a.count == b.count {
      Collation.LessTotal(a.resource, b.resource);
    }
  }

  /** Every earlier row comes strictly before every later one. */
  predicate StrictlySorted(s: seq<Row>)
  {
    forall i, j :: 0 <= i < j < |s| ==> Before(s[i], s[j])
  }

  /** `m` is the row of `s` that the ORDER BY clause puts first. */
  predicate IsFirst(m: Row, s: set<Row>)
  {
    m in s && forall y :: y in s && y != m ==> Before(m, y)
  }

  lemma {:induction false} FirstExists(s: set<Row>)
    requires s != {}
    ensures exists m :: IsFirst(m, s)
  {
    var x :| x in s;
    if s == {x} {
      assert IsFirst(x, s);
    } else {
      var rest := s - {x};
      FirstExists(rest);
      var m :| IsFirst(m, rest);
      if Before(x, m) {
        forall y | y in s && y != x
          ensures Before(x, y)
        {
          if y != m {
            BeforeTransitive(x, m, y);
          }
        }
        assert IsFirst(x, s);
      } else {
        BeforeTotal(x, m);
        assert IsFirst(m, s);
      }
    }
  }

  /** The first row of a non-empty selection. */
  function First(s: set<Row>): (m: Row)
    requires s != {}
    ensures IsFirst(m, s)
  {
    FirstExists(s);
    var m :| m in s && IsFirst(m, s);
    assert forall m' :: m' in s && IsFirst(m', s) ==> m' == m by {
      forall m' | m' in s && IsFirst(m', s)
        ensures m' == m
      {
        if m' != m {
          BeforeAsymmetric(m, m');
        }
      }
    }
    m
  }

  /** The selection listed in ORDER BY order. */
  function SortRows(s: set<Row>): (r: seq<Row>)
    ensures StrictlySorted(r)
    ensures forall x :: x in r <==> x in s
    ensures |r| == |s|
    decreases |s|
  {
    if s == {} then []
    else
      var m := First(s);
      [m] + SortRows(s - {m})
  }

  /** There is only one strictly sorted listing of a set of rows: the ORDER BY fixes the result. */
  lemma {:induction false} SortedUnique(a: seq<Row>, b: seq<Row>)
    requires StrictlySorted(a) && StrictlySorted(b)
    requires forall x :: x in a <==> x in b
    ensures a == b
  {
    assert a != [] ==> a[0] in b;
    assert b != [] ==> b[0] in a;
    if a != [] && b != [] {
      if a[0] != b[0] {
        assert b[0] in a && a[0] in b;
        var i :| 0 <= i < |a| && a[i] == b[0];
        var j :| 0 <= j < |b| && b[j] == a[0];
        assert Before(a[0], b[0]) && Before(b[0], a[0]);
        BeforeAsymmetric(a[0], b[0]);
      }
      forall x
        ensures x in a[1..] <==> x in b[1..]
      {
        BeforeIrreflexive(x);
        if x in a[1..] {
          var i :| 1 <= i < |a| && a[i] == x;
          assert x in b && x != b[0];
          var j :| 0 <= j < |b| && b[j] == x;
          assert b[1..][j - 1] == x;
        }
        if x in b[1..] {
          var j :| 1 <= j < |b| && b[j] == x;
          assert x in a && x != a[0];
          var i :| 0 <= i < |a| && a[i] == x;
          assert a[1..][i - 1] == x;
        }
      }
      SortedUnique(a[1..], b[1..]);
    }
  }

  /** `if limit:` then `LIMIT limit`; SQLite reads a negative LIMIT as no bound. */
  predicate Capped(limit: Option<int>)
  {
    limit.Some? && limit.value > 0
  }

  /**
   The result of `query_records(date_query, limit)`: the selected rows in
   ORDER BY order, cut to the first `limit` rows when a positive limit is given.
   */
  function Listing(t: Table, q: DateQuery, limit: Option<int>): (rows: seq<Row>)
    ensures StrictlySorted(rows)
    ensures forall x :: x in rows ==>
      Key(x.date, x.resource) in t && t[Key(x.date, x.resource)] == x.count && Matches(x.date, q)
    ensures !Capped(limit) ==> forall k :: k in t && Matches(k.date, q) ==> Row(k.date, k.resource, t[k]) in rows
    ensures |rows| == if Capped(limit) then Min(limit.value, |Selected(t, q)|) else |Selected(t, q)|
    ensures forall x, y :: x in rows && y in Selected(t, q) && y !in rows ==> Before(x, y)
  {
    var all := SortRows(Selected(t, q));
    if Capped(limit) && limit.value < |all| then
      assert forall x, y :: x in all[..limit.value] && y in all && y !in all[..limit.value] ==> Before(x, y) by {
        forall x, y | x in all[..limit.value] && y in all && y !in all[..limit.value]
          ensures Before(x, y)
        {
          var i :| 0 <= i < limit.value && all[i] == x;
          var j :| 0 <= j < |all| && all[j] == y;
        }
      }
      all[..limit.value]
    else
      all
  }

  /** Pruning with the period "2024" drops the other year, keeps the year itself and full dates. */
  lemma StalenessExample()
    ensures Prune(map[Key("2023", "/a") := 4, Key("2024", "/a") := 7, Key("2024-01-01", "/a") := 2], "2024")
         == map[Key("2024", "/a") := 7, Key("2024-01-01", "/a") := 2]
  {
  }

  /** An exact-date query lists that date's rows by count, highest first. */
  lemma OrderingExample()
    ensures Listing(map[Key("2024-01-01", "/a") := 3, Key("2024-01-01", "/b") := 5, Key("2024-01-02", "/a") := 1],
                    Exact("2024-01-01"), None)
         == [Row("2024-01-01", "/b", 5), Row("2024-01-01", "/a", 3)]
  {
    var t := map[Key("2024-01-01", "/a") := 3, Key("2024-01-01", "/b") := 5, Key("2024-01-02", "/a") := 1];
    var rows := Listing(t, Exact("2024-01-01"), None);
    var expected := [Row("2024-01-01", "/b", 5), Row("2024-01-01", "/a", 3)];
    assert StrictlySorted(expected);
    forall x
      ensures x in rows <==> x in expected
    {
      if x in rows {
        assert Key(x.date, x.resource) in t && x.date == "2024-01-01";
      }
      if x in expected {
        assert Key(x.date, x.resource) in t;
      }
    }
    SortedUnique(rows, expected);
  }
}
