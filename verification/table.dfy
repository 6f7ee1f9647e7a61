/** A table of the browser database: records keyed by their primary key `id`.
    The application uses three such tables (books, notes, chat sessions) and
    relies on three of their operations: `toArray`, `add` and `bulkPut`. */
module Table {

  /** Every record is stored under its own id. */
  predicate KeyedById<T>(table: map<string, T>, idOf: T -> string) {
    forall k :: k in table ==> idOf(table[k]) == k
  }

  /** The ids of a sequence of records. */
  function IdsOf<T>(rows: seq<T>, idOf: T -> string): set<string> {
    set i | 0 <= i < |rows| :: idOf(rows[i])
  }

  /** No two rows share an id. */
  predicate DistinctIds<T>(rows: seq<T>, idOf: T -> string) {
    forall i, j :: 0 <= i < j < |rows| ==> idOf(rows[i]) != idOf(rows[j])
  }

  /** No later row has the id of row `i`. */
  predicate LastWithId<T>(rows: seq<T>, idOf: T -> string, i: int)
    requires 0 <= i < |rows|
  {
    forall j :: i < j < |rows| ==> idOf(rows[j]) != idOf(rows[i])
  }

  /** `rows` is what `toArray` may return for `table`: each record exactly once. */
  predicate Lists<T(==)>(rows: seq<T>, table: map<string, T>, idOf: T -> string) {
    && IdsOf(rows, idOf) == table.Keys
    && (forall i :: 0 <= i < |rows| ==> idOf(rows[i]) in table && table[idOf(rows[i])] == rows[i])
    && DistinctIds(rows, idOf)
  }

  /** Rows with distinct ids hold each row at most once. */
  lemma {:induction false} DistinctOnce<T>(rows: seq<T>, idOf: T -> string)
    requires DistinctIds(rows, idOf)
    ensures forall x :: multiset(rows)[x] <= 1
    decreases |rows|
  {
    if rows != [] {
      var rest := rows[1..];
      assert rows == [rows[0]] + rest;
      assert DistinctIds(rest, idOf) by {
        forall i, j | 0 <= i < j < |rest| ensures idOf(rest[i]) != idOf(rest[j]) {
          assert rest[i] == rows[i + 1] && rest[j] == rows[j + 1];
        }
      }
      DistinctOnce(rest, idOf);
      forall j | 0 <= j < |rest| ensures rest[j] != rows[0] {
        assert idOf(rest[j]) == idOf(rows[j + 1]) != idOf(rows[0]);
      }
      assert rows[0] !in rest;
    }
  }

  lemma IdsOfSnoc<T>(rows: seq<T>, idOf: T -> string)
    requires rows != []
    ensures IdsOf(rows, idOf) == IdsOf(rows[..|rows| - 1], idOf) + {idOf(rows[|rows| - 1])}
  {
    var front := rows[..|rows| - 1];
    forall k | k in IdsOf(rows, idOf)
      ensures k in IdsOf(front, idOf) + {idOf(rows[|rows| - 1])}
    {
      var i :| 0 <= i < |rows| && idOf(rows[i]) == k;
      if i < |rows| - 1 {
        assert idOf(front[i]) == k;
      }
    }
    forall k | k in IdsOf(front, idOf)
      ensures k in IdsOf(rows, idOf)
    {
      var i :| 0 <= i < |front| && idOf(front[i]) == k;
      assert idOf(rows[i]) == k;
    }
  }

  /** `table.bulkPut(rows)`: the rows are put one after another, each replacing
      whatever is stored under its id. Afterwards the table holds the old keys
      and the rows' ids, records whose id no row has are untouched, and for each
      id the last row carrying it is what is stored. */
  function BulkPut<T>(table: map<string, T>, rows: seq<T>, idOf: T -> string): (r: map<string, T>)
    ensures r.Keys == table.Keys + IdsOf(rows, idOf)
    ensures forall k :: k in table && k !in IdsOf(rows, idOf) ==> k in r && r[k] == table[k]
    ensures forall i :: 0 <= i < |rows| && LastWithId(rows, idOf, i) ==> idOf(rows[i]) in r && r[idOf(rows[i])] == rows[i]
    decreases |rows|
  {
    if rows == [] then table
    else
      var front, last := rows[..|rows| - 1], rows[|rows| - 1];
      var before := BulkPut(table, front, idOf);
      PutLast(before, table, rows, front, last, idOf);
      before[idOf(last) := last]
  }

  /** The step of `BulkPut`: if `before` is the table after all rows but the
      last, putting the last row gives the table after all rows. */
  lemma PutLast<T>(before: map<string, T>, table: map<string, T>, rows: seq<T>, front: seq<T>, last: T, idOf: T -> string)
    requires rows != [] && front == rows[..|rows| - 1] && last == rows[|rows| - 1]
    requires before.Keys == table.Keys + IdsOf(front, idOf)
    requires forall k :: k in table && k !in IdsOf(front, idOf) ==> k in before && before[k] == table[k]
    requires forall i :: 0 <= i < |front| && LastWithId(front, idOf, i) ==> idOf(front[i]) in before && before[idOf(front[i])] == front[i]
    ensures var r := before[idOf(last) := last];
      && r.Keys == table.Keys + IdsOf(rows, idOf)
      && (forall k :: k in table && k !in IdsOf(rows, idOf) ==> k in r && r[k] == table[k])
      && (forall i :: 0 <= i < |rows| && LastWithId(rows, idOf, i) ==> idOf(rows[i]) in r && r[idOf(rows[i])] == rows[i])
  {
    var r := before[idOf(last) := last];
    IdsOfSnoc(rows, idOf);
    forall i | 0 <= i < |rows| && LastWithId(rows, idOf, i)
      ensures idOf(rows[i]) in r && r[idOf(rows[i])] == rows[i]
    {
      if i < |rows| - 1 {
        assert idOf(rows[|rows| - 1]) != idOf(rows[i]);
        assert rows[i] == front[i];
        forall j | i < j < |front| ensures idOf(front[j]) != idOf(front[i]) {
          assert front[j] == rows[j];
        }
        assert LastWithId(front, idOf, i);
      }
    }
  }

  /** Putting records keyed by their ids keeps every record under its own id. */
  lemma {:induction false} BulkPutKeepsKeys<T>(table: map<string, T>, rows: seq<T>, idOf: T -> string)
    requires KeyedById(table, idOf)
    ensures KeyedById(BulkPut(table, rows, idOf), idOf)
    decreases |rows|
  {
    if rows != [] {
      BulkPutKeepsKeys(table, rows[..|rows| - 1], idOf);
    }
  }

  /** Putting a complete listing of `source` into `store` is the upsert
      `store + source`: ids of `source` take its records, every other record of
      `store` stays, and no other key appears. */
  lemma PutListing<T>(store: map<string, T>, rows: seq<T>, source: map<string, T>, idOf: T -> string)
    requires Lists(rows, source, idOf)
    ensures BulkPut(store, rows, idOf) == store + source
  {
    var r := BulkPut(store, rows, idOf);
    forall k | k in source
      ensures r[k] == source[k]
    {
      var i :| 0 <= i < |rows| && idOf(rows[i]) == k;
      assert LastWithId(rows, idOf, i);
    }
  }

  /** Every id among the rows has a last row carrying it. */
  lemma {:induction false} LastOccurrence<T>(rows: seq<T>, idOf: T -> string, k: string)
    requires k in IdsOf(rows, idOf)
    ensures exists i :: 0 <= i < |rows| && idOf(rows[i]) == k && LastWithId(rows, idOf, i)
    decreases |rows|
  {
    var n := |rows| - 1;
    if idOf(rows[n]) == k {
      assert LastWithId(rows, idOf, n);
    } else {
      var front := rows[..n];
      IdsOfSnoc(rows, idOf);
      LastOccurrence(front, idOf, k);
      var i :| 0 <= i < |front| && idOf(front[i]) == k && LastWithId(front, idOf, i);
      assert LastWithId(rows, idOf, i);
    }
  }

  /** Putting the same rows a second time changes nothing. */
  lemma BulkPutTwice<T>(table: map<string, T>, rows: seq<T>, idOf: T -> string)
    ensures BulkPut(BulkPut(table, rows, idOf), rows, idOf) == BulkPut(table, rows, idOf)
  {
    var once := BulkPut(table, rows, idOf);
    var twice := BulkPut(once, rows, idOf);
    forall k | k in twice
      ensures twice[k] == once[k]
    {
      if k in IdsOf(rows, idOf) {
        LastOccurrence(rows, idOf, k);
        var i :| 0 <= i < |rows| && idOf(rows[i]) == k && LastWithId(rows, idOf, i);
      }
    }
  }

  /** `table.toArray()`: every record of the table, each once. The order the
      database returns them in (by primary key) is left open. */
  method ToArray<T(==)>(table: map<string, T>, idOf: T -> string) returns (rows: seq<T>)
    requires KeyedById(table, idOf)
    ensures Lists(rows, table, idOf)
  {
    rows := [];
    var rest := table.Keys;
    while rest != {}
      invariant rest <= table.Keys
      invariant IdsOf(rows, idOf) == table.Keys - rest
      invariant forall i :: 0 <= i < |rows| ==> idOf(rows[i]) in table && table[idOf(rows[i])] == rows[i]
      invariant forall i :: 0 <= i < |rows| ==> idOf(rows[i]) !in rest
      invariant DistinctIds(rows, idOf)
      decreases rest
    {
      var k :| k in rest;
      ghost var before := rows;
      rows := rows + [table[k]];
      assert rows[..|rows| - 1] == before;
      IdsOfSnoc(rows, idOf);
      rest := rest - {k};
    }
  }
}
