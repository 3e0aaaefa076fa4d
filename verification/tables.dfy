/** A database table with an autoincrement integer primary key, as each
    service's SQLAlchemy model declares it (`id = Column(Integer,
    primary_key=True)`). Rows are kept in insertion order; `nextId` is the
    key the next insert receives. */
module Tables {
  import opened Http

  /** A stored record: the key the store assigned and the caller's fields. */
  datatype Row<F> = Row(id: int, fields: F)

  datatype Table<F> = Table(rows: seq<Row<F>>, nextId: int)

  /** Keys are positive, below the counter, and strictly increase in
      insertion order (hence are pairwise distinct). */
  predicate Valid<F>(t: Table<F>) {
    && 1 <= t.nextId
    && (forall i :: 0 <= i < |t.rows| ==> 1 <= t.rows[i].id < t.nextId)
    && (forall i, j :: 0 <= i < j < |t.rows| ==> t.rows[i].id < t.rows[j].id)
  }

  predicate HasId<F>(rows: seq<Row<F>>, id: int) {
    exists i :: 0 <= i < |rows| && rows[i].id == id
  }

  function EmptyTable<F>(): (t: Table<F>)
    ensures Valid(t) && |t.rows| == 0
  {
    Table([], 1)
  }

  /** `db.add(record); db.commit(); db.refresh(record)`: the record is
      appended under a key no stored row carries, and is returned with it. */
  function Insert<F>(t: Table<F>, fields: F): (r: (Table<F>, Row<F>))
    ensures r.0.rows == t.rows + [r.1]
    ensures r.1.id == t.nextId && r.1.fields == fields
    ensures Valid(t) ==> Valid(r.0) && !HasId(t.rows, r.1.id)
  {
    var row := Row(t.nextId, fields);
    (Table(t.rows + [row], t.nextId + 1), row)
  }

  /** `query.filter(Model.id == id).first()`: the first stored row with that
      key, or nothing. */
  function Lookup<F>(rows: seq<Row<F>>, id: int): (r: Option<Row<F>>)
    ensures r.Some? <==> HasId(rows, id)
    ensures r.Some? ==> r.value in rows && r.value.id == id
    ensures r.Some? ==> exists i :: 0 <= i < |rows| && rows[i] == r.value
                                   && forall j :: 0 <= j < i ==> rows[j].id != id
  {
    if |rows| == 0 then None
    else if rows[0].id == id then Some(rows[0])
    else
      var r := Lookup(rows[1..], id);
      assert HasId(rows, id) ==> HasId(rows[1..], id) by {
        if HasId(rows, id) {
          var i :| 0 <= i < |rows| && rows[i].id == id;
          assert rows[1..][i - 1].id == id;
        }
      }
      assert r.Some? ==> HasId(rows, id) by {
        if r.Some? {
          var i :| 0 <= i < |rows[1..]| && rows[1..][i] == r.value
                   && forall j :: 0 <= j < i ==> rows[1..][j].id != id;
          assert rows[i + 1] == r.value;
          assert forall j :: 0 <= j < i + 1 ==> rows[j].id != id by {
            forall j | 0 <= j < i + 1 ensures rows[j].id != id {
              if j > 0 { assert rows[j] == rows[1..][j - 1]; }
            }
          }
        }
      }
      r
  }

  /** In a valid table at most one row carries a given key, so the lookup
      finds exactly the row stored under it. */
  lemma LookupFindsStoredRow<F>(t: Table<F>, i: int)
    requires Valid(t)
    requires 0 <= i < |t.rows|
    ensures Lookup(t.rows, t.rows[i].id) == Some(t.rows[i])
  {
    var id := t.rows[i].id;
    assert HasId(t.rows, id);
    var r := Lookup(t.rows, id);
    var k :| 0 <= k < |t.rows| && t.rows[k] == r.value
             && forall j :: 0 <= j < k ==> t.rows[j].id != id;
    if k != i {
      assert false;
    }
  }

  /** After an insert, the new key finds the new row and every other key
      finds what it found before. */
  lemma {:induction false} LookupAfterInsert<F>(t: Table<F>, fields: F, id: int)
    requires Valid(t)
    ensures var (t', row) := Insert(t, fields);
            Lookup(t'.rows, id) == if id == row.id then Some(row) else Lookup(t.rows, id)
  {
    var (t', row) := Insert(t, fields);
    LookupAppend(t.rows, row, id);
  }

  lemma {:induction false} LookupAppend<F>(rows: seq<Row<F>>, row: Row<F>, id: int)
    ensures Lookup(rows + [row], id)
            == if HasId(rows, id) then Lookup(rows, id)
               else if row.id == id then Some(row) else None
  {
    if |rows| == 0 {
      assert rows + [row] == [row];
    } else {
      assert (rows + [row])[1..] == rows[1..] + [row];
      LookupAppend(rows[1..], row, id);
      if rows[0].id != id && HasId(rows, id) {
        var i :| 0 <= i < |rows| && rows[i].id == id;
        assert rows[1..][i - 1].id == id;
      }
    }
  }
}
