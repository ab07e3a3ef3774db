/** The relational store behind the route handlers, reduced to what the handlers use.

    A table is a sequence of rows in key order. Every key column is an IDENTITY column:
    the store hands out keys in increasing order and never reuses one. The handlers issue
    three kinds of statement: `SELECT ... WHERE`, `UPDATE ... WHERE key = @key` and
    `DELETE ... WHERE key = @key`; this module gives each a function, and `Fault` says
    which statement of a handler, if any, the store raises on. */
module Tables {

  /** One row of a table: its generated primary key and its other columns. */
  datatype Row<T> = Row(id: int, data: T)

  /** What a handler answers: a 200 with a JSON body, or an error status with a message. */
  datatype Reply<T> = Ok(body: T) | Error(status: nat, message: string)

  /** Whether the store raises while a handler runs, and on which of its statements.
      Statements are counted from 0 in the order the handler issues them (opening the
      connection belongs to statement 0). The statement that raises has no effect; the
      ones before it stay applied; the handler's `catch` answers 500 with the message. */
  datatype Fault = Healthy | RaisesAt(statement: nat, message: string) {
    predicate Raises(k: nat) {
      RaisesAt? && statement == k
    }
  }

  /** The keys of `rows` increase strictly in table order and all lie below `next`,
      the value the IDENTITY column hands out next. */
  ghost predicate Keyed<T>(rows: seq<Row<T>>, next: int) {
    && (forall i, j :: 0 <= i < j < |rows| ==> rows[i].id < rows[j].id)
    && (forall i :: 0 <= i < |rows| ==> rows[i].id < next)
  }

  predicate HasKey<T>(rows: seq<Row<T>>, id: int) {
    exists i :: 0 <= i < |rows| && rows[i].id == id
  }

  /** `SELECT * FROM T WHERE p`: the rows satisfying `p`, in table order. */
  function Where<T(!new)>(rows: seq<Row<T>>, p: Row<T> -> bool): (r: seq<Row<T>>)
    ensures forall x :: x in r <==> x in rows && p(x)
    ensures |r| <= |rows|
  {
    if rows == [] then []
    else
      assert rows == [rows[0]] + rows[1..];
      var rest := Where(rows[1..], p);
      if p(rows[0]) then [rows[0]] + rest else rest
  }

  /** A `SELECT` returns each satisfying row as often as the table holds it, and no other. */
  lemma {:induction false} WhereCount<T(!new)>(rows: seq<Row<T>>, p: Row<T> -> bool)
    ensures forall x :: multiset(Where(rows, p))[x] == if p(x) then multiset(rows)[x] else 0
  {
    if rows != [] {
      assert rows == [rows[0]] + rows[1..];
      WhereCount(rows[1..], p);
      if p(rows[0]) {
        assert Where(rows, p) == [rows[0]] + Where(rows[1..], p);
      } else {
        assert Where(rows, p) == Where(rows[1..], p);
      }
    }
  }

  /** `SELECT * FROM T WHERE key = @id`. */
  function WithKey<T(!new)>(rows: seq<Row<T>>, id: int): (r: seq<Row<T>>)
    ensures forall x :: x in r <==> x in rows && x.id == id
    ensures |r| > 0 <==> HasKey(rows, id)
  {
    if rows == [] then []
    else
      assert rows == [rows[0]] + rows[1..];
      assert HasKey(rows, id) <==> rows[0].id == id || HasKey(rows[1..], id) by {
        forall i | 0 < i < |rows| ensures rows[i] == rows[1..][i - 1] { }
        if HasKey(rows[1..], id) {
          var i :| 0 <= i < |rows[1..]| && rows[1..][i].id == id;
          assert rows[i + 1].id == id;
        }
      }
      if rows[0].id == id then [rows[0]] + WithKey(rows[1..], id) else WithKey(rows[1..], id)
  }

  /** `UPDATE T SET ... WHERE key = @id`, with `f` giving the new columns of a row. */
  function Update<T>(rows: seq<Row<T>>, id: int, f: T -> T): (r: seq<Row<T>>)
    ensures |r| == |rows|
    ensures forall i :: 0 <= i < |rows| ==>
      r[i] == if rows[i].id == id then Row(id, f(rows[i].data)) else rows[i]
  {
    if rows == [] then []
    else [if rows[0].id == id then Row(id, f(rows[0].data)) else rows[0]] + Update(rows[1..], id, f)
  }

  /** `DELETE FROM T WHERE key = @id`: every row with that key goes, every other row stays. */
  function Without<T(!new)>(rows: seq<Row<T>>, id: int): (r: seq<Row<T>>)
    ensures forall x :: x in r <==> x in rows && x.id != id
    ensures |r| <= |rows|
  {
    if rows == [] then []
    else
      assert rows == [rows[0]] + rows[1..];
      if rows[0].id == id then Without(rows[1..], id) else [rows[0]] + Without(rows[1..], id)
  }

  /** The first row a `SELECT` returns is the first row of the table that satisfies its condition. */
  lemma {:induction false} WhereHead<T(!new)>(rows: seq<Row<T>>, p: Row<T> -> bool)
    requires |Where(rows, p)| > 0
    ensures exists i :: 0 <= i < |rows| && rows[i] == Where(rows, p)[0] && p(rows[i])
                        && forall j :: 0 <= j < i ==> !p(rows[j])
  {
    var tail := rows[1..];
    if !p(rows[0]) {
      assert Where(rows, p) == Where(tail, p);
      WhereHead(tail, p);
      var i :| 0 <= i < |tail| && tail[i] == Where(tail, p)[0] && p(tail[i])
               && forall j :: 0 <= j < i ==> !p(tail[j]);
      assert rows[i + 1] == tail[i];
      assert forall j :: 0 < j < i + 1 ==> rows[j] == tail[j - 1];
    } else {
      assert Where(rows, p) == [rows[0]] + Where(tail, p);
    }
  }

  /** Looking up the key of the row just appended finds that row and nothing else. */
  lemma {:induction false} WithKeyAppended<T(!new)>(rows: seq<Row<T>>, x: Row<T>)
    requires !HasKey(rows, x.id)
    ensures WithKey(rows + [x], x.id) == [x]
  {
    if rows == [] {
      assert rows + [x] == [x];
      assert [x][1..] == [];
    } else {
      assert (rows + [x])[1..] == rows[1..] + [x];
      assert !HasKey(rows[1..], x.id) by {
        forall i | 0 <= i < |rows[1..]| ensures rows[1..][i].id != x.id {
          assert rows[1..][i] == rows[i + 1];
        }
      }
      WithKeyAppended(rows[1..], x);
      assert rows[0].id != x.id;
    }
  }

  /** Deleting a key no row has leaves the table as it was. */
  lemma {:induction false} WithoutMissing<T(!new)>(rows: seq<Row<T>>, id: int)
    requires !HasKey(rows, id)
    ensures Without(rows, id) == rows
  {
    if rows != [] {
      assert !HasKey(rows[1..], id) by {
        forall i | 0 <= i < |rows[1..]| ensures rows[1..][i].id != id {
          assert rows[1..][i] == rows[i + 1];
        }
      }
      WithoutMissing(rows[1..], id);
      assert rows[0].id != id;
      assert rows == [rows[0]] + rows[1..];
    }
  }

  /** Deleting the same key twice deletes nothing more the second time. */
  lemma WithoutTwice<T(!new)>(rows: seq<Row<T>>, id: int)
    ensures Without(Without(rows, id), id) == Without(rows, id)
  {
    var once := Without(rows, id);
    assert !HasKey(once, id) by {
      forall i | 0 <= i < |once| ensures once[i].id != id {
        assert once[i] in once;
      }
    }
    WithoutMissing(once, id);
  }

  /** Deleting the key of the row just appended gives back the table before the append. */
  lemma {:induction false} WithoutAppended<T(!new)>(rows: seq<Row<T>>, x: Row<T>)
    requires !HasKey(rows, x.id)
    ensures Without(rows + [x], x.id) == rows
  {
    if rows == [] {
      assert rows + [x] == [x];
      assert [x][1..] == [];
    } else {
      assert (rows + [x])[1..] == rows[1..] + [x];
      assert !HasKey(rows[1..], x.id) by {
        forall i | 0 <= i < |rows[1..]| ensures rows[1..][i].id != x.id {
          assert rows[1..][i] == rows[i + 1];
        }
      }
      WithoutAppended(rows[1..], x);
      assert rows[0].id != x.id;
      assert rows == [rows[0]] + rows[1..];
    }
  }

  /** An `UPDATE` whose key no row has changes nothing. */
  lemma UpdateMissing<T>(rows: seq<Row<T>>, id: int, f: T -> T)
    requires !HasKey(rows, id)
    ensures Update(rows, id, f) == rows
  {
    var r := Update(rows, id, f);
    forall i | 0 <= i < |rows| ensures r[i] == rows[i] {
      assert rows[i].id != id;
    }
  }

  /** Appending a row under the next IDENTITY value keeps the table keyed. */
  lemma KeyedAppend<T>(rows: seq<Row<T>>, next: int, data: T)
    requires Keyed(rows, next)
    ensures Keyed(rows + [Row(next, data)], next + 1)
    ensures !HasKey(rows, next)
  {
  }

  /** A `DELETE` keeps the remaining keys in order. */
  lemma {:induction false} KeyedWithout<T(!new)>(rows: seq<Row<T>>, next: int, id: int)
    requires Keyed(rows, next)
    ensures Keyed(Without(rows, id), next)
  {
    if rows != [] {
      KeyedTail(rows, next);
      KeyedWithout(rows[1..], next, id);
      var rest := Without(rows[1..], id);
      if rows[0].id != id {
        forall k | 0 <= k < |rest| ensures rows[0].id < rest[k].id {
          assert rest[k] in rows[1..];
        }
        KeyedCons(rows[0], rest, next);
      }
    }
  }

  lemma KeyedTail<T>(rows: seq<Row<T>>, next: int)
    requires Keyed(rows, next) && rows != []
    ensures Keyed(rows[1..], next)
    ensures forall x :: x in rows[1..] ==> rows[0].id < x.id
  {
    forall x | x in rows[1..] ensures rows[0].id < x.id {
      var m :| 0 <= m < |rows[1..]| && rows[1..][m] == x;
      assert rows[m + 1] == x;
    }
  }

  lemma KeyedCons<T>(x: Row<T>, rest: seq<Row<T>>, next: int)
    requires Keyed(rest, next) && x.id < next
    requires forall k :: 0 <= k < |rest| ==> x.id < rest[k].id
    ensures Keyed([x] + rest, next)
  {
    var r := [x] + rest;
    forall i, j | 0 <= i < j < |r| ensures r[i].id < r[j].id {
      assert r[j] == rest[j - 1];
      if i > 0 { assert r[i] == rest[i - 1]; }
    }
  }

  /** In a keyed table a key names at most one row. */
  lemma KeyedUnique<T>(rows: seq<Row<T>>, next: int, x: Row<T>, y: Row<T>)
    requires Keyed(rows, next) && x in rows && y in rows && x.id == y.id
    ensures x == y
  {
  }
}
