/** Rows of the `income` and `expenses` tables and the meaning of the SQL statements
    run against them (`SELECT ... WHERE username = ?`, `DELETE ... WHERE id = ?`). */
module Ledger {
  import opened Seqs

  /** A stored transaction. `tag` is the `source` column of `income` and the
      `category` column of `expenses`; amounts are exact. */
  datatype Row = Row(id: nat, username: string, date: string, tag: string, amount: real)

  /** A row as the load query returns it: `SELECT id, date, <source|category>, amount`. */
  datatype Entry = Entry(id: nat, date: string, tag: string, amount: real)

  function Project(r: Row): Entry
  {
    Entry(r.id, r.date, r.tag, r.amount)
  }

  /** Storage order keeps ids strictly ascending (rows are appended with fresh,
      larger ids), so in particular ids are unique. */
  ghost predicate IdsAscending(rows: seq<Row>)
  {
    forall i, j :: 0 <= i < j < |rows| ==> rows[i].id < rows[j].id
  }

  predicate OwnedBy(r: Row, username: string)
  {
    r.username == username
  }

  /** `SELECT id, date, <source|category>, amount FROM <table> WHERE username = ?`, in storage order. */
  function Select(rows: seq<Row>, username: string): (es: seq<Entry>)
    ensures |es| <= |rows|
  {
    if rows == [] then []
    else if OwnedBy(rows[0], username) then [Project(rows[0])] + Select(rows[1..], username)
    else Select(rows[1..], username)
  }

  /** An entry is loaded for a user iff some row of that user projects to it. */
  lemma {:induction false} SelectMembership(rows: seq<Row>, username: string, e: Entry)
    ensures e in Select(rows, username) <==>
            exists i :: 0 <= i < |rows| && OwnedBy(rows[i], username) && Project(rows[i]) == e
  {
    if rows != [] {
      SelectMembership(rows[1..], username, e);
      if exists i :: 0 <= i < |rows| && OwnedBy(rows[i], username) && Project(rows[i]) == e {
        var i :| 0 <= i < |rows| && OwnedBy(rows[i], username) && Project(rows[i]) == e;
        if i > 0 {
          assert rows[1..][i - 1] == rows[i];
        }
      }
      if e in Select(rows[1..], username) {
        var i :| 0 <= i < |rows[1..]| && OwnedBy(rows[1..][i], username) && Project(rows[1..][i]) == e;
        assert rows[i + 1] == rows[1..][i];
      }
    }
  }

  /** Loading distributes over concatenation of storage. */
  lemma {:induction false} SelectAppend(a: seq<Row>, b: seq<Row>, username: string)
    ensures Select(a + b, username) == Select(a, username) + Select(b, username)
  {
    if a == [] {
      assert a + b == b;
    } else {
      assert (a + b)[0] == a[0] && (a + b)[1..] == a[1..] + b;
      SelectAppend(a[1..], b, username);
    }
  }

  /** After a row is appended, its owner's load gains exactly that entry at the end,
      and every other user's load is unchanged. */
  lemma SelectAfterAppend(rows: seq<Row>, r: Row, username: string)
    ensures Select(rows + [r], username) ==
            if OwnedBy(r, username) then Select(rows, username) + [Project(r)] else Select(rows, username)
  {
    SelectAppend(rows, [r], username);
    assert [r][1..] == [];
  }

  /** Every entry loaded for a user has the id of one of that user's rows. */
  lemma SelectIds(rows: seq<Row>, username: string, k: nat)
    requires k < |Select(rows, username)|
    ensures exists i :: 0 <= i < |rows| && OwnedBy(rows[i], username) && rows[i].id == Select(rows, username)[k].id
  {
    SelectMembership(rows, username, Select(rows, username)[k]);
  }

  predicate KeepsOtherIds(id: int, r: Row)
  {
    r.id != id
  }

  /** `DELETE FROM <table> WHERE id = ?`. */
  function DeleteId(rows: seq<Row>, id: int): seq<Row>
  {
    Filter(rows, r => KeepsOtherIds(id, r))
  }

  predicate HasId(rows: seq<Row>, id: int)
  {
    exists i :: 0 <= i < |rows| && rows[i].id == id
  }

  /** Deleting an id that no row carries changes nothing. */
  lemma DeleteAbsent(rows: seq<Row>, id: int)
    requires !HasId(rows, id)
    ensures DeleteId(rows, id) == rows
  {
    FilterKeepsAll(rows, r => KeepsOtherIds(id, r));
  }

  /** Deleting the same id twice is deleting it once. */
  lemma DeleteIdempotent(rows: seq<Row>, id: int)
    ensures DeleteId(DeleteId(rows, id), id) == DeleteId(rows, id)
  {
    FilterIdempotent(rows, r => KeepsOtherIds(id, r));
  }

  /** Deletion looks at the first row and continues with the rest. */
  lemma DeleteIdUnfold(rows: seq<Row>, id: int)
    requires rows != []
    ensures DeleteId(rows, id) ==
            if rows[0].id != id then [rows[0]] + DeleteId(rows[1..], id) else DeleteId(rows[1..], id)
  {
  }

  lemma AscendingTail(rows: seq<Row>)
    requires IdsAscending(rows) && rows != []
    ensures IdsAscending(rows[1..])
  {
    var tail := rows[1..];
    forall i, j | 0 <= i < j < |tail|
      ensures tail[i].id < tail[j].id
    {
      assert tail[i] == rows[i + 1] && tail[j] == rows[j + 1];
    }
  }

  /** Deleting the id of the first row, when ids ascend, drops just that row. */
  lemma DeleteFirst(rows: seq<Row>)
    requires IdsAscending(rows) && rows != []
    ensures DeleteId(rows, rows[0].id) == rows[1..]
  {
    var tail := rows[1..];
    DeleteIdUnfold(rows, rows[0].id);
    assert !HasId(tail, rows[0].id) by {
      assert forall i :: 0 <= i < |tail| ==> tail[i] == rows[i + 1];
    }
    DeleteAbsent(tail, rows[0].id);
  }

  /** With ascending ids, deleting the id of row k removes exactly that row. */
  lemma {:induction false} DeleteExactlyOne(rows: seq<Row>, k: nat)
    requires IdsAscending(rows) && k < |rows|
    ensures DeleteId(rows, rows[k].id) == rows[..k] + rows[k + 1..]
  {
    if k == 0 {
      DeleteFirst(rows);
    } else {
      var tail := rows[1..];
      AscendingTail(rows);
      assert tail[k - 1] == rows[k];
      DeleteExactlyOne(tail, k - 1);
      DeleteIdUnfold(rows, rows[k].id);
      assert rows[0].id < rows[k].id;
      DropSplit(rows, k);
    }
  }

  /** Everything `DELETE ... WHERE id = ?` promises on a table whose ids ascend:
      the order is kept, only rows already there remain, an absent id changes nothing,
      and a present id removes exactly its row. */
  lemma DeleteSpec(rows: seq<Row>, id: int)
    requires IdsAscending(rows)
    ensures IdsAscending(DeleteId(rows, id))
    ensures forall i :: 0 <= i < |DeleteId(rows, id)| ==> DeleteId(rows, id)[i] in rows
    ensures !HasId(rows, id) ==> DeleteId(rows, id) == rows
    ensures forall k :: 0 <= k < |rows| && rows[k].id == id ==> DeleteId(rows, id) == rows[..k] + rows[k + 1..]
  {
    DeleteKeepsOrder(rows, id);
    if !HasId(rows, id) {
      DeleteAbsent(rows, id);
    }
    forall k | 0 <= k < |rows| && rows[k].id == id
      ensures DeleteId(rows, id) == rows[..k] + rows[k + 1..]
    {
      DeleteExactlyOne(rows, k);
    }
  }

  lemma DropSplit<T>(s: seq<T>, k: nat)
    requires 0 < k < |s|
    ensures s[..k] + s[k + 1..] == [s[0]] + (s[1..][..k - 1] + s[1..][k..])
  {
  }

  /** Afterwards no row carries the deleted id, and the rows left are the old rows with other ids. */
  lemma DeleteMembership(rows: seq<Row>, id: int, r: Row)
    ensures !HasId(DeleteId(rows, id), id)
    ensures r in DeleteId(rows, id) <==> r in rows && r.id != id
  {
  }

  /** Deletion keeps storage order, hence ascending ids. */
  lemma {:induction false} DeleteKeepsOrder(rows: seq<Row>, id: int)
    requires IdsAscending(rows)
    ensures IdsAscending(DeleteId(rows, id))
  {
    if rows != [] {
      DeleteKeepsOrder(rows[1..], id);
      var tail := DeleteId(rows[1..], id);
      forall t | t in tail
        ensures rows[0].id < t.id
      {
        var m :| 0 <= m < |rows[1..]| && rows[1..][m] == t;
        assert rows[m + 1] == t;
      }
    }
  }

  /** Deleting one user's row leaves every load that did not contain that id unchanged. */
  lemma {:induction false} SelectAfterDelete(rows: seq<Row>, id: int, username: string)
    requires forall i :: 0 <= i < |rows| && OwnedBy(rows[i], username) ==> rows[i].id != id
    ensures Select(DeleteId(rows, id), username) == Select(rows, username)
  {
    if rows != [] {
      SelectAfterDelete(rows[1..], id, username);
      DeleteIdUnfold(rows, id);
      if rows[0].id != id {
        assert DeleteId(rows, id)[0] == rows[0] && DeleteId(rows, id)[1..] == DeleteId(rows[1..], id);
      }
    }
  }
}
