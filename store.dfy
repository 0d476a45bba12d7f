/** The persistence layer: the `users`, `income` and `expenses` tables, held in memory.
    Each source function that opens a connection, runs one statement and commits is one
    method here; the SQL statements have their standard meaning (module Ledger). */
module Store {
  import opened Ledger
  import opened Dates

  /** The SHA-256 hex digest of a password, kept symbolic: a digest records only
      which password it was computed from, so equal digests mean equal passwords. */
  datatype Digest = Sha256(preimage: string)

  /** `hash_password`: deterministic, and injective. */
  function HashPassword(password: string): Digest
  {
    Sha256(password)
  }

  /** Two passwords with the same digest are the same password. */
  lemma HashInjective(p: string, q: string)
    requires HashPassword(p) == HashPassword(q)
    ensures p == q
  {
  }

  /** What signing up reports: the insert went through, or the primary key
      `username` was already taken (SQLite's `IntegrityError`). */
  datatype Signup = Created | DuplicateUsername

  /** The categories the expense form offers. */
  predicate IsExpenseCategory(c: string)
  {
    c == "Rent" || c == "Food" || c == "Transport" || c == "Utilities" || c == "Other"
  }

  /** Every stored `date` is `str(date)` of a date. */
  ghost predicate DatesStored(rows: seq<Row>)
  {
    forall i :: 0 <= i < |rows| ==> IsDateString(rows[i].date)
  }

  /** Deleting rows keeps every remaining date a stored date. */
  lemma DatesStoredDelete(rows: seq<Row>, id: int)
    requires DatesStored(rows)
    ensures DatesStored(DeleteId(rows, id))
  {
    var r := DeleteId(rows, id);
    forall i | 0 <= i < |r| ensures IsDateString(r[i].date) {
      var j :| 0 <= j < |rows| && rows[j] == r[i];
    }
  }

  /** One `id INTEGER PRIMARY KEY AUTOINCREMENT` table. `lastId` is SQLite's
      `sqlite_sequence` entry for it: the largest id ever issued, never lowered. */
  class Table {
    var rows: seq<Row>
    var lastId: nat

    ghost predicate Valid()
      reads this
    {
      && IdsAscending(rows)
      && (forall i :: 0 <= i < |rows| ==> rows[i].id <= lastId)
      && (forall i :: 0 <= i < |rows| ==> rows[i].amount >= 0.0)
    }

    /** `CREATE TABLE`: empty, nothing issued yet. */
    constructor ()
      ensures Valid() && rows == [] && lastId == 0
    {
      rows := [];
      lastId := 0;
    }

    /** `INSERT INTO <table> (username, date, <label>, amount) VALUES (?, ?, ?, ?)`:
        appends one row whose id is larger than every id issued before. */
    method Insert(username: string, date: string, tag: string, amount: real) returns (id: nat)
      requires Valid()
      requires amount >= 0.0
      modifies this
      ensures Valid()
      ensures id == old(lastId) + 1 && lastId == id
      ensures rows == old(rows) + [Row(id, username, date, tag, amount)]
      ensures forall i :: 0 <= i < |old(rows)| ==> old(rows)[i].id < id
    {
      id := lastId + 1;
      rows := rows + [Row(id, username, date, tag, amount)];
      lastId := id;
    }

    /** `DELETE FROM <table> WHERE id = ?`: no error when no row has that id. */
    method Delete(id: int)
      requires Valid()
      modifies this
      ensures Valid()
      ensures rows == DeleteId(old(rows), id) && lastId == old(lastId)
      ensures !HasId(old(rows), id) ==> rows == old(rows)
      ensures forall k :: 0 <= k < |old(rows)| && old(rows)[k].id == id ==>
                rows == old(rows)[..k] + old(rows)[k + 1..]
    {
      DeleteSpec(rows, id);
      rows := DeleteId(rows, id);
    }
  }

  /** The `finance.db` database. */
  class Database {
    /** `users(username PRIMARY KEY, password)`: a map, so one row per username. */
    var users: map<string, Digest>
    /** The password each user signed up with: what the stored digests were computed from. */
    ghost var passwords: map<string, string>
    const income: Table
    const expenses: Table

    ghost predicate Valid()
      reads this, income, expenses
    {
      && UsersValid() && income != expenses && income.Valid() && expenses.Valid()
      && DatesStored(income.rows) && DatesStored(expenses.rows)
    }

    /** Every stored digest is the digest of that user's signup password. */
    ghost predicate UsersValid()
      reads this
    {
      && users.Keys == passwords.Keys
      && forall u :: u in users ==> users[u] == HashPassword(passwords[u])
    }

    /** `create_tables` on a fresh database file. */
    constructor ()
      ensures Valid() && fresh(income) && fresh(expenses)
      ensures users == map[] && passwords == map[]
      ensures income.rows == [] && expenses.rows == []
      ensures income.lastId == 0 && expenses.lastId == 0
    {
      users := map[];
      passwords := map[];
      income := new Table();
      expenses := new Table();
    }

    /** `check_user`: login succeeds exactly with the password the user signed up with.
        The stored digest is compared, and equal digests mean equal passwords. */
    function CheckUser(username: string, password: string): (ok: bool)
      requires UsersValid()
      reads this
      ensures ok <==> username in passwords && passwords[username] == password
    {
      username in users && users[username] == HashPassword(password)
    }

    /** `add_user`: inserts the username with the password's hash, unless the username
        is already taken, in which case the insert fails and nothing changes. */
    method AddUser(username: string, password: string) returns (r: Signup)
      requires Valid()
      modifies this`users, this`passwords
      ensures Valid()
      ensures r == (if username in old(users) then DuplicateUsername else Created)
      ensures passwords == if r == Created then old(passwords)[username := password] else old(passwords)
      ensures r == DuplicateUsername ==> users == old(users)
      ensures r == Created ==> users == old(users)[username := HashPassword(password)]
      ensures r == Created ==> CheckUser(username, password)
      ensures r == Created ==> forall other :: CheckUser(username, other) ==> other == password
      ensures forall u, p :: u != username ==> (CheckUser(u, p) <==> old(CheckUser(u, p)))
    {
      if username in users {
        r := DuplicateUsername;
      } else {
        users := users[username := HashPassword(password)];
        passwords := passwords[username := password];
        r := Created;
      }
    }

    /** `load_data`: the user's income and expense entries, in storage order. */
    method LoadData(username: string) returns (inc: seq<Entry>, exp: seq<Entry>)
      requires Valid()
      ensures inc == Select(income.rows, username)
      ensures exp == Select(expenses.rows, username)
      ensures forall k :: 0 <= k < |inc| ==> inc[k].amount >= 0.0
      ensures forall k :: 0 <= k < |exp| ==> exp[k].amount >= 0.0
      ensures forall k :: 0 <= k < |inc| ==> IsDateString(inc[k].date)
      ensures forall k :: 0 <= k < |exp| ==> IsDateString(exp[k].date)
    {
      inc := Select(income.rows, username);
      exp := Select(expenses.rows, username);
      forall k | 0 <= k < |inc|
        ensures inc[k].amount >= 0.0 && IsDateString(inc[k].date)
      {
        SelectMembership(income.rows, username, inc[k]);
      }
      forall k | 0 <= k < |exp|
        ensures exp[k].amount >= 0.0 && IsDateString(exp[k].date)
      {
        SelectMembership(expenses.rows, username, exp[k]);
      }
    }

    /** `save_income`: one new income row holding `str(date)`; the user's next load
        ends with it and nobody else's load changes. */
    method SaveIncome(username: string, date: Date, source: string, amount: real) returns (id: nat)
      requires Valid() && ValidDate(date) && amount >= 0.0
      modifies income
      ensures Valid()
      ensures income.rows == old(income.rows) + [Row(id, username, DateString(date), source, amount)]
      ensures forall i :: 0 <= i < |old(income.rows)| ==> old(income.rows)[i].id < id
      ensures id == income.lastId && id > old(income.lastId)
      ensures Select(income.rows, username) ==
              old(Select(income.rows, username)) + [Entry(id, DateString(date), source, amount)]
      ensures forall v :: v != username ==> Select(income.rows, v) == old(Select(income.rows, v))
    {
      ghost var before := income.rows;
      id := income.Insert(username, DateString(date), source, amount);
      assert IsDateString(DateString(date));
      forall v
        ensures Select(income.rows, v) ==
                if v == username then Select(before, v) + [Entry(id, DateString(date), source, amount)]
                else Select(before, v)
      {
        SelectAfterAppend(before, Row(id, username, DateString(date), source, amount), v);
      }
    }

    /** `save_expense`: as `save_income`, on the expenses table. */
    method SaveExpense(username: string, date: Date, category: string, amount: real) returns (id: nat)
      requires Valid() && ValidDate(date) && amount >= 0.0 && IsExpenseCategory(category)
      modifies expenses
      ensures Valid()
      ensures expenses.rows == old(expenses.rows) + [Row(id, username, DateString(date), category, amount)]
      ensures forall i :: 0 <= i < |old(expenses.rows)| ==> old(expenses.rows)[i].id < id
      ensures id == expenses.lastId && id > old(expenses.lastId)
      ensures Select(expenses.rows, username) ==
              old(Select(expenses.rows, username)) + [Entry(id, DateString(date), category, amount)]
      ensures forall v :: v != username ==> Select(expenses.rows, v) == old(Select(expenses.rows, v))
    {
      ghost var before := expenses.rows;
      id := expenses.Insert(username, DateString(date), category, amount);
      assert IsDateString(DateString(date));
      forall v
        ensures Select(expenses.rows, v) ==
                if v == username then Select(before, v) + [Entry(id, DateString(date), category, amount)]
                else Select(before, v)
      {
        SelectAfterAppend(before, Row(id, username, DateString(date), category, amount), v);
      }
    }

    /** `delete_income_entry`: removes the income row with that id, whoever owns it;
        a no-op when there is none. The id counter is untouched. */
    method DeleteIncomeEntry(id: int)
      requires Valid()
      modifies income
      ensures Valid()
      ensures income.rows == DeleteId(old(income.rows), id) && income.lastId == old(income.lastId)
      ensures !HasId(income.rows, id)
      ensures !HasId(old(income.rows), id) ==> income.rows == old(income.rows)
      ensures forall k :: 0 <= k < |old(income.rows)| && old(income.rows)[k].id == id ==>
                income.rows == old(income.rows)[..k] + old(income.rows)[k + 1..]
    {
      DatesStoredDelete(income.rows, id);
      income.Delete(id);
      DeleteMembership(old(income.rows), id, Row(0, "", "", "", 0.0));
    }

    /** `delete_expense_entry`: as `delete_income_entry`, on the expenses table. */
    method DeleteExpenseEntry(id: int)
      requires Valid()
      modifies expenses
      ensures Valid()
      ensures expenses.rows == DeleteId(old(expenses.rows), id) && expenses.lastId == old(expenses.lastId)
      ensures !HasId(expenses.rows, id)
      ensures !HasId(old(expenses.rows), id) ==> expenses.rows == old(expenses.rows)
      ensures forall k :: 0 <= k < |old(expenses.rows)| && old(expenses.rows)[k].id == id ==>
                expenses.rows == old(expenses.rows)[..k] + old(expenses.rows)[k + 1..]
    {
      DatesStoredDelete(expenses.rows, id);
      expenses.Delete(id);
      DeleteMembership(old(expenses.rows), id, Row(0, "", "", "", 0.0));
    }
  }
}
