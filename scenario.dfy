/** Clients of the store and the dashboard, following one user through signing up,
    logging in, recording an income and an expense, and deleting the expense. */
module Scenario {
  import opened Ledger
  import opened Dates
  import opened Store
  import opened Grouping
  import opened Dashboard

  /** On a fresh database: the second signup under the same name is refused, and
      the first password logs in while the second one does not. */
  method SignupWalkthrough() returns (first: Signup, second: Signup, login: bool, wrongLogin: bool)
    ensures first == Created && second == DuplicateUsername
    ensures login && !wrongLogin
  {
    var db := new Database();
    first := db.AddUser("alice", "s3cret");
    second := db.AddUser("alice", "other");
    login := db.CheckUser("alice", "s3cret");
    wrongLogin := db.CheckUser("alice", "other");
  }

  /** On a fresh database, after one income of 3000 and one rent expense of 1200,
      the dashboard shows income 3000, expenses 1200, savings 1800 and a single
      category "Rent"; once the expense entry is deleted the expense total is 0. */
  method DashboardWalkthrough() returns (before: Totals, breakdown: seq<Group>, after: Totals)
    ensures before == Totals(3000.0, 1200.0, 1800.0)
    ensures breakdown == [Group("Rent", 1200.0)]
    ensures after == Totals(3000.0, 0.0, 3000.0)
  {
    var db := new Database();
    assert Select(db.income.rows, "alice") == [] && Select(db.expenses.rows, "alice") == [];
    var incomeId := db.SaveIncome("alice", Date(2024, 1, 15), "Salary", 3000.0);
    var salary := Entry(incomeId, DateString(Date(2024, 1, 15)), "Salary", 3000.0);
    assert Select(db.income.rows, "alice") == [salary];
    var expenseId := db.SaveExpense("alice", Date(2024, 1, 20), "Rent", 1200.0);
    var rent := Entry(expenseId, DateString(Date(2024, 1, 20)), "Rent", 1200.0);
    assert Select(db.expenses.rows, "alice") == [rent];
    var inc, exp := db.LoadData("alice");
    OneEntry(salary);
    OneEntry(rent);
    before := ComputeTotals(inc, exp);
    breakdown := CategorySums(exp);

    db.DeleteExpenseEntry(expenseId);
    inc, exp := db.LoadData("alice");
    assert exp == [];
    after := ComputeTotals(inc, exp);
  }

  /** A single entry sums to its amount and forms one group under its label. */
  lemma OneEntry(e: Entry)
    ensures Sum([e]) == e.amount
    ensures CategorySums([e]) == [Group(e.tag, e.amount)]
  {
    assert [e][1..] == [];
    assert CategorySums([e]) == AddTo(GroupBy([], TagOf), TagOf(e), e.amount);
  }
}
