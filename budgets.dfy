/** The Budget table served under `/budgets`: a listing by user and one handler each to
    create, update and delete a row. There is no check of any kind beyond what the store
    itself raises: budgets may repeat or overlap, and an update or delete of a key no row
    has reports success. */
module Budgets {
  import opened Tables

  /** A row of Budget, without its key `budget_id`. */
  datatype Budget = Budget(userId: int, accountId: int, categoryId: int, amount: int,
                           startDate: string, endDate: string)

  const Added := "Budget added successfully!"
  const Updated := "Budget updated successfully!"
  const Deleted := "Budget deleted successfully!"

  /** `GET /budgets/:user_id`: every Budget row of the user. */
  function ListBudgets(budgets: seq<Row<Budget>>, userId: int, fault: Fault): (r: Reply<seq<Row<Budget>>>)
    ensures r.Error? <==> fault.Raises(0)
    ensures r.Error? ==> r == Error(500, fault.message)
    ensures r.Ok? ==> forall b :: b in r.body <==> b in budgets && b.data.userId == userId
    ensures r.Ok? ==> forall b :: multiset(r.body)[b] == if b.data.userId == userId then multiset(budgets)[b] else 0
  {
    if fault.Raises(0) then Error(500, fault.message)
    else
      WhereCount(budgets, (b: Row<Budget>) => b.data.userId == userId);
      Ok(Where(budgets, (b: Row<Budget>) => b.data.userId == userId))
  }

  /** `UPDATE Budget SET amount = @amount, start_date = @start_date, end_date = @end_date
      WHERE budget_id = @budget_id`. */
  function Revised(budgets: seq<Row<Budget>>, id: int, amount: int, startDate: string, endDate: string)
    : seq<Row<Budget>>
  {
    Update(budgets, id, (b: Budget) => b.(amount := amount, startDate := startDate, endDate := endDate))
  }

  /** An update sets the amount and the two dates of the row with that key and nothing
      else: its key, user, account and category stay, and so does every other row. */
  lemma RevisedFrame(budgets: seq<Row<Budget>>, id: int, amount: int, startDate: string, endDate: string)
    ensures |Revised(budgets, id, amount, startDate, endDate)| == |budgets|
    ensures forall i :: 0 <= i < |budgets| ==>
              var (was, now) := (budgets[i], Revised(budgets, id, amount, startDate, endDate)[i]);
              && now.id == was.id
              && now.data.userId == was.data.userId
              && now.data.accountId == was.data.accountId
              && now.data.categoryId == was.data.categoryId
              && (was.id == id ==> now.data.amount == amount && now.data.startDate == startDate
                                   && now.data.endDate == endDate)
              && (was.id != id ==> now == was)
  {
  }

  /** An update of a key no row has leaves the table as it was. */
  lemma RevisedMissing(budgets: seq<Row<Budget>>, id: int, amount: int, startDate: string, endDate: string)
    requires !HasKey(budgets, id)
    ensures Revised(budgets, id, amount, startDate, endDate) == budgets
  {
    UpdateMissing(budgets, id, (b: Budget) => b.(amount := amount, startDate := startDate, endDate := endDate));
  }

  /** A budget just created shows in its user's next listing; once deleted by the key it
      was given, it is gone from the listing, which is again what it was before. */
  lemma CreatedListedDeleted(budgets: seq<Row<Budget>>, next: int, b: Budget, fault: Fault)
    requires Keyed(budgets, next) && !fault.Raises(0)
    ensures ListBudgets(budgets + [Row(next, b)], b.userId, fault).Ok?
    ensures Row(next, b) in ListBudgets(budgets + [Row(next, b)], b.userId, fault).body
    ensures Row(next, b) !in ListBudgets(Without(budgets + [Row(next, b)], next), b.userId, fault).body
    ensures ListBudgets(Without(budgets + [Row(next, b)], next), b.userId, fault) == ListBudgets(budgets, b.userId, fault)
  {
    KeyedAppend(budgets, next, b);
    WithoutAppended(budgets, Row(next, b));
  }

  /** The Budget table as the `/budgets` handlers change it. */
  class BudgetStore {
    var budgets: seq<Row<Budget>>
    var nextBudgetId: int

    ghost predicate Valid()
      reads this
    {
      Keyed(budgets, nextBudgetId)
    }

    constructor (budgets: seq<Row<Budget>>, nextBudgetId: int)
      requires Keyed(budgets, nextBudgetId)
      ensures Valid() && this.budgets == budgets && this.nextBudgetId == nextBudgetId
    {
      this.budgets := budgets;
      this.nextBudgetId := nextBudgetId;
    }

    /** `POST /budgets`: one insert carrying all six submitted columns. */
    method CreateBudget(userId: int, accountId: int, categoryId: int, amount: int,
                        startDate: string, endDate: string, fault: Fault)
      returns (reply: Reply<string>)
      requires Valid()
      modifies this
      ensures Valid()
      ensures fault.Raises(0) ==>
                reply == Error(500, fault.message) && budgets == old(budgets) && nextBudgetId == old(nextBudgetId)
      ensures !fault.Raises(0) ==>
                && reply == Ok(Added)
                && budgets == old(budgets) + [Row(old(nextBudgetId), Budget(userId, accountId, categoryId, amount, startDate, endDate))]
                && nextBudgetId == old(nextBudgetId) + 1
    {
      if fault.Raises(0) {
        return Error(500, fault.message);
      }
      var b := Budget(userId, accountId, categoryId, amount, startDate, endDate);
      KeyedAppend(budgets, nextBudgetId, b);
      budgets := budgets + [Row(nextBudgetId, b)];
      nextBudgetId := nextBudgetId + 1;
      reply := Ok(Added);
    }

    /** `PUT /budgets/:budget_id`: one update of amount and dates, reported as a success
        whether or not a row had that key. */
    method UpdateBudget(budgetId: int, amount: int, startDate: string, endDate: string, fault: Fault)
      returns (reply: Reply<string>)
      requires Valid()
      modifies this
      ensures Valid() && nextBudgetId == old(nextBudgetId)
      ensures fault.Raises(0) ==> reply == Error(500, fault.message) && budgets == old(budgets)
      ensures !fault.Raises(0) ==>
                reply == Ok(Updated) && budgets == Revised(old(budgets), budgetId, amount, startDate, endDate)
    {
      if fault.Raises(0) {
        return Error(500, fault.message);
      }
      budgets := Revised(budgets, budgetId, amount, startDate, endDate);
      reply := Ok(Updated);
    }

    /** `DELETE /budgets/:budget_id`: one delete, reported as a success whether or not a
        row had that key. */
    method DeleteBudget(budgetId: int, fault: Fault) returns (reply: Reply<string>)
      requires Valid()
      modifies this
      ensures Valid() && nextBudgetId == old(nextBudgetId)
      ensures fault.Raises(0) ==> reply == Error(500, fault.message) && budgets == old(budgets)
      ensures !fault.Raises(0) ==> reply == Ok(Deleted) && budgets == Without(old(budgets), budgetId)
    {
      if fault.Raises(0) {
        return Error(500, fault.message);
      }
      KeyedWithout(budgets, nextBudgetId, budgetId);
      budgets := Without(budgets, budgetId);
      reply := Ok(Deleted);
    }

    /** Deleting the same key twice: both report success, and the second changes nothing. */
    method DeleteTwice(budgetId: int) returns (first: Reply<string>, second: Reply<string>)
      requires Valid()
      modifies this
      ensures Valid()
      ensures first == Ok(Deleted) && second == Ok(Deleted)
      ensures budgets == Without(old(budgets), budgetId)
    {
      first := DeleteBudget(budgetId, Healthy);
      WithoutTwice(old(budgets), budgetId);
      second := DeleteBudget(budgetId, Healthy);
    }

    /** Two budgets with the same user, account, category, amount and dates are both
        accepted and both listed. */
    method CreateTwice(b: Budget) returns (first: Reply<string>, second: Reply<string>)
      requires Valid()
      modifies this
      ensures Valid()
      ensures first == Ok(Added) && second == Ok(Added)
      ensures Row(old(nextBudgetId), b) in ListBudgets(budgets, b.userId, Healthy).body
      ensures Row(old(nextBudgetId) + 1, b) in ListBudgets(budgets, b.userId, Healthy).body
    {
      first := CreateBudget(b.userId, b.accountId, b.categoryId, b.amount, b.startDate, b.endDate, Healthy);
      second := CreateBudget(b.userId, b.accountId, b.categoryId, b.amount, b.startDate, b.endDate, Healthy);
    }
  }
}
