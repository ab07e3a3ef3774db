/** The transaction ledger served under `/db`: the Account and Transactions tables, the
    two handlers that change them (`POST /transactions`, `DELETE /transactions/:id`) and
    the three that only read them (`GET /transactions/:user_id`, `GET /accounts/:user_id`,
    `GET /budgets/accounts/:user_id`).

    Amounts and balances are whole numbers of minor currency units, exact like the
    DECIMAL columns. A transaction moves its account's balance by its amount, so
    `Offsets` (each balance less the amounts recorded against it) is what the two
    writing handlers keep fixed when neither of their statements fails. */
module Ledger {
  import opened Tables

  /** A row of Account, without its key `account_id`. */
  datatype Account = Account(userId: int, accountType: string, balance: int)

  /** A row of Transactions, without its key `transaction_id`. */
  datatype Transaction = Transaction(accountId: int, amount: int, date: string, description: string)

  /** The three columns `SELECT account_id, account_type, balance` returns. */
  datatype AccountView = AccountView(accountId: int, accountType: string, balance: int)

  const NoAccounts := "No accounts found for this user"
  const NotFound := "Transaction not found"
  const Added := "Transaction added and balance updated successfully!"
  const Deleted := "Transaction deleted and balance updated successfully!"

  /** `SELECT ... FROM Account WHERE user_id = @user_id`. */
  function AccountsOf(accounts: seq<Row<Account>>, userId: int): (r: seq<Row<Account>>)
    ensures forall a :: a in r <==> a in accounts && a.data.userId == userId
    ensures forall a :: multiset(r)[a] == if a.data.userId == userId then multiset(accounts)[a] else 0
  {
    WhereCount(accounts, (a: Row<Account>) => a.data.userId == userId);
    Where(accounts, (a: Row<Account>) => a.data.userId == userId)
  }

  /** The user owns an account with key `accountId`. */
  ghost predicate Owns(accounts: seq<Row<Account>>, userId: int, accountId: int) {
    exists a :: a in accounts && a.id == accountId && a.data.userId == userId
  }

  /** The key column of a result, as `recordset.map(account => account.account_id)` gives it. */
  function Ids<T>(rows: seq<Row<T>>): seq<int> {
    seq(|rows|, i requires 0 <= i < |rows| => rows[i].id)
  }

  function View(a: Row<Account>): AccountView {
    AccountView(a.id, a.data.accountType, a.data.balance)
  }

  /** The listed columns of each row, one view per row and in the same order. */
  function Views(rows: seq<Row<Account>>): (r: seq<AccountView>)
    ensures |r| == |rows| && forall i :: 0 <= i < |rows| ==> r[i] == View(rows[i])
    ensures forall v :: v in r <==> exists a :: a in rows && v == View(a)
  {
    if rows == [] then []
    else
      assert rows == [rows[0]] + rows[1..];
      [View(rows[0])] + Views(rows[1..])
  }

  /** `GET /transactions/:user_id`: the user's account keys first, a 404 when there are none,
      then every transaction whose account is among them (the `IN (...)` list as membership). */
  function ListTransactions(accounts: seq<Row<Account>>, txns: seq<Row<Transaction>>, userId: int,
                            fault: Fault): (r: Reply<seq<Row<Transaction>>>)
    ensures fault.Raises(0) ==> r == Error(500, fault.message)
    ensures r == Error(404, NoAccounts) <==>
              !fault.Raises(0) && forall a :: a in accounts ==> a.data.userId != userId
    ensures r.Error? && r != Error(404, NoAccounts) ==> fault.RaisesAt? && r == Error(500, fault.message)
    ensures r.Ok? <==> !fault.Raises(0) && !fault.Raises(1) && exists a :: a in accounts && a.data.userId == userId
    ensures r.Ok? ==> forall t :: t in r.body <==> t in txns && Owns(accounts, userId, t.data.accountId)
    ensures r.Ok? ==> forall t ::
              multiset(r.body)[t] == if Owns(accounts, userId, t.data.accountId) then multiset(txns)[t] else 0
  {
    if fault.Raises(0) then Error(500, fault.message)
    else
      var owned := AccountsOf(accounts, userId);
      var ids := Ids(owned);
      assert forall k :: k in ids <==> exists a :: a in owned && a.id == k by {
        forall k ensures k in ids <==> exists a :: a in owned && a.id == k {
          if k in ids {
            var i :| 0 <= i < |ids| && ids[i] == k;
            assert owned[i] in owned;
          }
          if exists a :: a in owned && a.id == k {
            var a :| a in owned && a.id == k;
            var i :| 0 <= i < |owned| && owned[i] == a;
            assert ids[i] == k;
          }
        }
      }
      if |ids| == 0 then
        assert forall a :: a in accounts ==> a.data.userId != userId by {
          forall a | a in accounts ensures a.data.userId != userId {
            assert a !in owned;
          }
        }
        Error(404, NoAccounts)
      else if fault.Raises(1) then
        assert owned[0] in accounts;
        Error(500, fault.message)
      else
        assert owned[0] in accounts;
        assert forall t: Row<Transaction> :: t.data.accountId in ids <==> Owns(accounts, userId, t.data.accountId);
        WhereCount(txns, (t: Row<Transaction>) => t.data.accountId in ids);
        Ok(Where(txns, (t: Row<Transaction>) => t.data.accountId in ids))
  }

  /** `GET /accounts/:user_id`: the user's accounts, an empty list when there are none. */
  function ListAccounts(accounts: seq<Row<Account>>, userId: int, fault: Fault): (r: Reply<seq<AccountView>>)
    ensures r.Error? <==> fault.Raises(0)
    ensures r.Error? ==> r == Error(500, fault.message)
    ensures r.Ok? ==> forall v :: v in r.body <==>
              exists a :: a in accounts && a.data.userId == userId && v == View(a)
    ensures r.Ok? ==> var owned := AccountsOf(accounts, userId);
              |r.body| == |owned| && forall i :: 0 <= i < |owned| ==> r.body[i] == View(owned[i])
  {
    if fault.Raises(0) then Error(500, fault.message)
    else
      Ok(Views(AccountsOf(accounts, userId)))
  }

  /** `GET /budgets/accounts/:user_id`: the same rows, but a 404 when there are none. */
  function ListBudgetAccounts(accounts: seq<Row<Account>>, userId: int, fault: Fault): (r: Reply<seq<AccountView>>)
    ensures fault.Raises(0) ==> r == Error(500, fault.message)
    ensures r == Error(404, NoAccounts) <==>
              !fault.Raises(0) && forall a :: a in accounts ==> a.data.userId != userId
    ensures r.Error? ==> fault.Raises(0) || r == Error(404, NoAccounts)
    ensures r.Ok? ==> forall v :: v in r.body <==>
              exists a :: a in accounts && a.data.userId == userId && v == View(a)
    ensures r.Ok? ==> var owned := AccountsOf(accounts, userId);
              |r.body| == |owned| && forall i :: 0 <= i < |owned| ==> r.body[i] == View(owned[i])
  {
    match ListAccounts(accounts, userId, fault)
    case Ok(vs) =>
      if |vs| == 0 then
        assert forall a :: a in accounts ==> a.data.userId != userId by {
          forall a | a in accounts ensures a.data.userId != userId {
            assert View(a) !in vs;
          }
        }
        Error(404, NoAccounts)
      else
        assert vs[0] in vs;
        Ok(vs)
    case Error(status, message) => Error(status, message)
  }

  /** The two account listings return the same rows and differ only on a user with no
      account: an empty list from one, a 404 from the other. */
  lemma AccountListingsDiffer(accounts: seq<Row<Account>>, userId: int, fault: Fault)
    ensures ListBudgetAccounts(accounts, userId, fault) ==
              if ListAccounts(accounts, userId, fault) == Ok([]) then Error(404, NoAccounts)
              else ListAccounts(accounts, userId, fault)
  {
  }

  /** The sum of the amounts of the transactions recorded against `accountId`. */
  function Total(txns: seq<Row<Transaction>>, accountId: int): int {
    if txns == [] then 0
    else (if txns[0].data.accountId == accountId then txns[0].data.amount else 0) + Total(txns[1..], accountId)
  }

  /** `UPDATE Account SET balance = balance + @delta WHERE account_id = @account_id`. */
  function Credit(accounts: seq<Row<Account>>, accountId: int, delta: int): seq<Row<Account>> {
    Update(accounts, accountId, (a: Account) => a.(balance := a.balance + delta))
  }

  /** Each account's balance less the amounts of the transactions recorded against it:
      its opening balance, for as long as every transaction has moved it. */
  function Offsets(accounts: seq<Row<Account>>, txns: seq<Row<Transaction>>): seq<int> {
    seq(|accounts|, i requires 0 <= i < |accounts| => accounts[i].data.balance - Total(txns, accounts[i].id))
  }

  lemma {:induction false} TotalAppend(txns: seq<Row<Transaction>>, x: Row<Transaction>, accountId: int)
    ensures Total(txns + [x], accountId) ==
              Total(txns, accountId) + if x.data.accountId == accountId then x.data.amount else 0
  {
    if txns == [] {
      assert txns + [x] == [x];
      assert [x][1..] == [];
    } else {
      assert (txns + [x])[1..] == txns[1..] + [x];
      TotalAppend(txns[1..], x, accountId);
    }
  }

  /** Deleting a transaction by its key takes exactly its amount out of its account's total. */
  lemma {:induction false} TotalWithout(txns: seq<Row<Transaction>>, next: int, row: Row<Transaction>, accountId: int)
    requires Keyed(txns, next) && row in txns
    ensures Total(Without(txns, row.id), accountId) ==
              Total(txns, accountId) - if row.data.accountId == accountId then row.data.amount else 0
  {
    assert txns == [txns[0]] + txns[1..];
    if txns[0].id == row.id {
      KeyedUnique(txns, next, txns[0], row);
      assert !HasKey(txns[1..], row.id) by {
        forall i | 0 <= i < |txns[1..]| ensures txns[1..][i].id != row.id {
          assert txns[1..][i] == txns[i + 1];
        }
      }
      WithoutMissing(txns[1..], row.id);
    } else {
      TotalWithout(txns[1..], next, row, accountId);
    }
  }

  /** A healthy `POST /transactions` leaves every account's offset where it was. */
  lemma AddKeepsOffsets(accounts: seq<Row<Account>>, txns: seq<Row<Transaction>>, x: Row<Transaction>)
    ensures Offsets(Credit(accounts, x.data.accountId, x.data.amount), txns + [x]) == Offsets(accounts, txns)
  {
    var after := Credit(accounts, x.data.accountId, x.data.amount);
    forall i | 0 <= i < |accounts|
      ensures Offsets(after, txns + [x])[i] == Offsets(accounts, txns)[i]
    {
      TotalAppend(txns, x, accounts[i].id);
    }
  }

  /** A healthy `DELETE /transactions/:id` of a stored row leaves every account's offset where it was. */
  lemma DeleteKeepsOffsets(accounts: seq<Row<Account>>, txns: seq<Row<Transaction>>, next: int, row: Row<Transaction>)
    requires Keyed(txns, next) && row in txns
    ensures Offsets(Credit(accounts, row.data.accountId, -row.data.amount), Without(txns, row.id)) ==
              Offsets(accounts, txns)
  {
    var after := Credit(accounts, row.data.accountId, -row.data.amount);
    forall i | 0 <= i < |accounts|
      ensures Offsets(after, Without(txns, row.id))[i] == Offsets(accounts, txns)[i]
    {
      TotalWithout(txns, next, row, accounts[i].id);
    }
  }

  /** The handlers' two writes are separate statements: when the balance update of
      `POST /transactions` raises after the insert, a nonzero amount for an existing
      account leaves that account's offset changed. */
  lemma PartialAddBreaksOffsets(accounts: seq<Row<Account>>, txns: seq<Row<Transaction>>, x: Row<Transaction>, i: nat)
    requires i < |accounts| && accounts[i].id == x.data.accountId && x.data.amount != 0
    ensures Offsets(accounts, txns + [x]) != Offsets(accounts, txns)
  {
    TotalAppend(txns, x, x.data.accountId);
    assert Offsets(accounts, txns + [x])[i] != Offsets(accounts, txns)[i];
  }

  /** Likewise when the balance update of `DELETE /transactions/:id` raises after the delete. */
  lemma PartialDeleteBreaksOffsets(accounts: seq<Row<Account>>, txns: seq<Row<Transaction>>, next: int,
                                   row: Row<Transaction>, i: nat)
    requires Keyed(txns, next) && row in txns
    requires i < |accounts| && accounts[i].id == row.data.accountId && row.data.amount != 0
    ensures Offsets(accounts, Without(txns, row.id)) != Offsets(accounts, txns)
  {
    TotalWithout(txns, next, row, row.data.accountId);
    assert Offsets(accounts, Without(txns, row.id))[i] != Offsets(accounts, txns)[i];
  }

  /** Adding a transaction and then deleting it by the key it was given: the delete finds
      exactly the row just added, and both tables come back to what they were. */
  lemma AddThenDeleteRestores(accounts: seq<Row<Account>>, txns: seq<Row<Transaction>>, next: int, t: Transaction)
    requires Keyed(txns, next)
    ensures WithKey(txns + [Row(next, t)], next) == [Row(next, t)]
    ensures Without(txns + [Row(next, t)], next) == txns
    ensures Credit(Credit(accounts, t.accountId, t.amount), t.accountId, -t.amount) == accounts
  {
    KeyedAppend(txns, next, t);
    WithKeyAppended(txns, Row(next, t));
    WithoutAppended(txns, Row(next, t));
    CreditThenDebit(accounts, t.accountId, t.amount);
  }

  /** The state after an add and then a delete of the same new key, step by step, is the
      state before both. */
  lemma AddedThenDeleted(accounts0: seq<Row<Account>>, txns0: seq<Row<Transaction>>,
                         accounts1: seq<Row<Account>>, txns1: seq<Row<Transaction>>,
                         accounts2: seq<Row<Account>>, txns2: seq<Row<Transaction>>, row: Row<Transaction>)
    requires Keyed(txns0, row.id)
    requires txns1 == txns0 + [row] && accounts1 == Credit(accounts0, row.data.accountId, row.data.amount)
    requires txns2 == Without(txns1, row.id)
    requires forall other :: other in txns1 && other.id == row.id ==>
               accounts2 == Credit(accounts1, other.data.accountId, -other.data.amount)
    ensures accounts2 == accounts0 && txns2 == txns0
  {
    assert txns1[|txns0|] == row;
    assert accounts2 == Credit(accounts1, row.data.accountId, -row.data.amount);
    AddThenDeleteRestores(accounts0, txns0, row.id, row.data);
  }

  /** A balance UPDATE moves only the balance of the account with that key, by `delta`:
      every account keeps its key, user and type, and every other balance stays. */
  lemma CreditFrame(accounts: seq<Row<Account>>, accountId: int, delta: int)
    ensures |Credit(accounts, accountId, delta)| == |accounts|
    ensures forall i :: 0 <= i < |accounts| ==>
              var (was, now) := (accounts[i], Credit(accounts, accountId, delta)[i]);
              && now.id == was.id
              && now.data.userId == was.data.userId
              && now.data.accountType == was.data.accountType
              && now.data.balance == was.data.balance + if was.id == accountId then delta else 0
  {
  }

  /** Crediting an account and then debiting it by the same amount restores the table. */
  lemma CreditThenDebit(accounts: seq<Row<Account>>, accountId: int, amount: int)
    ensures Credit(Credit(accounts, accountId, amount), accountId, -amount) == accounts
  {
    var back := Credit(Credit(accounts, accountId, amount), accountId, -amount);
    forall i | 0 <= i < |accounts| ensures back[i] == accounts[i] { }
  }

  /** The Account and Transactions tables as the `/db` handlers change them. */
  class LedgerStore {
    var accounts: seq<Row<Account>>
    var transactions: seq<Row<Transaction>>
    var nextTransactionId: int

    ghost predicate Valid()
      reads this
    {
      Keyed(transactions, nextTransactionId)
    }

    constructor (accounts: seq<Row<Account>>, transactions: seq<Row<Transaction>>, nextTransactionId: int)
      requires Keyed(transactions, nextTransactionId)
      ensures Valid()
      ensures this.accounts == accounts && this.transactions == transactions
      ensures this.nextTransactionId == nextTransactionId
    {
      this.accounts := accounts;
      this.transactions := transactions;
      this.nextTransactionId := nextTransactionId;
    }

    /** `POST /transactions`: statement 0 inserts the row, statement 1 credits its account. */
    method AddTransaction(accountId: int, amount: int, date: string, description: string, fault: Fault)
      returns (reply: Reply<string>)
      requires Valid()
      modifies this
      ensures Valid()
      ensures fault.Raises(0) ==>
                && reply == Error(500, fault.message)
                && accounts == old(accounts) && transactions == old(transactions)
                && nextTransactionId == old(nextTransactionId)
      ensures !fault.Raises(0) ==>
                && transactions == old(transactions) + [Row(old(nextTransactionId), Transaction(accountId, amount, date, description))]
                && nextTransactionId == old(nextTransactionId) + 1
      ensures fault.Raises(1) ==> reply == Error(500, fault.message) && accounts == old(accounts)
      ensures !fault.Raises(0) && !fault.Raises(1) ==>
                && reply == Ok(Added)
                && accounts == Credit(old(accounts), accountId, amount)
                && Offsets(accounts, transactions) == old(Offsets(accounts, transactions))
    {
      if fault.Raises(0) {
        return Error(500, fault.message);
      }
      var row := Row(nextTransactionId, Transaction(accountId, amount, date, description));
      KeyedAppend(transactions, nextTransactionId, row.data);
      transactions := transactions + [row];
      nextTransactionId := nextTransactionId + 1;
      if fault.Raises(1) {
        return Error(500, fault.message);
      }
      AddKeepsOffsets(accounts, old(transactions), row);
      accounts := Credit(accounts, accountId, amount);
      reply := Ok(Added);
    }

    /** `DELETE /transactions/:id`: statement 0 looks the row up, statement 1 deletes it,
        statement 2 debits the account and amount recorded in the row. */
    method DeleteTransaction(id: int, fault: Fault) returns (reply: Reply<string>)
      requires Valid()
      modifies this
      ensures Valid() && nextTransactionId == old(nextTransactionId)
      ensures fault.Raises(0) ==> reply == Error(500, fault.message)
      ensures !fault.Raises(0) && !HasKey(old(transactions), id) ==> reply == Error(404, NotFound)
      ensures fault.Raises(0) || !HasKey(old(transactions), id) || fault.Raises(1) ==>
                accounts == old(accounts) && transactions == old(transactions)
      ensures !fault.Raises(0) && HasKey(old(transactions), id) ==>
                && (fault.Raises(1) ==> reply == Error(500, fault.message))
                && (!fault.Raises(1) ==> transactions == Without(old(transactions), id))
                && (fault.Raises(2) ==> reply == Error(500, fault.message) && accounts == old(accounts))
                && (!fault.Raises(1) && !fault.Raises(2) ==>
                      && reply == Ok(Deleted)
                      && (forall row :: row in old(transactions) && row.id == id ==>
                            accounts == Credit(old(accounts), row.data.accountId, -row.data.amount))
                      && Offsets(accounts, transactions) == old(Offsets(accounts, transactions)))
    {
      if fault.Raises(0) {
        return Error(500, fault.message);
      }
      var found := WithKey(transactions, id);
      if |found| == 0 {
        return Error(404, NotFound);
      }
      var row := found[0];
      assert row in found;
      if fault.Raises(1) {
        return Error(500, fault.message);
      }
      KeyedWithout(transactions, nextTransactionId, id);
      DeleteKeepsOffsets(accounts, transactions, nextTransactionId, row);
      forall other | other in transactions && other.id == id ensures other == row {
        KeyedUnique(transactions, nextTransactionId, other, row);
      }
      transactions := Without(transactions, id);
      if fault.Raises(2) {
        return Error(500, fault.message);
      }
      accounts := Credit(accounts, row.data.accountId, -row.data.amount);
      reply := Ok(Deleted);
    }

    /** A transaction added and then deleted by the key it was given leaves no trace in
        either table. */
    method AddThenDelete(accountId: int, amount: int, date: string, description: string)
      returns (added: Reply<string>, deleted: Reply<string>)
      requires Valid()
      modifies this
      ensures Valid()
      ensures added == Ok(Added) && deleted == Ok(Deleted)
      ensures accounts == old(accounts) && transactions == old(transactions)
    {
      var id := nextTransactionId;
      var t := Transaction(accountId, amount, date, description);
      ghost var (accounts0, transactions0) := (accounts, transactions);
      added := AddTransaction(accountId, amount, date, description, Healthy);
      ghost var (accounts1, transactions1) := (accounts, transactions);
      assert HasKey(transactions1, id) by {
        assert transactions1[|transactions1| - 1] == Row(id, t);
      }
      deleted := DeleteTransaction(id, Healthy);
      AddedThenDeleted(accounts0, transactions0, accounts1, transactions1, accounts, transactions, Row(id, t));
    }
  }

  /** One account opened at 100.00; a debit of 40.00, a credit of 15.50, then the debit
      is deleted. Returns the balance before and after each step. */
  method Scenario() returns (balances: seq<int>)
    ensures balances == [10000, 6000, 7550, 11550]
  {
    var store := new LedgerStore([Row(1, Account(7, "checking", 10000))], [], 1);
    balances := [store.accounts[0].data.balance];
    var r1 := store.AddTransaction(1, -4000, "2024-11-01", "groceries", Healthy);
    assert store.accounts[0].data.balance == 6000;
    balances := balances + [store.accounts[0].data.balance];
    var r2 := store.AddTransaction(1, 1550, "2024-11-02", "refund", Healthy);
    assert store.accounts[0].data.balance == 7550;
    balances := balances + [store.accounts[0].data.balance];
    var groceries := Row(1, Transaction(1, -4000, "2024-11-01", "groceries"));
    ghost var stored := store.transactions;
    assert stored[0] == groceries;
    var r3 := store.DeleteTransaction(1, Healthy);
    assert groceries in stored;
    balances := balances + [store.accounts[0].data.balance];
  }
}
