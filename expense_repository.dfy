/**
 * The expense repository: a class over the expense table. Each write either
 * commits its change or throws and leaves the table as it was.
 */
module Repositories {
  import opened Results
  import opened Entities
  import opened ExpenseTable

  class ExpenseRepository {
    /** The rows of the expense table, in the store's natural order. */
    var rows: seq<Expense>

    ghost predicate Valid()
      reads this
    {
      UniqueIds(rows)
    }

    constructor (initial: seq<Expense>)
      requires UniqueIds(initial)
      ensures Valid() && rows == initial
    {
      rows := initial;
    }

    /** Insert `e` under its own key; a key already present makes the save throw. */
    method AddExpense(e: Expense) returns (r: Outcome<StoreError>)
      requires Valid()
      modifies this
      ensures Valid()
      ensures r.Pass? <==> !HasId(old(rows), e.id)
      ensures r.Pass? ==> rows == old(rows) + [e]
      ensures r.Pass? ==> Lookup(rows, e.id) == Some(e)
      ensures r.Pass? ==> forall k :: k != e.id ==> Lookup(rows, k) == Lookup(old(rows), k)
      ensures r.Fail? ==> r.error == DuplicateKey(e.id) && rows == old(rows)
    {
      if Lookup(rows, e.id).Some? {
        r := Fail(DuplicateKey(e.id));
      } else {
        forall k ensures Lookup(rows + [e], k) == if k == e.id then Some(e) else Lookup(rows, k) {
          LookupAppend(rows, e, k);
        }
        rows := rows + [e];
        r := Pass;
      }
    }

    /** Every stored row, in table order. */
    method GetAllExpenses() returns (all: seq<Expense>)
      ensures all == rows
    {
      all := rows;
    }

    /** The row with key `id`, or None when there is none. */
    method GetExpenseById(id: int) returns (r: Option<Expense>)
      requires Valid()
      ensures r.Some? <==> HasId(rows, id)
      ensures r.Some? ==> r.value in rows && r.value.id == id
    {
      r := Lookup(rows, id);
    }

    /** Overwrite the row that has `e`'s key with `e`; an absent key makes the save throw. */
    method UpdateExpense(e: Expense) returns (r: Outcome<StoreError>)
      requires Valid()
      modifies this
      ensures Valid()
      ensures r.Pass? <==> HasId(old(rows), e.id)
      ensures r.Pass? ==> rows == Replace(old(rows), e)
      ensures r.Pass? ==> Lookup(rows, e.id) == Some(e)
      ensures r.Pass? ==> forall k :: k != e.id ==> Lookup(rows, k) == Lookup(old(rows), k)
      ensures r.Fail? ==> r.error == KeyNotFound(e.id) && rows == old(rows)
    {
      if Lookup(rows, e.id).None? {
        r := Fail(KeyNotFound(e.id));
      } else {
        forall k | k != e.id ensures Lookup(Replace(rows, e), k) == Lookup(rows, k) {
          LookupReplaceOther(rows, e, k);
        }
        rows := Replace(rows, e);
        r := Pass;
      }
    }

    /** Remove the row with key `id` if there is one; otherwise do nothing. */
    method DeleteExpense(id: int) returns (removed: bool)
      requires Valid()
      modifies this
      ensures Valid()
      ensures removed <==> HasId(old(rows), id)
      ensures removed ==> rows == Remove(old(rows), id) && |rows| == |old(rows)| - 1
      ensures !removed ==> rows == old(rows)
      ensures Lookup(rows, id) == None
      ensures forall k :: k != id ==> Lookup(rows, k) == Lookup(old(rows), k)
    {
      var found := Lookup(rows, id);
      if found.Some? {
        RemoveKeepsKeysUnique(rows, id);
        RemoveOneRow(rows, id);
        forall k ensures Lookup(Remove(rows, id), k) == if k == id then None else Lookup(rows, k) {
          LookupRemove(rows, id, k);
        }
        rows := Remove(rows, id);
        removed := true;
      } else {
        removed := false;
      }
    }
  }

  /** With unique keys, removing a present key drops exactly one row. */
  lemma {:induction false} RemoveOneRow(rows: seq<Expense>, id: int)
    requires UniqueIds(rows) && HasId(rows, id)
    ensures |Remove(rows, id)| == |rows| - 1
  {
    HasIdCons(rows, id);
    assert UniqueIds(rows[1..]) by {
      forall i, j | 0 <= i < j < |rows[1..]| ensures rows[1..][i].id != rows[1..][j].id {
        assert rows[1..][i] == rows[i + 1] && rows[1..][j] == rows[j + 1];
      }
    }
    if rows[0].id == id {
      RemoveAbsent(rows[1..], id);
    } else {
      RemoveOneRow(rows[1..], id);
    }
  }

  /** Removing an absent key leaves the table as it is. */
  lemma {:induction false} RemoveAbsent(rows: seq<Expense>, id: int)
    requires forall i :: 0 <= i < |rows| ==> rows[i].id != id
    ensures Remove(rows, id) == rows
  {
    if rows != [] {
      RemoveAbsent(rows[1..], id);
    }
  }
}
