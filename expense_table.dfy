/**
 * The expense table as the repository sees it: a sequence of rows in the
 * store's natural order, keyed by `Id`. The functions here give the table's
 * state after each repository operation; the lemmas say what a lookup by key
 * finds afterwards.
 */
module ExpenseTable {
  import opened Results
  import opened Entities

  /** Why the store refuses a write. */
  datatype StoreError =
    | DuplicateKey(id: int)   // inserting a key the table already holds
    | KeyNotFound(id: int)    // updating a key the table does not hold

  /** `Id` is a key: no two rows share one. */
  ghost predicate UniqueIds(rows: seq<Expense>) {
    forall i, j :: 0 <= i < j < |rows| ==> rows[i].id != rows[j].id
  }

  /** True when some row has key `id`. */
  predicate HasId(rows: seq<Expense>, id: int) {
    exists i :: 0 <= i < |rows| && rows[i].id == id
  }

  /** Find by primary key: the row with key `id`, or None. */
  function Lookup(rows: seq<Expense>, id: int): (r: Option<Expense>)
    ensures r.Some? <==> HasId(rows, id)
    ensures r.Some? ==> r.value in rows && r.value.id == id
  {
    if rows == [] then None
    else if rows[0].id == id then Some(rows[0])
    else
      HasIdCons(rows, id);
      Lookup(rows[1..], id)
  }

  /** A key is in a non-empty table when it is the first row's or is in the rest. */
  lemma HasIdCons(rows: seq<Expense>, id: int)
    requires rows != []
    ensures HasId(rows, id) <==> rows[0].id == id || HasId(rows[1..], id)
  {
    if HasId(rows[1..], id) {
      var i :| 0 <= i < |rows[1..]| && rows[1..][i].id == id;
      assert rows[i + 1].id == id;
    }
    if HasId(rows, id) && rows[0].id != id {
      var i :| 0 <= i < |rows| && rows[i].id == id;
      assert rows[1..][i - 1].id == id;
    }
  }

  /** The table with the row keyed `e.id` replaced by `e`; other rows keep their place and value. */
  function Replace(rows: seq<Expense>, e: Expense): (r: seq<Expense>)
    ensures |r| == |rows|
    ensures forall i :: 0 <= i < |rows| && rows[i].id != e.id ==> r[i] == rows[i]
    ensures forall i :: 0 <= i < |rows| && rows[i].id == e.id ==> r[i] == e
  {
    if rows == [] then []
    else (if rows[0].id == e.id then [e] else [rows[0]]) + Replace(rows[1..], e)
  }

  /** The table without the rows keyed `id`; the others keep their order. */
  function Remove(rows: seq<Expense>, id: int): (r: seq<Expense>)
    ensures |r| <= |rows|
    ensures forall x :: x in r <==> x in rows && x.id != id
  {
    if rows == [] then []
    else if rows[0].id == id then Remove(rows[1..], id)
    else [rows[0]] + Remove(rows[1..], id)
  }

  /** After an append, the new key finds the new row and every other key finds what it found before. */
  lemma {:induction false} LookupAppend(rows: seq<Expense>, e: Expense, k: int)
    requires !HasId(rows, e.id)
    ensures Lookup(rows + [e], k) == if k == e.id then Some(e) else Lookup(rows, k)
  {
    if rows == [] {
      assert rows + [e] == [e];
    } else {
      assert (rows + [e])[1..] == rows[1..] + [e];
      if rows[0].id != k {
        HasIdCons(rows, e.id);
        LookupAppend(rows[1..], e, k);
      }
    }
  }

  /** A replace never changes what a key other than `e.id` finds, present or not. */
  lemma {:induction false} LookupReplaceOther(rows: seq<Expense>, e: Expense, k: int)
    requires k != e.id
    ensures Lookup(Replace(rows, e), k) == Lookup(rows, k)
  {
    if rows != [] {
      var r := Replace(rows, e);
      assert r[1..] == Replace(rows[1..], e);
      LookupReplaceOther(rows[1..], e, k);
    }
  }

  /** Removing rows keeps the keys unique: what is left is a subsequence. */
  lemma {:induction false} RemoveKeepsKeysUnique(rows: seq<Expense>, id: int)
    requires UniqueIds(rows)
    ensures UniqueIds(Remove(rows, id))
  {
    if rows != [] {
      assert UniqueIds(rows[1..]) by {
        forall i, j | 0 <= i < j < |rows[1..]| ensures rows[1..][i].id != rows[1..][j].id {
          assert rows[1..][i] == rows[i + 1] && rows[1..][j] == rows[j + 1];
        }
      }
      RemoveKeepsKeysUnique(rows[1..], id);
      if rows[0].id != id {
        var tail := Remove(rows[1..], id);
        var r := [rows[0]] + tail;
        forall i, j | 0 <= i < j < |r| ensures r[i].id != r[j].id {
          if i == 0 {
            assert r[j] in rows[1..];
          } else {
            assert r[i] == tail[i - 1] && r[j] == tail[j - 1];
          }
        }
      }
    }
  }

  /** After a remove, `id` finds nothing and every other key finds what it found before. */
  lemma {:induction false} LookupRemove(rows: seq<Expense>, id: int, k: int)
    ensures Lookup(Remove(rows, id), k) == if k == id then None else Lookup(rows, k)
  {
    if rows != [] {
      LookupRemove(rows[1..], id, k);
      if rows[0].id != id {
        assert ([rows[0]] + Remove(rows[1..], id))[1..] == Remove(rows[1..], id);
      }
    }
  }
}
