/**
 * The front half of graph generation: resolve the month, select the expenses
 * of one category in that month, refuse an empty selection, and shape the
 * payload that is uploaded for charting.
 */
module GraphData {
  import opened Results
  import opened Entities
  import opened Months

  /** What the caller asks to chart: a category and a full month name. */
  datatype GraphRequest = GraphRequest(category: Category, month: string)

  /** The two ways the front half throws. */
  datatype GraphError =
    | InvalidMonthName    // the FormatException of ParseExact
    | NoExpensesFound     // "No expenses found for the given category and month."

  /** One line of the payload: an expense's description and amount. */
  datatype LineItem = LineItem(description: Option<string>, amount: real)

  /** The uploaded payload, before its JSON encoding. */
  datatype Payload = Payload(description: string, expenses: seq<LineItem>)

  /** The query's condition: same category, same month of any year. */
  predicate Matches(e: Expense, category: Category, month: MonthNumber) {
    e.category == category && e.date.month == month
  }

  /** The rows that match, in table order. */
  function Select(rows: seq<Expense>, category: Category, month: MonthNumber): (r: seq<Expense>)
    ensures |r| <= |rows|
    ensures forall e :: e in r <==> e in rows && Matches(e, category, month)
  {
    if rows == [] then []
    else if Matches(rows[0], category, month) then [rows[0]] + Select(rows[1..], category, month)
    else Select(rows[1..], category, month)
  }

  /** Selection keeps the table's order: selecting from a concatenation concatenates the selections. */
  lemma {:induction false} SelectAppend(a: seq<Expense>, b: seq<Expense>, category: Category, month: MonthNumber)
    ensures Select(a + b, category, month) == Select(a, category, month) + Select(b, category, month)
  {
    if a == [] {
      assert a + b == b;
    } else {
      assert (a + b)[0] == a[0] && (a + b)[1..] == a[1..] + b;
      SelectAppend(a[1..], b, category, month);
    }
  }

  /** The line items of a selection: item i is expense i's description and amount. */
  function LineItems(selection: seq<Expense>): (r: seq<LineItem>)
    ensures |r| == |selection|
    ensures forall i :: 0 <= i < |selection| ==>
      r[i] == LineItem(selection[i].description, selection[i].amount)
  {
    if selection == [] then []
    else [LineItem(selection[0].description, selection[0].amount)] + LineItems(selection[1..])
  }

  /** "Expenses for {Category} in {Month}", with the month exactly as the caller wrote it. */
  function PayloadDescription(request: GraphRequest): string {
    "Expenses for " + request.category.name + " in " + request.month
  }

  /** The payload for `request` over the table `rows`, or the error the front half throws. */
  function BuildPayload(request: GraphRequest, rows: seq<Expense>): (r: Result<Payload, GraphError>)
    ensures r == Failure(InvalidMonthName) <==>
      forall m: MonthNumber :: !EqualsIgnoreCase(request.month, MonthName(m))
    ensures r == Failure(NoExpensesFound) <==>
      exists m: MonthNumber :: EqualsIgnoreCase(request.month, MonthName(m)) &&
        forall e :: e in rows ==> !Matches(e, request.category, m)
    ensures r.Success? ==> r.value.description == PayloadDescription(request) && |r.value.expenses| > 0
    ensures r.Success? ==> forall m: MonthNumber :: EqualsIgnoreCase(request.month, MonthName(m)) ==>
      r.value.expenses == LineItems(Select(rows, request.category, m))
  {
    match ParseMonth(request.month)
    case None => Failure(InvalidMonthName)
    case Some(m) =>
      ParseMonthOnly(request.month, m);
      var selection := Select(rows, request.category, m);
      if |selection| == 0 then
        NoMatchesIff(request.month, request.category, m, rows);
        Failure(NoExpensesFound)
      else
        NoMatchesIff(request.month, request.category, m, rows);
        Success(Payload(PayloadDescription(request), LineItems(selection)))
  }

  /** With `month` resolved to `m`, "some month of that name has no match" is "m has no match". */
  lemma NoMatchesIff(month: string, category: Category, m: MonthNumber, rows: seq<Expense>)
    requires ParseMonth(month) == Some(m)
    ensures (exists n: MonthNumber :: EqualsIgnoreCase(month, MonthName(n)) &&
               forall e :: e in rows ==> !Matches(e, category, n))
        <==> |Select(rows, category, m)| == 0
  {
    ParseMonthOnly(month, m);
    if |Select(rows, category, m)| == 0 {
      assert forall e :: e in rows ==> !Matches(e, category, m);
    }
  }
}
