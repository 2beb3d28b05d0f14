/**
 * The expense service: the write guards in front of the repository, and the
 * graph workflow that selects expenses, hands them to the assistant service,
 * polls the run and fetches the images it produced.
 */
module Services {
  import opened Results
  import opened Entities
  import opened ExpenseTable
  import opened Repositories
  import opened GraphData
  import opened AssistantRun

  /** Why a write is refused: one of the two argument checks, or the store's own refusal. */
  datatype ExpenseError =
    | AmountNotPositive               // "The expense amount must be positive."
    | DescriptionEmpty                // "The expense description cannot be empty."
    | StoreRejected(error: StoreError)

  /** The guard of AddExpenseAsync and UpdateExpenseAsync; the amount is checked first. */
  function Validate(e: Expense): (r: Outcome<ExpenseError>)
    ensures r == Pass <==> e.amount > 0.0 && !IsNullOrWhiteSpace(e.description)
    ensures r == Fail(AmountNotPositive) <==> e.amount <= 0.0
    ensures r == Fail(DescriptionEmpty) <==> e.amount > 0.0 && IsNullOrWhiteSpace(e.description)
  {
    if e.amount <= 0.0 then Fail(AmountNotPositive)
    else if IsNullOrWhiteSpace(e.description) then Fail(DescriptionEmpty)
    else Pass
  }

  class ExpenseService {
    const repository: ExpenseRepository

    constructor (repository: ExpenseRepository)
      ensures this.repository == repository
    {
      this.repository := repository;
    }

    /** Check the expense, then hand that same expense to the repository's insert. */
    method AddExpense(e: Expense) returns (r: Outcome<ExpenseError>)
      requires repository.Valid()
      modifies repository
      ensures repository.Valid()
      ensures Validate(e).Fail? ==> r == Validate(e) && repository.rows == old(repository.rows)
      ensures Validate(e).Pass? ==> (r.Pass? <==> !HasId(old(repository.rows), e.id))
      ensures r.Pass? ==> repository.rows == old(repository.rows) + [e]
      ensures Validate(e).Pass? && r.Fail? ==>
        r.error == StoreRejected(DuplicateKey(e.id)) && repository.rows == old(repository.rows)
    {
      r := Validate(e);
      if r.Pass? {
        var stored := repository.AddExpense(e);
        if stored.Fail? {
          r := Fail(StoreRejected(stored.error));
        }
      }
    }

    /** Check the expense, then hand that same expense to the repository's update. */
    method UpdateExpense(e: Expense) returns (r: Outcome<ExpenseError>)
      requires repository.Valid()
      modifies repository
      ensures repository.Valid()
      ensures Validate(e).Fail? ==> r == Validate(e) && repository.rows == old(repository.rows)
      ensures Validate(e).Pass? ==> (r.Pass? <==> HasId(old(repository.rows), e.id))
      ensures r.Pass? ==> repository.rows == Replace(old(repository.rows), e)
      ensures r.Pass? ==> forall k :: k != e.id ==> Lookup(repository.rows, k) == Lookup(old(repository.rows), k)
      ensures Validate(e).Pass? && r.Fail? ==>
        r.error == StoreRejected(KeyNotFound(e.id)) && repository.rows == old(repository.rows)
    {
      r := Validate(e);
      if r.Pass? {
        var stored := repository.UpdateExpense(e);
        if stored.Fail? {
          r := Fail(StoreRejected(stored.error));
        }
      }
    }

    /** Every stored expense, straight from the repository. */
    method GetAllExpenses() returns (all: seq<Expense>)
      ensures all == repository.rows
    {
      all := repository.GetAllExpenses();
    }

    /** Delete by key, straight through to the repository. */
    method DeleteExpense(id: int)
      requires repository.Valid()
      modifies repository
      ensures repository.Valid()
      ensures repository.rows == if HasId(old(repository.rows), id) then Remove(old(repository.rows), id) else old(repository.rows)
    {
      var _ := repository.DeleteExpense(id);
    }

    /**
     * GenerateGraph, with the assistant service reduced to its answers:
     * `statuses` are what the successive run fetches return and `messages`
     * is the thread's ascending message list. Returns the outcome and the
     * calls made to the assistant service, in order.
     */
    method GenerateGraph(request: GraphRequest, statuses: seq<RunStatus>, messages: seq<ThreadMessage>)
      returns (r: Outcome<GraphError>, calls: seq<ExternalCall>)
      requires BuildPayload(request, repository.rows).Success? ==> EventuallyTerminal(statuses)
      ensures r.Fail? <==> BuildPayload(request, repository.rows).Failure?
      ensures r.Fail? ==> r.error == BuildPayload(request, repository.rows).error && calls == []
      ensures r.Pass? ==> (calls ==
        [UploadFile(BuildPayload(request, repository.rows).value), CreateAssistant, CreateThreadAndRun]
        + seq(FirstTerminal(statuses) + 1, _ => GetRun)
        + [GetMessages]
        + FetchCalls(ImageFileIds(messages)))
    {
      var built := BuildPayload(request, repository.rows);
      if built.Failure? {
        r, calls := Fail(built.error), [];
        return;
      }
      calls := [UploadFile(built.value), CreateAssistant, CreateThreadAndRun];
      var last, fetches := PollRun(statuses);
      // The messages are listed whatever terminal status the run ended in.
      calls := calls + seq(fetches, _ => GetRun) + [GetMessages];
      var downloaded := DownloadImages(messages);
      calls := calls + FetchCalls(downloaded);
      r := Pass;
    }
  }
}
