# Expense service and repository — a Dafny model

This project models the core of VHM.Banking.Control, a small expense-tracking
service: the `ExpenseService` that guards writes and generates expense graphs
through an Azure OpenAI assistant, and the `ExpenseRepository` that stores
expense rows keyed by `Id`.

- `Entities` (entities.dfy): the `Expense` row — `Id`, a nullable
  `Description`, a `Category`, a decimal `Amount` (a `real` here) and a `Date`
  of which the month matters — and `string.IsNullOrWhiteSpace`.
- `ExpenseTable` (expense_table.dfy): the table as a sequence of rows in the
  store's natural order, with key lookup (`FindAsync`), replace and remove, and
  lemmas that each write changes what one key finds and nothing else.
- `Repositories` (expense_repository.dfy): `ExpenseRepository`, a class whose
  `rows` field its methods update in place; every write commits or throws and
  leaves the table unchanged.
- `Months` (months.dfy): `DateTime.ParseExact(month, "MMMM", InvariantCulture).Month`.
- `GraphData` (graph_data.dfy): the front half of `GenerateGraph` — month
  resolution, the `Where` filter, the empty-selection error and the payload.
- `AssistantRun` (assistant_run.dfy): the back half of `GenerateGraph` — the
  `do … while (!IsTerminal)` poll and the walk over messages and content items
  that fetches image files — with the assistant service reduced to the
  statuses it reports and the messages it lists.
- `Services` (expense_service.dfy): `ExpenseService`, holding the repository;
  `GenerateGraph` returns its outcome and the ordered trace of calls it makes
  to the assistant service.
- `Results` (results.dfy): Option/Result/Outcome, standing for null and for
  thrown exceptions.

## Model

| member | source | states |
|---|---|---|
| `Services.Validate` | VHM.Banking.Control/Services/ExpenseService.cs:31-35 | an expense passes exactly when its amount is positive and its description is not null, empty or white space; a non-positive amount is reported first, whatever the description |
| `Services.ExpenseService.AddExpense` | VHM.Banking.Control/Services/ExpenseService.cs:29-38 | a rejected expense leaves the table unchanged; a valid one is handed as it is to the repository, which appends it unless its key is taken |
| `Services.ExpenseService.UpdateExpense` | VHM.Banking.Control/Services/ExpenseService.cs:169-178 | a rejected expense leaves the table unchanged; a valid one replaces the row with its key, other keys find what they found before; an absent key is refused with the table unchanged |
| `Services.ExpenseService.GetAllExpenses` | VHM.Banking.Control/Services/ExpenseService.cs:164-167 | returns every stored row and changes nothing |
| `Services.ExpenseService.DeleteExpense` | VHM.Banking.Control/Services/ExpenseService.cs:180-183 | removes the row with that key if there is one, else the table stays as it was |
| `Services.ExpenseService.GenerateGraph` | VHM.Banking.Control/Services/ExpenseService.cs:40-162 | with every call to the assistant service returning, fails exactly when the payload cannot be built, then with that error and no call to the assistant service; otherwise uploads that payload, creates the assistant and the run, fetches the run once per status up to and including the first terminal one, lists the messages whatever that status is, and fetches metadata then bytes for each image id in encounter order |
| `Months.ParseMonth` | VHM.Banking.Control/Services/ExpenseService.cs:42 | resolution succeeds exactly when the string matches some month's full name ignoring case, and the month it yields is one whose name matches |
| `Months.ParseMonthFrom` | VHM.Banking.Control/Services/ExpenseService.cs:42 | the search over the month-name table returns a month whose name matches, and None only when no later name matches |
| `Months.ParseMonthExact` | VHM.Banking.Control/Services/ExpenseService.cs:42 | resolution yields month m exactly for the strings equal, ignoring letter case, to month m's invariant full name; any other string fails |
| `Months.MonthNamesDistinct` | VHM.Banking.Control/Services/ExpenseService.cs:42 | no two invariant month names are equal ignoring case, so a name resolves to one month only |
| `Months.ParseMonthOnly` | VHM.Banking.Control/Services/ExpenseService.cs:42 | a string that resolves to month m matches m's name and no other month's |
| `Months.ParseMonthName` | VHM.Banking.Control/Services/ExpenseService.cs:42 | each month's own full name resolves to that month |
| `GraphData.Select` | VHM.Banking.Control/Services/ExpenseService.cs:44-46 | the selection holds exactly the rows of the requested category whose date is in the resolved month, whatever the year, and is no longer than the table |
| `GraphData.SelectAppend` | VHM.Banking.Control/Services/ExpenseService.cs:44-46 | selection keeps the table's order: selecting from a concatenation concatenates the selections |
| `GraphData.NoMatchesIff` | VHM.Banking.Control/Services/ExpenseService.cs:44-50 | once the month resolves, the no-expenses error is raised exactly when the selection for that month is empty |
| `GraphData.LineItems` | VHM.Banking.Control/Services/ExpenseService.cs:56-60 | the line items are as many as the selected rows and item i is row i's description and amount |
| `GraphData.BuildPayload` | VHM.Banking.Control/Services/ExpenseService.cs:42-61 | fails with the month error exactly when no month name matches, with the no-expenses error exactly when the month resolves but no row matches it, and otherwise carries "Expenses for {category} in {month as written}" and the non-empty line items of the selection for the resolved month |
| `AssistantRun.FirstTerminal` | VHM.Banking.Control/Services/ExpenseService.cs:101-106 | the first terminal status of a status sequence: terminal, with no terminal status before it |
| `AssistantRun.PollRun` | VHM.Banking.Control/Services/ExpenseService.cs:101-106 | the poll fetches at least once, stops at the first terminal status and ends holding it |
| `AssistantRun.DownloadImages` | VHM.Banking.Control/Services/ExpenseService.cs:115-159 | the nested walk fetches exactly the image ids of the messages, message by message and item by item |
| `AssistantRun.ImageFileIdsAppend` | VHM.Banking.Control/Services/ExpenseService.cs:108-118 | the fetched ids of a concatenation of messages are the concatenated ids: messages are served in ascending order |
| `AssistantRun.ImageFileIdsExact` | VHM.Banking.Control/Services/ExpenseService.cs:142-145 | an id is fetched exactly when some content item carries it as a non-empty image file id; annotation ids and text never cause a fetch |
| `AssistantRun.ContentImageIdsExact` | VHM.Banking.Control/Services/ExpenseService.cs:118-145 | within one message, an id is fetched exactly when some content item carries it as a non-empty image file id |
| `AssistantRun.FetchCalls` | VHM.Banking.Control/Services/ExpenseService.cs:144-145 | each image id is fetched twice, metadata first and bytes second, in the order of the ids |
| `ExpenseTable.Lookup` | VHM.Banking.Control/Repositories/ExpenseRepository.cs:28-31 | a key finds a row exactly when some row has that key, and the row found has it |
| `ExpenseTable.Replace` | VHM.Banking.Control/Repositories/ExpenseRepository.cs:33-37 | the row with the updated key becomes the new expense; every other row keeps its place and value |
| `ExpenseTable.Remove` | VHM.Banking.Control/Repositories/ExpenseRepository.cs:39-47 | the rows left are exactly those with another key |
| `ExpenseTable.LookupAppend` | VHM.Banking.Control/Repositories/ExpenseRepository.cs:17-21 | after an insert the new key finds the new row and every other key finds what it found before |
| `ExpenseTable.LookupReplaceOther` | VHM.Banking.Control/Repositories/ExpenseRepository.cs:33-37 | an update never changes what another key finds |
| `ExpenseTable.RemoveKeepsKeysUnique` | VHM.Banking.Control/Repositories/ExpenseRepository.cs:39-47 | a delete keeps `Id` a key |
| `ExpenseTable.LookupRemove` | VHM.Banking.Control/Repositories/ExpenseRepository.cs:39-47 | after a delete the key finds nothing and every other key finds what it found before |
| `Repositories.RemoveOneRow` | VHM.Banking.Control/Repositories/ExpenseRepository.cs:41-45 | deleting a present key removes exactly one row |
| `Repositories.RemoveAbsent` | VHM.Banking.Control/Repositories/ExpenseRepository.cs:41-42 | removing an absent key leaves the table as it is |
| `Repositories.ExpenseRepository.AddExpense` | VHM.Banking.Control/Repositories/ExpenseRepository.cs:17-21 | a fresh key is appended and found, other keys unchanged; a taken key is refused with the table unchanged |
| `Repositories.ExpenseRepository.GetAllExpenses` | VHM.Banking.Control/Repositories/ExpenseRepository.cs:23-26 | returns every stored row in table order and changes nothing |
| `Repositories.ExpenseRepository.GetExpenseById` | VHM.Banking.Control/Repositories/ExpenseRepository.cs:28-31 | returns the row with that key when one exists and None otherwise; changes nothing |
| `Repositories.ExpenseRepository.UpdateExpense` | VHM.Banking.Control/Repositories/ExpenseRepository.cs:33-37 | a present key's row is replaced, other keys unchanged; an absent key is refused with the table unchanged |
| `Repositories.ExpenseRepository.DeleteExpense` | VHM.Banking.Control/Repositories/ExpenseRepository.cs:39-47 | a present key's row is removed and nothing else changes; an absent key is a no-op |

## Left out

- The Azure OpenAI calls (file upload, assistant creation, thread and run creation, run and message fetches, file metadata and download) are foreign network calls: the model takes the statuses and messages they return as inputs and records the calls made as a trace.
- `Task.Delay(1000)` between polls: timing has no behaviour to verify.
- Console output, including the report of annotation file ids: only the fetches are modelled.
- Writing the downloaded bytes under a fixed directory (directory creation, `File.OpenWrite`, stream copy): file-system I/O; the model stops at the fetches.
- `JsonSerializer.Serialize`: the payload is a datatype, not JSON text.
- The assistant's configuration (model name, instructions, code-interpreter tool, vector store) and the thread's fixed initial message: opaque arguments to foreign calls, recorded only as the calls themselves.
- EF Core mechanics: change tracking, `SaveChangesAsync`, the database, and the key generated for an expense inserted with `Id` 0; the model uses the given `Id` as the key. An insert under a taken key is modelled as a refusal, an update of an absent key as a refusal (EF Core throws for both).
- Repositories.ExpenseRepository.DeleteExpense: whether `SaveChangesAsync` runs is not observable in the model; only that an absent key leaves the table unchanged.
- Repositories.ExpenseRepository.UpdateExpense: EF Core inserts an entity whose key is unset (`Id` 0) instead of updating; not modelled.
- Amounts are `real`: the 28-digit precision and overflow of C# `decimal` are not modelled.
- The `Category` enumeration and the `GraphRequest` class are not part of this model; a category is identified by the name it prints as.
- Months.ParseMonthExact: letters are compared with ASCII case folding only, and the trailing NUL characters that .NET's date parser tolerates are not accepted; a null month string (an `ArgumentNullException`) is not modelled.
- AssistantRun.PollRun: requires that some fetch reports a terminal status; with none the source polls forever, which a terminating model cannot express.
- `RunStatus.IsTerminal` comes from the OpenAI .NET library, which is not part of this model; the terminal set used is Completed, Expired, Failed, Cancelled and Incomplete.
- Dependency-injection setup and the HTTP controller (status codes, the id-mismatch check) belong to the hosting and routing layers.
- The code has no poll timeout, no retries of failed fetches, no cancellation, no refusal to read the results of a failed run, no numbered disambiguation of duplicate file names and no per-artifact warning list; the model follows the code, and messages are listed whatever the terminal status.
- Services.ExpenseService.GenerateGraph: every call to the assistant service is assumed to return and every file write to succeed; a throw from the upload, the assistant or run creation, a run fetch, an image fetch or a file write, which in the source aborts the workflow before the remaining images are fetched, is not modelled.
