# Todos backend core, modelled in Dafny

The todos backend stores TodoItems and TodoLists in an Entity Framework
context. Every stored row is a record with an Id, a CreatedAt stamp and an
optional ArchivedAt stamp. Rows are never deleted, only archived (soft
delete).

This project models the following parts of it:

* **The generic soft-delete repository** (`Repository.ReadWriteRepository`).
  - Add and Update stage a change in the context. Archive stamps ArchivedAt on the un-archived row and stages it.
  - Commit (SaveChanges) writes the staged changes to the table in order.
  - Get(id, includeArchived) returns the first matching row.
  - GetAll(options) paginates first, then orders by a named property (ascending or descending), then drops archived rows.
  - BeginDatabaseTransaction / CommitDatabaseTransaction work through `Transactions.RepositoryTransaction`. This handle commits or disposes the wrapped transaction only when it began that transaction itself.
* **TodoItemRepository.** It adds two filters to GetAll: by list and by completion state. It also adds the label lookup Get(label).
* **TodoListRepository.** It has the same label lookup.
* **TodoItemValidator and TodoListValidator.** These are the unnamed label rule plus the COMPLETE, CREATE, UPDATE and ARCHIVE rule sets. They are modelled as pure functions of the saved table.
* **TodoItemHandler and TodoListHandler.** Each mutation follows the same sequence:
  1. begin a transaction;
  2. load or build the entity;
  3. validate it with one rule set;
  4. stage the change, save, and commit the transaction.

  A failure ends the call early. The handlers also pass GetAll and Get through to the repositories.
* **The earlier `todos.common` repository** (`CommonData.LegacyRepository`). It shares everything with the later repository except two things. GetAll defaults a missing Offset to 1 and always orders ascending. CommitDatabaseTransaction reports nothing. Its RepositoryTransaction (`todos.common/Data/RepositoryTransaction.cs`) is the later class without the Id, so `Transactions.RepositoryTransaction` models both.

Layout:
- `records.dfy`: records, keys and property schemas.
- `sequences.dfy`: Skip, Take, Where, FirstOrDefault, Join.
- `ordering.dfy`: the stable OrderBy.
- `queries.dfy`: the listing pipeline as functions.
- `transactions.dfy`, `repository.dfy`: the mutable repository and transactions.
- `item_repository.dfy`, `list_repository.dfy`: the entity repositories.
- `validation.dfy`, `item_validator.dfy`, `list_validator.dfy`: the validators.
- `item_handler.dfy`, `list_handler.dfy`: the handlers.
- `common_data.dfy`: the earlier repository.
- `fixtures.dfy`: the repository test cases over their fixtures.

Conventions:
- The clock (`DateTime.Now`) is a `now` parameter.
- Exceptions are `Failure` results:
  - `ArgumentNull`;
  - `NotFound(id)`;
  - `ValidationFailed(messages)`, where the messages are joined with ", ";
  - `NoSuchProperty(name)`;
  - `ArchiveTargetMissing(id)`.
- Each repository keeps a ghost log of the calls it receives. The handler contracts state the exact call sequence on each path.
- An entity repository is built over a generic repository whose property schema is its entity's (`ItemSchema`, `ListSchema`). A handler is built over a read repository that sits on its write repository.
- In the handlers, the steps after the lookup (validate, stage, save, commit) are a method of their own: `Relabel`, `ChangeCompletion` and `ArchiveFound`. The handler methods keep the null check, the transaction and the lookup.

## Model

| member | source | states |
|---|---|---|
| Transactions.Database.Current | Todos.Utils/Data/ReadWriteRepository.cs:110 | the current transaction is the last one begun while it is neither committed nor disposed, and none otherwise |
| Transactions.Database.BeginTransaction | Todos.Utils/Data/ReadWriteRepository.cs:113 | a fresh, open transaction becomes the current one |
| Transactions.RepositoryTransaction.constructor | Todos.Utils/Data/RepositoryTransaction.cs:12-16 | the handle wraps the given transaction with the given top-level flag |
| Transactions.RepositoryTransaction.Commit | Todos.Utils/Data/RepositoryTransaction.cs:18-27 | commits the wrapped transaction once and answers true exactly when the handle is top-level; otherwise changes nothing and answers false |
| Transactions.RepositoryTransaction.Dispose | Todos.Utils/Data/RepositoryTransaction.cs:29-35 | disposes the wrapped transaction exactly when the handle is top-level and never commits it |
| Transactions.SameTransactionSameId | Todos.Utils/Data/RepositoryTransaction.cs:10 | two handles on the same transaction report the same Id |
| Sequences.Skip | Todos.Utils/Data/ReadWriteRepository.cs:64 | drops the first n rows, keeping the rest in order |
| Sequences.Take | Todos.Utils/Data/ReadWriteRepository.cs:65 | keeps the first n rows, or all of them when fewer |
| Sequences.Where | Todos.Utils/Data/ReadWriteRepository.cs:87-89 | every kept row satisfies the condition, and every row that satisfies it is kept |
| Sequences.First | Todos.Utils/Data/ReadWriteRepository.cs:44 | none exactly when no row satisfies the condition; otherwise the first row that does |
| Sequences.WhereIsSubsequence | Todos.Repositories/TodoItemRepository.cs:14-24 | a filter keeps a subsequence of its input, in the input's order |
| Sequences.Join | Todos.API.Logic/Handlers/TodoItemHandler.cs:44 | no messages join to the empty text, and one message joins to itself |
| Ordering.CompareText | Todos.Utils/Data/ReadWriteRepository.cs:76-84 | compares two texts ordinally as -1, 0 or 1, with 0 exactly when they are equal |
| Ordering.CompareTextAntisymmetric | Todos.Utils/Data/ReadWriteRepository.cs:76-84 | swapping the texts negates their comparison |
| Ordering.CompareTextTransitive | Todos.Utils/Data/ReadWriteRepository.cs:76-84 | the text comparison is transitive |
| Ordering.Compare | Todos.Utils/Data/ReadWriteRepository.cs:76-84 | compares two property values as -1, 0 or 1, with 0 exactly when they are equal |
| Ordering.CompareAntisymmetric | Todos.Utils/Data/ReadWriteRepository.cs:76-84 | swapping the operands negates the comparison |
| Ordering.CompareTransitive | Todos.Utils/Data/ReadWriteRepository.cs:76-84 | the comparison is transitive |
| Ordering.PrecedesTotal | Todos.Utils/Data/ReadWriteRepository.cs:77-84 | of any two values one may come first, in either direction |
| Ordering.PrecedesTransitive | Todos.Utils/Data/ReadWriteRepository.cs:77-84 | the "comes first" relation is transitive, in either direction |
| Ordering.Insert | Todos.Utils/Data/ReadWriteRepository.cs:77-84 | inserting adds exactly the one row to the multiset of rows |
| Ordering.SortBy | Todos.Utils/Data/ReadWriteRepository.cs:77-84 | OrderBy/OrderByDescending return a permutation of their input |
| Ordering.SortBySorted | Todos.Utils/Data/ReadWriteRepository.cs:77-84 | the result is ordered by the key in the requested direction |
| Ordering.SortByStable | Todos.Utils/Data/ReadWriteRepository.cs:77-84 | rows with equal keys keep their input order |
| Queries.Find | Todos.Utils/Data/ReadWriteRepository.cs:42-45 | none exactly when no row has the id and is unarchived (or archived rows are allowed); otherwise the first such row |
| Queries.Page | Todos.Utils/Data/ReadWriteRepository.cs:63-66 | at most Limit rows, exactly those starting at row Offset × Limit |
| Queries.Unarchived | Todos.Utils/Data/ReadWriteRepository.cs:87-89 | without IncludeArchived no archived row remains and every unarchived row is kept |
| Queries.UnarchivedIncluding | Todos.Utils/Data/ReadWriteRepository.cs:87-89 | with IncludeArchived nothing is dropped |
| Queries.DefaultOffsetFirstPage | Todos.Utils/Data/ReadWriteRepository.cs:56-66 | with Limit set and no Offset, the first Limit rows are kept |
| Queries.Listing | Todos.Utils/Data/ReadWriteRepository.cs:51-93 | no options gives the whole table in store order; the listing fails exactly when Order names a property the entity does not have, and then names it |
| Queries.ListingFromWindow | Todos.Utils/Data/ReadWriteRepository.cs:56-67 | every listed row comes from the page window, so a page holds at most Limit rows |
| Queries.ListingExcludesArchived | Todos.Utils/Data/ReadWriteRepository.cs:87-89 | without IncludeArchived no listed row is archived |
| Queries.ListingIncludingArchived | Todos.Utils/Data/ReadWriteRepository.cs:87-89 | with IncludeArchived the listing is a permutation of the page window, and the window itself when no order is asked |
| Queries.ListingKeepsActive | Todos.Utils/Data/ReadWriteRepository.cs:56-89 | every row of the page window that is unarchived, or every row of it with IncludeArchived, is listed |
| Queries.ListingSorted | Todos.Utils/Data/ReadWriteRepository.cs:69-85 | when Order names a property, the listing is sorted by it in the direction IsDescending asks |
| Repository.Replace | Todos.Utils/Data/ReadWriteRepository.cs:23-27 | saving an update gives every row with the record's id the record's values, leaves the other rows alone and keeps the row count |
| Repository.FlushConcat | Todos.Utils/Data/ReadWriteRepository.cs:121-124 | saving two batches of staged changes together is saving them one after the other |
| Repository.ArchiveIsTerminal | Todos.Utils/Data/ReadWriteRepository.cs:29-45 | once an archive is saved, Get(id, false) finds nothing and Get(id, true) finds the stamped row, so archiving again fails |
| Repository.ModifyKeepsIds | Todos.Utils/Data/ReadWriteRepository.cs:23-27 | saving an update keeps ids distinct |
| Repository.WrittenBack | Todos.Utils/Data/ReadWriteRepository.cs:56-61 | GetAll writes Offset 0 back when Limit is set and Offset is not, changes no other option, and pages the same either way |
| Repository.ReadWriteRepository.constructor | Todos.Utils/Data/ReadWriteRepository.cs:11-14 | a repository over a table with nothing staged |
| Repository.ReadWriteRepository.Add | Todos.Utils/Data/ReadWriteRepository.cs:16-21 | stamps CreatedAt with now and stages an insert; the table is unchanged until Commit |
| Repository.ReadWriteRepository.Update | Todos.Utils/Data/ReadWriteRepository.cs:23-27 | stages an update of the record as given and returns it |
| Repository.ReadWriteRepository.Archive | Todos.Utils/Data/ReadWriteRepository.cs:29-40 | fails, staging nothing, when no unarchived row has the id; otherwise stages and returns that row with ArchivedAt set to now |
| Repository.ReadWriteRepository.Get | Todos.Utils/Data/ReadWriteRepository.cs:42-45 | the first row with the id, skipping archived rows unless includeArchived |
| Repository.ReadWriteRepository.GetAll | Todos.Utils/Data/ReadWriteRepository.cs:51-93 | the result is the listing of the saved table, and the options are left as written back |
| Repository.ReadWriteRepository.BeginDatabaseTransaction | Todos.Utils/Data/ReadWriteRepository.cs:108-117 | a top-level handle on a fresh transaction exactly when none is current; otherwise a non-owning handle on the current one, with the database unchanged |
| Repository.ReadWriteRepository.CommitDatabaseTransaction | Todos.Utils/Data/ReadWriteRepository.cs:119 | answers and commits as the handle's Commit does |
| Repository.ReadWriteRepository.Commit | Todos.Utils/Data/ReadWriteRepository.cs:121-124 | SaveChanges writes every staged change to the table, in order; empties the staged list; answers how many changes there were |
| ItemRepository.FilterByTodoListId | Todos.Repositories/TodoItemRepository.cs:14-16 | keeps exactly the items of that list |
| ItemRepository.FilterByTodoCompleted | Todos.Repositories/TodoItemRepository.cs:18-20 | keeps exactly the items whose CompletedAt is set (complete) or unset (incomplete) |
| ItemRepository.FilterByLabel | Todos.Repositories/TodoItemRepository.cs:22-24 | keeps exactly the items with that label |
| ItemRepository.ItemListing | Todos.Repositories/TodoItemRepository.cs:26-43 | no options gives every item; the item listing fails exactly when the generic listing does, and with the same failure |
| ItemRepository.ItemListingRefinesListing | Todos.Repositories/TodoItemRepository.cs:26-43 | the item listing is a subsequence of the generic listing, and equals it when neither filter is set |
| ItemRepository.ItemListingFilters | Todos.Repositories/TodoItemRepository.cs:29-40 | with TodoListId set every listed item belongs to that list; with Completed set every listed item has that completion state |
| ItemRepository.ItemListingKeepsMatches | Todos.Repositories/TodoItemRepository.cs:29-40 | every row of the generic listing that belongs to the TodoListId asked and has the Completed state asked is kept |
| ItemRepository.FirstOfWhere | Todos.Repositories/TodoItemRepository.cs:45-50 | FirstOrDefault over a Where is the first row satisfying the condition |
| ItemRepository.ByLabel | Todos.Repositories/TodoItemRepository.cs:45-50 | none exactly when no stored item, archived or not, has the label; otherwise the first one that does |
| ItemRepository.TodoItemRepository.GetAll | Todos.Repositories/TodoItemRepository.cs:26-43 | the result is the item listing of the saved table under the TodoItem properties, and the options are left as written back |
| ItemRepository.TodoItemRepository.Get | Todos.Repositories/TodoItemRepository.cs:45-50 | the result is the label lookup over the saved table |
| ListRepository.ListByLabel | Todos.Repositories/IReadOnlyTodoListRepository.cs:8 | none exactly when no stored list has the label; otherwise the first one that does |
| ListRepository.TodoListRepository.Get | Todos.Repositories/IReadOnlyTodoListRepository.cs:8 | the result is the list label lookup over the saved table |
| Validation.NotEmpty | Todos.Validations/TodoItemValidator.cs:18-20 | a label passes exactly when it has a character that is not white space |
| Validation.NotArchived | Todos.Validations/TodoItemValidator.cs:77-80 | true exactly when an unarchived row has the id |
| ItemValidation.NotExist | Todos.Validations/TodoItemValidator.cs:59-62 | true exactly when no stored item, archived or not, has the label |
| ItemValidation.CompletionStateIsNotCurrent | Todos.Validations/TodoItemValidator.cs:64-75 | true when no active item has the id; false only when the stored item's completion state equals the requested one |
| ItemValidation.Validate | Todos.Validations/TodoItemValidator.cs:18-56 | the messages of the failing rules, in declaration order, for each rule set and for the default rules |
| ItemValidation.UpdateRejectsOwnLabel | Todos.Validations/TodoItemValidator.cs:40-49 | UPDATE rejects an item whose label is already stored, its own stored label included |
| ItemValidation.CompleteOnInactive | Todos.Validations/TodoItemValidator.cs:22-31 | COMPLETE on an id with no active item reports only that |
| ItemValidation.CompleteAccepts | Todos.Validations/TodoItemValidator.cs:22-31 | with unique ids, COMPLETE passes exactly when the item is active and its completion state changes |
| ListValidation.NotExist | Todos.Validations/TodoListValidator.cs:46-49 | true exactly when no stored list has the label |
| ListValidation.Validate | Todos.Validations/TodoListValidator.cs:16-43 | the messages of the failing rules, in declaration order, for each rule set and for the default rules |
| ItemHandling.WithCompletion | Todos.API.Logic/Handlers/TodoItemHandler.cs:69 | CompletedAt is set to now when completing and cleared otherwise; nothing else changes |
| ItemHandling.WithLabel | Todos.API.Logic/Handlers/TodoItemHandler.cs:101 | the label is replaced; nothing else changes |
| ItemHandling.CompletionVerdict | Todos.API.Logic/Handlers/TodoItemHandler.cs:63-77 | for the active item Get(id, false) finds, COMPLETE on its edit reports only an unchanged completion state, exactly when the state asked is the stored one |
| ItemHandling.CreateKeepsLabelsUnique | Todos.API.Logic/Handlers/TodoItemHandler.cs:41-48 | saving a new item whose label passed CREATE keeps item labels unique |
| ItemHandling.ReplaceKeepsLabelsUnique | Todos.API.Logic/Handlers/TodoItemHandler.cs:109-110 | with unique ids, replacing the row of an edited item whose label no other item has keeps item labels unique |
| ItemHandling.ModifyKeepsLabelsUnique | Todos.API.Logic/Handlers/TodoItemHandler.cs:109-110 | with unique ids, saving an edit whose label no other item has keeps item labels unique |
| ItemHandling.UpdateKeepsLabelsUnique | Todos.API.Logic/Handlers/TodoItemHandler.cs:86-115 | what Update saves after UPDATE passes keeps item labels unique and ids distinct |
| ItemHandling.CompletionKeepsLabelsUnique | Todos.API.Logic/Handlers/TodoItemHandler.cs:54-84 | what Update(CompleteTodoItemRequest) saves keeps item labels unique and ids distinct |
| ItemHandling.ArchiveKeepsLabelsUnique | Todos.API.Logic/Handlers/TodoItemHandler.cs:117-139 | what Archive saves keeps item labels unique and ids distinct |
| ItemHandling.TodoItemHandler.Create | Todos.API.Logic/Handlers/TodoItemHandler.cs:26-52 | a null request fails with nothing changed; a label in use fails after beginning the transaction; otherwise the new item is saved and its transaction committed |
| ItemHandling.TodoItemHandler.UpdateCompletion | Todos.API.Logic/Handlers/TodoItemHandler.cs:54-84 | a null request fails; no active item fails as not found; an unchanged completion state fails with the edit left staged; otherwise the edit is saved and the transaction committed |
| ItemHandling.TodoItemHandler.ChangeCompletion | Todos.API.Logic/Handlers/TodoItemHandler.cs:69-83 | for the found active item: the edit is staged; an unchanged completion state fails with it left staged; otherwise it is saved and the transaction committed when top-level |
| ItemHandling.TodoItemHandler.Update | Todos.API.Logic/Handlers/TodoItemHandler.cs:86-115 | a null request fails; no active item fails as not found; a label in use fails; otherwise the relabelled item is saved and the transaction committed |
| ItemHandling.TodoItemHandler.Relabel | Todos.API.Logic/Handlers/TodoItemHandler.cs:101-114 | for the found active item: a label in use fails with nothing staged; otherwise the relabelled item is saved and the transaction committed when top-level |
| ItemHandling.TodoItemHandler.Archive | Todos.API.Logic/Handlers/TodoItemHandler.cs:117-139 | no item with the id fails as not found; an archived item fails ARCHIVE; otherwise the item is saved with ArchivedAt set to now and the transaction committed |
| ItemHandling.TodoItemHandler.ArchiveFound | Todos.API.Logic/Handlers/TodoItemHandler.cs:127-138 | for the item found: an archived one fails ARCHIVE with nothing staged; otherwise it is saved with ArchivedAt set to now and the transaction committed when top-level |
| ItemHandling.TodoItemHandler.GetAll | Todos.API.Logic/Handlers/TodoItemHandler.cs:141-145 | the generic listing of the saved items under the TodoItem properties |
| ItemHandling.TodoItemHandler.GetAllItems | Todos.API.Logic/Handlers/TodoItemHandler.cs:147-151 | the filtered item listing of the saved items under the TodoItem properties |
| ItemHandling.TodoItemHandler.Get | Todos.API.Logic/Handlers/TodoItemHandler.cs:153-157 | the repository's Get(id, includeArchived) |
| ListHandling.Relabelled | Todos.API.Logic/Handlers/TodoListHandler.cs:67 | the label is replaced; nothing else changes |
| ListHandling.CreateKeepsLabelsUnique | Todos.API.Logic/Handlers/TodoListHandler.cs:39-46 | saving a new list whose label passed CREATE keeps list labels unique |
| ListHandling.ReplaceKeepsLabelsUnique | Todos.API.Logic/Handlers/TodoListHandler.cs:75-76 | with unique ids, replacing the row of an edited list whose label no other list has keeps list labels unique |
| ListHandling.ModifyKeepsLabelsUnique | Todos.API.Logic/Handlers/TodoListHandler.cs:75-76 | with unique ids, saving an edit whose label no other list has keeps list labels unique |
| ListHandling.UpdateKeepsLabelsUnique | Todos.API.Logic/Handlers/TodoListHandler.cs:52-81 | what Update saves after UPDATE passes keeps list labels unique and ids distinct |
| ListHandling.ArchiveKeepsLabelsUnique | Todos.API.Logic/Handlers/TodoListHandler.cs:83-105 | what Archive saves keeps list labels unique and ids distinct |
| ListHandling.TodoListHandler.Create | Todos.API.Logic/Handlers/TodoListHandler.cs:25-50 | a null request fails with nothing changed; a label in use fails after beginning the transaction; otherwise the new list is saved and its transaction committed |
| ListHandling.TodoListHandler.Update | Todos.API.Logic/Handlers/TodoListHandler.cs:52-81 | a null request fails; no active list fails as not found; a label in use fails; otherwise the relabelled list is saved and the transaction committed |
| ListHandling.TodoListHandler.Relabel | Todos.API.Logic/Handlers/TodoListHandler.cs:67-80 | for the found active list: a label in use fails with nothing staged; otherwise the relabelled list is saved and the transaction committed when top-level |
| ListHandling.TodoListHandler.Archive | Todos.API.Logic/Handlers/TodoListHandler.cs:83-105 | no list with the id fails as not found; an archived list fails ARCHIVE; otherwise the list is saved with ArchivedAt set to now and the transaction committed |
| ListHandling.TodoListHandler.ArchiveFound | Todos.API.Logic/Handlers/TodoListHandler.cs:93-104 | for the list found: an archived one fails ARCHIVE with nothing staged; otherwise it is saved with ArchivedAt set to now and the transaction committed when top-level |
| ListHandling.TodoListHandler.GetAll | Todos.API.Logic/Handlers/TodoListHandler.cs:107-111 | the generic listing of the saved lists under the TodoList properties |
| ListHandling.TodoListHandler.Get | Todos.API.Logic/Handlers/TodoListHandler.cs:113-117 | the repository's Get(id, includeArchived) |
| CommonData.LegacyListing | todos.common/Data/ReadWriteRepository.cs:50-86 | no options gives the whole table; fails exactly when Order names a missing property |
| CommonData.LegacyWrittenBack | todos.common/Data/ReadWriteRepository.cs:55-60 | Offset 1 is written back when Limit is set and Offset is not; no other option changes |
| CommonData.LegacyListingAsListing | todos.common/Data/ReadWriteRepository.cs:50-86 | the earlier listing is the later one with Offset defaulted to 1 and the direction forced to ascending |
| CommonData.LegacyDefaultSkipsFirstPage | todos.common/Data/ReadWriteRepository.cs:55-66 | with Limit set and no Offset, the window starts at row Limit |
| CommonData.LegacyIgnoresDescending | todos.common/Data/ReadWriteRepository.cs:68-78 | IsDescending has no effect on the earlier listing |
| CommonData.DefaultOffsetDiverges | todos.common/Data/ReadWriteRepository.cs:57-60 | with three active rows, Limit 1 and no Offset, the later listing gives the first row and the earlier one the second |
| CommonData.DescendingDiverges | todos.common/Data/ReadWriteRepository.cs:75-77 | for rows with ids 2 and 1 ordered by Id descending, the later listing gives 2, 1 and the earlier one gives 1, 2 |
| CommonData.LegacyRepository.constructor | todos.common/Data/ReadWriteRepository.cs:10-13 | the earlier repository over a store |
| CommonData.LegacyRepository.Add | todos.common/Data/ReadWriteRepository.cs:15-20 | stamps CreatedAt with now and stages an insert; nothing is saved until Commit |
| CommonData.LegacyRepository.Update | todos.common/Data/ReadWriteRepository.cs:22-26 | stages an update of the record as given and returns it |
| CommonData.LegacyRepository.Archive | todos.common/Data/ReadWriteRepository.cs:28-39 | fails, staging nothing, when no unarchived row has the id; otherwise stages and returns that row with ArchivedAt set to now |
| CommonData.LegacyRepository.Get | todos.common/Data/ReadWriteRepository.cs:41-44 | the first row with the id, skipping archived rows unless includeArchived |
| CommonData.LegacyRepository.BeginDatabaseTransaction | todos.common/Data/ReadWriteRepository.cs:88-97 | a top-level handle on a fresh transaction exactly when none is current; otherwise a non-owning handle on the current one |
| CommonData.LegacyRepository.Commit | todos.common/Data/ReadWriteRepository.cs:101-104 | SaveChanges writes every staged change to the table, in order, empties the staged list and answers how many there were |
| CommonData.LegacyRepository.GetAll | todos.common/Data/ReadWriteRepository.cs:50-86 | the result is the earlier listing of the saved table, and the options are left as written back |
| CommonData.LegacyRepository.CommitDatabaseTransaction | todos.common/Data/ReadWriteRepository.cs:99 | commits through the handle and answers nothing |
| Fixtures.ListingWithoutOptions | Todos.Utils.Tests/Data/ReadWriteRepositoryTests.cs:99-110 | no options lists ids 1, 2, 3, 5, 4 |
| Fixtures.ListingEverything | Todos.Utils.Tests/Data/ReadWriteRepositoryTests.cs:73 | IncludeArchived alone lists ids 1, 2, 3, 5, 4 |
| Fixtures.ListingFirstPage | Todos.Utils.Tests/Data/ReadWriteRepositoryTests.cs:74 | Limit 2 lists ids 1, 2 |
| Fixtures.ListingThirdPage | Todos.Utils.Tests/Data/ReadWriteRepositoryTests.cs:75 | Limit 1 and Offset 2 list id 3 |
| Fixtures.ListingById | Todos.Utils.Tests/Data/ReadWriteRepositoryTests.cs:76 | ordering by Id lists ids 1, 2, 3, 4, 5 |
| Fixtures.ListingByIdDescending | Todos.Utils.Tests/Data/ReadWriteRepositoryTests.cs:77 | ordering by Id descending lists ids 5, 4, 3, 2, 1 |
| Fixtures.ListingByArchivedAt | Todos.Utils.Tests/Data/ReadWriteRepositoryTests.cs:78 | ordering by ArchivedAt lists ids 1, 5, 3, 2, 4: unarchived rows first, in store order |
| Fixtures.ListingActiveOnly | Todos.Utils.Tests/Data/ReadWriteRepositoryTests.cs:79 | without IncludeArchived, ids 1, 5 are listed |
| Fixtures.ItemListingCompleted | Todos.Repositories.Tests/TodoItemRepositoryTests.cs:55 | over the item fixture, Completed true lists ids 2, 5, 4 |
| Fixtures.ItemListingNotCompleted | Todos.Repositories.Tests/TodoItemRepositoryTests.cs:56 | over the item fixture, Completed false lists ids 1, 3 |
| Fixtures.ItemListingOfList | Todos.Repositories.Tests/TodoItemRepositoryTests.cs:57 | over the item fixture, TodoListId 123 lists ids 1, 3 |

## Left out

- Key generation. A saved insert keeps the Id it was built with (0). The store's identity column, and the `Assert.Equal(6, result.Id)` expectation of the repository tests, are not modelled. The uniqueness lemmas therefore take distinct ids as a premise and do not establish them for inserts.
- Repository.ReadWriteRepository.Commit: answers the number of staged changes, not the number of rows EF reports as written.
- Tracked entities and aliasing. The model's Get returns a copy of the saved row, and the validators read the saved table. In the running system the repositories share one scoped context, and Get returns the tracked instance. So when Update(CompleteTodoItemRequest) edits the item in place, COMPLETE's lookup may see the edited instance rather than the stored state. That depends on Entity Framework's identity resolution, which is not modelled.
- Rule-set selection. `IncludeRuleSets` is taken to run only the named rule set, skipping the unnamed label rule. FluentValidation's internals are not part of this model.
- String ordering. Text keys are compared ordinally, character by character. The database's or .NET's culture-aware comparison is not modelled.
- Order properties. Only Id, CreatedAt, ArchivedAt and the entity's own scalar properties (TodoListId, Label, CompletedAt for items; Label for lists) can be order keys. A navigation property (TodoList, TodoItems) or a dotted path is treated as unknown, so the listing fails.
- Integers. Limit and Offset are natural numbers; negative values and 32-bit overflow of Offset × Limit are not modelled. Ids are unbounded integers.
- Lazy queries. GetAll returns a materialised sequence rather than an IQueryable, so deferred execution is not modelled.
- Null strings. A null label is not modelled: labels are always strings.
- Exception texts. Only the validation messages are reproduced. Other exceptions become `Failure` values without their text.
- Abandoned transactions. On a failure path the transaction a handler began stays current and uncommitted; the handlers never dispose it. The model states exactly that (`Transactions.Settled`), but not what the database later does with it.
- Transactions.RepositoryTransaction.Dispose: modelled, but no handler calls it.
- Validator lookups. The lookups the validators make through the repository are not entered in the repository's call log.
- TodoList labels. `Todos.Models/Entities/TodoList.cs` in this snapshot has no Label, and `TodoListRepository` does not implement the declared `Get(string label)`; `TodoListHandler` and `TodoListValidator` use both. The list label and its lookup are modelled as the item repository's are: every stored list, archived or not, first exact match.
- TodoListValidator messages. The tests of `TodoListValidator` expect messages that differ from the validator's own; the validator's messages are modelled.
- Sequences.Join: states the result only for zero and one message. With two messages (UPDATE failing both rules) the text is the messages joined with ", ", which the contract does not spell out.
- Controllers, dependency injection, Entity Framework's change tracker and the in-memory database provider are not part of this model.

## Findings

| source | as written | input that shows it | evidently intended | confidence | as-written member | corrected member |
|---|---|---|---|---|---|---|
| todos.common/Data/ReadWriteRepository.cs:57-60 | a missing Offset counts as 1, so with Limit set and no Offset the first page is never listed | three active rows, Limit 1, no Offset: the second row is listed | a missing Offset counts as 0, as Todos.Utils/Data/ReadWriteRepository.cs:58-61 has it | not executed | CommonData.DefaultOffsetDiverges | Queries.DefaultOffsetFirstPage |
| todos.common/Data/ReadWriteRepository.cs:75-77 | the listing is always ordered ascending; IsDescending is ignored | rows with ids 2 and 1, Order "Id", IsDescending set: listed as 1, 2 | ordered descending when IsDescending is set, as Todos.Utils/Data/ReadWriteRepository.cs:77-84 has it | not executed | CommonData.DescendingDiverges | Queries.ListingSorted |
