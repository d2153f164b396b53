# To-do CRUD service: request pipeline, handlers and audit stamping

This Dafny project models the decision logic of a small ASP.NET Core to-do service built on a CQRS request pipeline, with proofs of its properties. The service uses Entity Framework Core underneath. The model covers:

- **The result envelope.** `Result<T>` carries either `Data` or a `ResultError(Message, InnerException)`, built by the `Success` and `Failure` factories. The model is in `result.dfy`. Every message the service can put into an error is a constructor of `Message`: `MinLength("Title", 1)`, `InvalidGuid`, `NotFound`, and so on. The rendered text is not modelled.
- **Self-validation.** Each request record has an ordered, first-failure `Validate()` that returns `(IsValid, ErrorMessage)`. Requests that do not override it get the always-valid default. `cqrs.dfy` shows that each override is the rule chain `FirstViolation` over its own list of checks. The request files (`create_todo.dfy`, `update_todo.dfy`, `delete_todo.dfy`, `get_todo.dfy`, `get_all_todos.dfy`) give the exact message for every input.
- **The five handlers.** Create, Update, Delete, Get and GetAll each become a class whose `Handle` method is proved equal to a specification function `Handled`. That function works over the observable state `World`, which has three parts:
  - the committed rows, keyed by id;
  - the change tracker's entries, each with its current values, its snapshot, its `EntityState` and its owned references;
  - the number of clock reads so far.
- **The repository and the save.** `repository.dfy` holds these, as methods of `ToDoRepository` over a `DbContext` class. The database engine is an `Engine` parameter. It says whether a query or the save throws, and whether the save writes the pending rows or reports 0. A save (`SaveAll`) runs in this order:
  1. change detection;
  2. the audit interceptor;
  3. a fault, or a count of 0, or the count of pending entries with a commit, after which the tracker accepts the changes.
- **The audit interceptor.** `AuditableEntityInterceptor.UpdateEntities` is an imperative loop over the tracker. It skips an entry unless the entry is Added or Modified or has a changed owned reference. For each other entry it reads the injected clock once and writes the four audit fields in place. The loop is proved against `Audited`, and `interceptor.dfy` proves its per-entry properties.
- **The two decorators and their composition.** The exception decorator logs one error entry and rethrows unchanged; it is a class over a `Logger` whose entry list it appends to. The validation decorator short-circuits an invalid request to `Failure(message ?? DefaultErrorMessage)`. `Validation.Dispatched` is the whole pipeline in the order the container builds it: validation outermost, then exception logging, then the handler.

Behaviour the code fixes and the model keeps:

- **Decorator order.** `ApplicationDependencyInjection.cs:21-25` registers the exception decorator first and the validation decorator second. `Decorate` wraps the current registration, so validation is the outermost layer. A rejected request is never seen by the exception decorator (`RejectedRequestIsNeitherHandledNorLogged`). An exception thrown by `Validate()` itself escapes without a log entry (`ValidateFaultEscapesUnlogged`).
- **Null titles.** `Title` is declared as a non-nullable `string`, but a request body may send `null` for it (`CreateToDoRequest.cs:5`, `UpdateToDoRequest.cs:6`). `Validate()` then throws `NullReferenceException` when it reads `Title.Length`. The model lets the command's title be absent and models that throw (`NullTitleEscapesUnlogged`).
- **Clock reads.** `AuditableEntityInterceptor.cs:38` reads the clock inside the loop, once per stamped entry, so two entries of one save share an instant only when the clock returns the same value twice (`AdvancingClockGivesDistinctStamps`, `ConstantClockSharesStamp`).
- **The log template.** Both exception decorators (`UnhandledExceptionDecorator.cs:29` and `:53`) log the template "…processing query of type {QueryType}", including the command variant (`UnhandledExceptions.Template`).

Further facts the model records:

- The create rules never check the note, while the update rules cap it at 500 characters, so a create can carry a note the table's column cannot hold (`CreateAcceptsANoteUpdateRejects`).
- An update that repeats a stored to-do's values changes no snapshot, so the save writes nothing and the handler answers `SomethingWentWrong` although the to-do exists (`UnchangedUpdateReportsSomethingWentWrong`).

## Model

| member | source | states |
|---|---|---|
| Results.Success | src/Application/Common/Result/Result.cs:26-27 | a success carries the given value as `Data` and no `Error` |
| Results.Failure | src/Application/Common/Result/Result.cs:28-29 | a failure carries `ResultError(message, innerException)` as `Error` and the type's default as `Data` |
| Results.Deserialized | src/Application/Common/Result/Result.cs:11-12 | the public parameterless constructor, kept so that JSON deserialisation can build a `Result`, leaves both properties at their defaults, which reads as a success; it is a third way to build a value, beside the two factories |
| Results.FailureWithoutInnerException | src/Application/Common/Result/Result.cs:28-32 | a failure built without a second argument has a null `InnerException` |
| Results.FactoriesAreDistinct | src/Application/Common/Result/Result.cs:26-32 | no success equals a failure; equal successes have equal data; equal failures have equal message and inner exception (record value equality) |
| Results.EveryResultIsAFactoryValue | src/Application/Common/Result/Result.cs:5-29 | every envelope with default `Data` on error is one of the two factory values |
| Cqrs.DefaultValidate | src/Application/Common/Interfaces/CQRS/CommanQueryInterfaces.cs:7 | the default `Validate()` accepts with no message |
| Cqrs.FirstViolationAcceptsIffAllHold | src/Application/Features/ToDo/Commands/Update/UpdateToDoCommand.cs:17-43 | an ordered chain of early-return rules accepts exactly when every rule holds, with no message |
| Cqrs.FirstViolationReportsFirstBroken | src/Application/Features/ToDo/Commands/Update/UpdateToDoCommand.cs:17-43 | the chain rejects with the message of the first broken rule; later rules are not reached |
| Domain.Adapt | src/Application/Dtos/MapsterConfig.cs:11 | the response copies `Id`, `Title`, `Priority` and `Note` from the entity |
| Domain.AdaptAll | src/Application/Features/ToDo/Queries/GetAll/GetAllToDosQuery.cs:28 | the list mapping has one response per entity, each the mapping of the entity at the same position |
| Domain.AdaptIgnoresAudit | src/Application/Features/ToDo/Commands/Create/CreateToDoCommand.cs:62-63 | the audit stamp written during the save never changes the response |
| Data.DetectEntryChanges | src/Infrastructure/Data/Interceptors/AuditableEntityInterceptor.cs:33 | enumerating the tracker marks an Unchanged entry Modified exactly when its values differ from its snapshot; nothing else changes |
| Data.DetectChanges | src/Infrastructure/Data/Interceptors/AuditableEntityInterceptor.cs:33 | change detection keeps the number of entries |
| Data.DetectChangesAt | src/Infrastructure/Data/Interceptors/AuditableEntityInterceptor.cs:33 | change detection keeps every entry at its position and looks at that entry alone |
| Data.Clock.GetUtcNow | src/Infrastructure/Data/Interceptors/AuditableEntityInterceptor.cs:38 | the n-th read of the clock returns `ticks(n)` and counts one more read |
| Interceptors.AnyChangedOwned | src/Infrastructure/Data/Interceptors/AuditableEntityInterceptor.cs:52-58 | true exactly when some reference has a loaded, owned target that is Added or Modified |
| Interceptors.HasChangedOwnedEntities | src/Infrastructure/Data/Interceptors/AuditableEntityInterceptor.cs:52-58 | an entry has changed owned entities exactly when one of its references qualifies |
| Interceptors.IsAudited | src/Infrastructure/Data/Interceptors/AuditableEntityInterceptor.cs:35-36 | the loop visits an entry exactly when it is Added or Modified or one of its references has a loaded, owned, Added or Modified target |
| Interceptors.Stamp | src/Infrastructure/Data/Interceptors/AuditableEntityInterceptor.cs:38-45 | a visited entry gets the current user and the clock value as the last-modified pair, and as the created pair only when it is Added (otherwise the created pair is kept); state, snapshot, references and business fields are unchanged |
| Interceptors.AuditEntryChangesOnlyAuditFields | src/Infrastructure/Data/Interceptors/AuditableEntityInterceptor.cs:35-45 | the contract of `AuditEntry`, one visit of the loop: it leaves a skipped entry exactly as it was, and on a visited one changes only the audit fields: last-modified always, created only for an Added entry |
| Interceptors.Audited | src/Infrastructure/Data/Interceptors/AuditableEntityInterceptor.cs:33-46 | the audit pass keeps the number of entries |
| Interceptors.AuditedAt | src/Infrastructure/Data/Interceptors/AuditableEntityInterceptor.cs:33-46 | entry k after the pass is entry k stamped with the clock reading numbered by the count of stamped entries before it |
| Interceptors.ProcessedIncreases | src/Infrastructure/Data/Interceptors/AuditableEntityInterceptor.cs:33-38 | a stamped entry reads the clock strictly before every later entry |
| Interceptors.ProcessedBounded | src/Infrastructure/Data/Interceptors/AuditableEntityInterceptor.cs:33-38 | the pass reads the clock at most once per entry |
| Interceptors.SkippedEntryUntouched | src/Infrastructure/Data/Interceptors/AuditableEntityInterceptor.cs:35-36 | an entry that is neither Added nor Modified and has no changed owned reference is left exactly as it was |
| Interceptors.StampedEntryLastModified | src/Infrastructure/Data/Interceptors/AuditableEntityInterceptor.cs:44-45 | every stamped entry gets the current user as `LastModifiedBy` and its own clock reading as `LastModified` |
| Interceptors.AddedEntryCreatedIsLastModified | src/Infrastructure/Data/Interceptors/AuditableEntityInterceptor.cs:38-45 | an Added entry gets `Created == LastModified` and `CreatedBy == LastModifiedBy ==` the current user |
| Interceptors.ModifiedEntryKeepsCreated | src/Infrastructure/Data/Interceptors/AuditableEntityInterceptor.cs:39-43 | an entry that is not Added keeps `Created` and `CreatedBy` |
| Interceptors.OnlyAuditFieldsChange | src/Infrastructure/Data/Interceptors/AuditableEntityInterceptor.cs:38-45 | the pass changes no entry's state, references or business fields |
| Interceptors.AdvancingClockGivesDistinctStamps | src/Infrastructure/Data/Interceptors/AuditableEntityInterceptor.cs:33-38 | with a clock that advances between reads, two stamped entries of one save get different instants, ordered as the entries are |
| Interceptors.ConstantClockSharesStamp | src/Infrastructure/Data/Interceptors/AuditableEntityInterceptor.cs:33-38 | with a clock that always returns the same instant, every stamped entry carries that instant |
| Interceptors.AuditableEntityInterceptor.StampEntry | src/Infrastructure/Data/Interceptors/AuditableEntityInterceptor.cs:35-45 | one pass of the loop rewrites only entry i, reads the clock once if the entry is audited and not at all otherwise, and leaves the rows alone |
| Interceptors.AuditableEntityInterceptor.UpdateEntities | src/Infrastructure/Data/Interceptors/AuditableEntityInterceptor.cs:29-47 | a null context changes nothing; otherwise the entries become `Audited(DetectChanges(old entries))` and the clock is read once per stamped entry |
| Interceptors.AuditableEntityInterceptor.SavingChanges | src/Infrastructure/Data/Interceptors/AuditableEntityInterceptor.cs:14-19 | stamps the entries as `UpdateEntities` does and hands the interception result on unchanged |
| Interceptors.AuditableEntityInterceptor.SavingChangesAsync | src/Infrastructure/Data/Interceptors/AuditableEntityInterceptor.cs:21-27 | the same update as the synchronous entry point, then the same hand-on |
| Repository.FindTracked | src/Infrastructure/Data/Repositories/BaseRepository.cs:24-26 | the first tracked entry with the id, or none when no tracked entry has it |
| Repository.FetchTracked | src/Infrastructure/Data/Repositories/BaseRepository.cs:24-26 | throws exactly when the engine has a query fault, with that exception and nothing changed; otherwise an entity is found exactly when the key is stored; an entity already tracked is returned with the tracker unchanged, otherwise the row is appended as an Unchanged entry whose snapshot is the row; a missing key changes nothing; rows and clock are untouched |
| Repository.FindRow | src/Infrastructure/Data/Repositories/BaseRepository.cs:29-32 | throws exactly when the engine has a query fault, with that exception; otherwise the stored row with that key, or none exactly when the key is absent |
| Repository.FirstExists | src/Infrastructure/Data/Repositories/ToDo/ToDoRepository.cs:15 | every non-empty table has a row that the priority order lists first |
| Repository.First | src/Infrastructure/Data/Repositories/ToDo/ToDoRepository.cs:15 | the chosen row comes no later than any other row |
| Repository.OrderedByPriority | src/Infrastructure/Data/Repositories/ToDo/ToDoRepository.cs:12-16 | the listing has one element per row |
| Repository.OrderedByPriorityListsEveryRow | src/Infrastructure/Data/Repositories/ToDo/ToDoRepository.cs:12-16 | every row is listed, and every listed element is a row |
| Repository.OrderedByPriorityIsSorted | src/Infrastructure/Data/Repositories/ToDo/ToDoRepository.cs:15 | the listing is in ascending order of priority |
| Repository.PrependKeepsSorted | src/Infrastructure/Data/Repositories/ToDo/ToDoRepository.cs:15 | a sorted list stays sorted under a head of no greater priority |
| Repository.ListRows | src/Infrastructure/Data/Repositories/ToDo/ToDoRepository.cs:12-16 | throws exactly when the engine has a query fault, with that exception; otherwise the rows in priority order |
| Repository.DeleteRows | src/Infrastructure/Data/Repositories/BaseRepository.cs:55-58 | throws exactly when the engine has a query fault, with that exception and nothing changed; otherwise removes exactly the row with that key, returns how many rows it removed (zero exactly when the key was absent), and leaves every other row and the tracker unchanged |
| Repository.TrackAdded | src/Infrastructure/Data/Repositories/BaseRepository.cs:43-47 | adding appends one entry, Added, whose values and snapshot are the entity; earlier entries, the rows and the clock are untouched |
| Repository.TrackedAddIsPending | src/Infrastructure/Data/Repositories/BaseRepository.cs:43-47 | an added entity is always pending, so the next writing save reports at least one row |
| Repository.SaveAll | src/Infrastructure/Data/Repositories/BaseRepository.cs:72-73 | a fault throws exactly when the engine has a save fault, with that exception; the clock is read once per stamped entry; a writing save reports the number of pending entries after change detection, and afterwards nothing is pending; a non-writing save reports 0; a save that throws or does not write leaves the rows as they were; a writing save leaves the table as the stamped entries committed in tracking order |
| Repository.SaveOfOneAddedEntity | src/Infrastructure/Data/Repositories/BaseRepository.cs:72-73 | in a fresh scope a writing save of one added entity stores it under its key, created and last modified by the current user at the next clock reading, reports one row and keeps it tracked as Unchanged |
| Repository.AuditKeepsPendingCount | src/Infrastructure/Data/Repositories/BaseRepository.cs:72-73 | stamping before the save changes how many rows the save writes by nothing |
| Repository.CommittedWritesPendingEntries | src/Infrastructure/Data/Repositories/BaseRepository.cs:72-73 | with one tracked entry per key, committing stores each pending entry's values under its key, removes each deleted entry's key, and keeps every row no pending entry touches |
| Repository.StampingKeepsKeys | src/Infrastructure/Data/Repositories/BaseRepository.cs:72-73 | change detection and stamping keep every tracked entry's key at its position |
| Repository.SaveWritesEveryPendingEntry | src/Infrastructure/Data/Repositories/BaseRepository.cs:72-73 | a writing save persists every pending change: each pending entry, as stamped, is stored under its key, each deleted one is removed, and every row no pending entry touches is kept |
| Repository.AcceptAllLeavesNothingPending | src/Infrastructure/Data/Repositories/BaseRepository.cs:72-73 | after a successful save no tracked entry is pending |
| Repository.SaveOfOneChangedEntry | src/Infrastructure/Data/Repositories/BaseRepository.cs:72-73 | a writing save of one added or changed entry stores it stamped under its key, reports one row, reads the clock once and keeps it tracked as Unchanged |
| Repository.SaveOfOneUnchangedEntry | src/Infrastructure/Data/Repositories/BaseRepository.cs:72-73 | a save of one entry equal to its snapshot reports zero rows and changes nothing |
| Repository.ToDoRepository.GetByIdAsync | src/Infrastructure/Data/Repositories/BaseRepository.cs:24-26 | the tracked lookup, as `FetchTracked` |
| Repository.ToDoRepository.GetByIdAsNoTrackingAsync | src/Infrastructure/Data/Repositories/BaseRepository.cs:29-32 | the untracked lookup, as `FindRow`, with nothing changed |
| Repository.ToDoRepository.GetAllOrderedByPriorityAsNoTrackingAsync | src/Infrastructure/Data/Repositories/ToDo/ToDoRepository.cs:12-16 | the untracked priority-ordered listing, as `ListRows` |
| Repository.ToDoRepository.AddAsync | src/Infrastructure/Data/Repositories/BaseRepository.cs:43-47 | returns the entity and tracks it as Added; no row is written |
| Repository.ToDoRepository.DeleteAsync | src/Infrastructure/Data/Repositories/BaseRepository.cs:55-58 | the direct delete, as `DeleteRows` |
| Repository.ToDoRepository.SaveChangesAsync | src/Infrastructure/Data/Repositories/BaseRepository.cs:72-73 | the interceptor runs first, then the engine throws, writes nothing, or commits every pending entry and reports how many |
| CreateToDo.Validate | src/Application/Features/ToDo/Commands/Create/CreateToDoCommand.cs:17-33 | throws `NullReferenceException` exactly when the title is null (reading its length); otherwise valid exactly when the title has 1 to 500 characters and the priority is non-negative; each broken rule's message in the order the title is checked before the priority; the note and reminder are not checked |
| CreateToDo.ValidateIsFirstViolation | src/Application/Features/ToDo/Commands/Create/CreateToDoCommand.cs:17-33 | the rules are the first-failure chain title-min, title-max, priority |
| CreateToDo.NewEntity | src/Application/Features/ToDo/Commands/Create/CreateToDoCommand.cs:47-53 | the new entity has the request's title, priority, note and reminder, a fresh key and no audit stamp |
| CreateToDo.Handled | src/Application/Features/ToDo/Commands/Create/CreateToDoCommand.cs:45-64 | adds the entity and saves once, and the state is the save's; it throws exactly when the save throws, with that exception; the answer is a success exactly when the save's row count is positive, which is exactly when the engine writes, carrying the new entity's response; otherwise `Failure(SomethingWentWrong)` |
| CreateToDo.CreateInFreshScope | src/Application/Features/ToDo/Commands/Create/CreateToDoCommand.cs:45-64 | in a fresh scope with a writing engine, the answer is the new entity's response, the table gains the entity stamped as created and modified by the current user at the next clock reading, and the tracker holds it as Unchanged |
| CreateToDo.CreateStoresOneStampedRow | src/Application/Features/ToDo/Commands/Create/CreateToDoCommand.cs:45-64 | in a fresh scope a writing save stores exactly one new row, with the request's fields and created and modified by the current user at the first clock reading, and answers that row |
| CreateToDo.CreateToDoCommandHandler.Handle | src/Application/Features/ToDo/Commands/Create/CreateToDoCommand.cs:45-64 | the handler's outcome and new state are `CreateToDo.Handled` |
| UpdateToDo.Validate | src/Application/Features/ToDo/Commands/Update/UpdateToDoCommand.cs:17-43 | the empty id is rejected first even with a null title; otherwise a null title throws `NullReferenceException`; otherwise valid exactly when the id is not empty, the title has 1 to 500 characters, the priority is non-negative and a non-null note has at most 500; the empty id is reported before every other rule, then title, priority, note |
| UpdateToDo.ValidateIsFirstViolation | src/Application/Features/ToDo/Commands/Update/UpdateToDoCommand.cs:17-43 | the rules are the first-failure chain id, title-min, title-max, priority, note |
| UpdateToDo.ValidUpdateFitsColumns | src/Application/Features/ToDo/Commands/Update/UpdateToDoCommand.cs:37-40 | a valid update leaves a title and a note that fit the table's columns |
| UpdateToDo.Overwritten | src/Application/Features/ToDo/Commands/Update/UpdateToDoCommand.cs:63-65 | title and priority are overwritten, the note becomes the request's or the empty text when null; id, reminder and audit fields stay |
| UpdateToDo.Edited | src/Application/Features/ToDo/Commands/Update/UpdateToDoCommand.cs:63-65 | the assignments change the values of tracked entry i only; its snapshot and state, every other entry, the rows and the clock are kept |
| UpdateToDo.Handled | src/Application/Features/ToDo/Commands/Update/UpdateToDoCommand.cs:55-75 | throws exactly on a query fault, or on a save fault when the to-do is stored, with that exception; a missing to-do gives `Failure(NotFound)` with nothing changed; for a stored to-do the state is the save's after the edit, and the answer is a success exactly when that save's row count is positive, carrying the request's values, else `Failure(SomethingWentWrong)` |
| UpdateToDo.UpdateStoresNewValues | src/Application/Features/ToDo/Commands/Update/UpdateToDoCommand.cs:55-75 | a changing update stores the new values under the same key, stamped as modified by the current user, keeps the creation stamp, and leaves other rows alone |
| UpdateToDo.UnchangedUpdateReportsSomethingWentWrong | src/Application/Features/ToDo/Commands/Update/UpdateToDoCommand.cs:67-71 | an update repeating the stored values writes nothing and answers `Failure(SomethingWentWrong)` |
| UpdateToDo.UpdateToDoCommandHandler.Handle | src/Application/Features/ToDo/Commands/Update/UpdateToDoCommand.cs:55-75 | the handler's outcome and new state are `UpdateToDo.Handled` |
| DeleteToDo.Validate | src/Application/Features/ToDo/Commands/Delete/DeleteToDoCommand.cs:9-12 | rejected with `InvalidGuid` exactly when the id is empty |
| DeleteToDo.Handled | src/Application/Features/ToDo/Commands/Delete/DeleteToDoCommand.cs:24-30 | throws exactly on a query fault, with that exception and nothing changed; otherwise success `true` exactly when the key was stored; otherwise `Failure(NotFound)` with `false`; the row is gone and all others are unchanged |
| DeleteToDo.SecondDeleteIsNotFound | src/Application/Features/ToDo/Commands/Delete/DeleteToDoCommand.cs:24-30 | deleting again answers `NotFound` and changes nothing |
| DeleteToDo.DeleteToDoCommandHandler.Handle | src/Application/Features/ToDo/Commands/Delete/DeleteToDoCommand.cs:24-30 | the handler's outcome and new state are `DeleteToDo.Handled` |
| GetToDo.Validate | src/Application/Features/ToDo/Queries/Get/GetToDoQuery.cs:11-16 | rejected with `InvalidGuid` exactly when the id is empty |
| GetToDo.Handled | src/Application/Features/ToDo/Queries/Get/GetToDoQuery.cs:28-38 | throws exactly on a query fault, with that exception; otherwise success exactly when the key is stored, carrying that row's response; otherwise `Failure(NotFound)` with null data |
| GetToDo.GetToDoQueryHandler.Handle | src/Application/Features/ToDo/Queries/Get/GetToDoQuery.cs:28-38 | the handler's outcome is `GetToDo.Handled` and it modifies nothing |
| GetAllToDos.Validate | src/Application/Features/ToDo/Queries/GetAll/GetAllToDosQuery.cs:9 | the query uses the default rules and always passes |
| GetAllToDos.Handled | src/Application/Features/ToDo/Queries/GetAll/GetAllToDosQuery.cs:20-30 | throws exactly on a query fault, with that exception; without a fault it always succeeds with a non-null list of one response per row |
| GetAllToDos.ListingHoldsEveryRow | src/Application/Features/ToDo/Queries/GetAll/GetAllToDosQuery.cs:28-29 | every stored to-do's response is listed and every listed response is a stored to-do's |
| GetAllToDos.ListingIsByPriority | src/Infrastructure/Data/Repositories/ToDo/ToDoRepository.cs:15 | the listing is in ascending order of priority |
| GetAllToDos.GetAllToDosQueryHandler.Handle | src/Application/Features/ToDo/Queries/GetAll/GetAllToDosQuery.cs:20-30 | the handler's outcome is `GetAllToDos.Handled` and it modifies nothing |
| Requests.TypeName | src/Application/Common/Behaviours/UnhandledExceptionDecorator.cs:30 | the type name logged for each request |
| Requests.Validate | src/Application/Common/Interfaces/CQRS/CommanQueryInterfaces.cs:5-8 | every request's own rules; only a create or an update with a null title can throw, and then with `NullReferenceException`; a request without null fields never throws; a rejection always names a message, an acceptance none, and an accepted request has no null field |
| Requests.FailureReply | src/Application/Common/Behaviours/ValidationDecorator.cs:27 | the failure of the request's response type, with the message, no inner exception and the type's default data |
| Requests.Handled | src/Application/ApplicationDependencyInjection.cs:13-19 | the registered handler of the request; its reply has the request's response type and queries leave the state unchanged |
| Requests.ToDoHandlers.Handle | src/Application/ApplicationDependencyInjection.cs:13-19 | resolving and running the handler gives `Requests.Handled` |
| UnhandledExceptions.Logger.LogError | src/Application/Common/Behaviours/UnhandledExceptionDecorator.cs:27-30 | appends one entry with the exception, the template and the type name |
| UnhandledExceptions.Logged | src/Application/Common/Behaviours/UnhandledExceptionDecorator.cs:21-33 | a returned result adds no log entry; a throw adds exactly one, with that exception and the request's type name |
| UnhandledExceptions.UnhandledExceptionHandler.Handle | src/Application/Common/Behaviours/UnhandledExceptionDecorator.cs:19-34 | the inner outcome, returned or thrown, passes through unchanged, and the log grows only on a throw |
| Validation.RejectionMessage | src/Application/Common/Behaviours/ValidationDecorator.cs:14-27 | the rule's message, or the default message when the rule gave none |
| Validation.Dispatched | src/Application/ApplicationDependencyInjection.cs:21-25 | an exception from `Validate()` escapes unlogged with nothing changed; an invalid request is answered with its failure and changes nothing; a valid one gives the handler's outcome and state, logged as the exception decorator logs |
| Validation.ValidationHandler.Handle | src/Application/Common/Behaviours/ValidationDecorator.cs:20-28 | validates once, letting a throw from `Validate()` propagate, then either delegates or returns the failure; the outcome, state and log are `Dispatched` |
| Validation.Compose | src/Application/ApplicationDependencyInjection.cs:21-25 | the validation decorator wraps the exception decorator, which wraps the handlers over one repository |
| Validation.RejectionsCarryTheirOwnMessage | src/Application/Common/Behaviours/ValidationDecorator.cs:27 | a rejection carries its rule's message with no inner exception; the default message is never used |
| Validation.RejectedRequestIsNeitherHandledNorLogged | src/Application/ApplicationDependencyInjection.cs:21-25 | a rejected request leaves the state and the log unchanged, whatever the database would do |
| Validation.FaultsAreLoggedOnceAndRethrown | src/Application/Common/Behaviours/UnhandledExceptionDecorator.cs:19-34 | for a valid request the handler's outcome comes back unchanged; a throw is logged exactly once under the request's type name, and a result is not logged |
| Validation.QueryFaultIsLoggedWithItsTypeName | src/Application/Common/Behaviours/UnhandledExceptionDecorator.cs:27-30 | a failing listing is rethrown and logged once with the template and `GetAllToDosQuery` |
| Validation.ListingAlwaysSucceeds | src/Application/Features/ToDo/Queries/GetAll/GetAllToDosQuery.cs:20-30 | the listing passes validation and succeeds without a fault, with an empty list for an empty table |
| Validation.EmptyIdUpdateIsInvalidGuid | src/Application/Features/ToDo/Commands/Update/UpdateToDoCommand.cs:19-22 | an update with the empty id is answered `InvalidGuid` whatever its other fields are, with nothing changed |
| Validation.ValidateFaultEscapesUnlogged | src/Application/ApplicationDependencyInjection.cs:21-25 | an exception thrown by `Validate()` reaches the caller unchanged, with the state and the log unchanged, although the exception decorator would have logged it: the decorator order is observable |
| Validation.NullTitleEscapesUnlogged | src/Application/Features/ToDo/Commands/Create/CreateToDoCommand.cs:17-19 | a create with a null title, and an update with a set id and a null title, throw `NullReferenceException` through the pipeline without a log entry |
| Validation.CreateAcceptsANoteUpdateRejects | src/Application/Features/ToDo/Commands/Create/CreateToDoCommand.cs:17-33 | a create with a 501-character note is valid although the entity does not fit the columns, and the same fields fail the update rules |
| Validation.ValidCreateEndToEnd | src/Application/Features/ToDo/Commands/Create/CreateToDoCommand.cs:45-64 | through the whole pipeline a valid create answers the new to-do, adds one row created by the current user, and logs nothing |

## Left out

- Asynchrony and cancellation tokens are not modelled. Each call is synchronous, and a cancellation is one more exception that the `Engine` parameter can raise.
- The database engine itself is not modelled: SQL, transactions, key collisions on insert and the `IQueryable` surface. `Committed` simply overwrites a row with the same key.
- Entity Framework's change tracker is modelled only as far as the core uses it:
  - entries with a snapshot, a state and owned references;
  - identity resolution;
  - snapshot change detection;
  - `AcceptAllChanges`.
  The second change detection EF runs after the interceptor, and navigation fix-up, are not modelled. The to-do entity has no owned types, so every entry created by the handlers has no references.
- Tracked entities are values inside the tracker's entries, not objects shared by reference with the handlers. The update handler therefore writes its three assignments into the tracked entry directly.
- Messages are constructors, not the interpolated strings `ValidatorMessage` renders. JSON serialisation of `Result` is not modelled.
- `CreatedBy` and `LastModifiedBy` hold the user's `Guid` rather than its text. `Guid.ToString()` is a function of the `Guid` alone.
- The current user's claim parsing is not modelled; the user id is an input, `Guid.Empty` when nobody is authenticated. Likewise `Guid.NewGuid()` (an input `newId`) and `TimeProvider` (a function from the number of the read to an instant) are inputs.
- Logging is modelled as a list of the entries the decorator writes. The logging framework and its formatting are not modelled.
- HTTP endpoints, rate limiting, hosting and the assembly scanning that registers handlers are not modelled. Only the decorator order is kept, as `Compose` and `Dispatched`.
- Mapster is modelled as the explicit field copy `Adapt`.
- String lengths are sequence lengths. C#'s `string.Length` counts UTF-16 code units, which the model does not distinguish from characters.
- The query and command variants of each decorator have identical bodies. Each decorator is modelled once over the sum type `Request`.
- CreateToDo.Handled: requires a non-null title. Only a request whose `Validate()` returned can reach the handler, and that call throws on a null title. What the database would do with a null title (the `NOT NULL` column) is not modelled.
- UpdateToDo.Handled: requires a non-null title, for the same reason as `CreateToDo.Handled`.
- Requests.Handled: requires `NonNullFields`, for the same reason; `Requests.Validate` proves that an accepted request meets it.
- Only the two titles are nullable in the model. The other non-nullable fields are value types (`Guid`, `int`), or nullable already (`Note`, `Reminder`).
- Repository.FetchTracked: the tracked entry's id equals the requested id only under `KeyedById`, the table invariant that each row is stored under its own `Id`. The model does not carry that invariant through every state.
- Repository.OrderedByPriority: SQL's `ORDER BY Priority` fixes no order among rows of equal priority. The model breaks ties by key, so only ascending priority is claimed of the source.
- Repository.SaveWritesEveryPendingEntry: requires `DistinctKeys`, one tracked entry per key. Entity Framework's identity map throws when asked to track a second entity whose key is already tracked. The model's `AddAsync` does not check for that, so the lemma assumes the invariant instead of deriving it.
- GetAllToDos.ListingHoldsEveryRow: states membership in both directions and, through `GetAllToDos.Handled`, the length. It does not state that rows with equal contents appear as many times as they are stored.
