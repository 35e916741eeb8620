/**
 * TodoItemHandler: each mutation begins a database transaction, loads or
 * builds the item, validates it with one rule set, stages the change, saves
 * and commits the transaction. Failures end the call early: nothing further
 * is staged or saved, and a transaction this call began is left open.
 */
module ItemHandling {
  import opened Wrappers
  import opened Records
  import opened Sequences
  import opened Queries
  import opened Transactions
  import opened Repository
  import opened ItemRepository
  import opened Validation
  import opened ItemValidation

  datatype TodoItemRequest = TodoItemRequest(text: string, listId: int)
  datatype CompleteTodoItemRequest = CompleteTodoItemRequest(completed: bool)

  /** The item as Update(CompleteTodoItemRequest) edits it: CompletedAt set to
      now when completing, cleared otherwise. */
  function WithCompletion(item: TodoItem, completed: bool, now: Time): (r: TodoItem)
    ensures completed ==> r.fields.completedAt == Some(now)
    ensures !completed ==> r.fields.completedAt == None
    ensures r.(fields := r.fields.(completedAt := item.fields.completedAt)) == item
  {
    item.(fields := item.fields.(completedAt := if completed then Some(now) else None))
  }

  /** The item as Update(TodoItemRequest) edits it: only the label changes. */
  function WithLabel(item: TodoItem, text: string): (r: TodoItem)
    ensures r.fields.text == text
    ensures r.(fields := r.fields.(text := item.fields.text)) == item
  {
    item.(fields := item.fields.(text := text))
  }

  /** Saving a new item whose label no item carries keeps labels unique:
      what Create saves once its CREATE rules pass on a context with nothing staged. */
  lemma CreateKeepsLabelsUnique(table: seq<TodoItem>, created: TodoItem)
    requires LabelsUnique(table) && !LabelInUse(table, created.fields.text)
    ensures LabelsUnique(Flush(table, [Insert(created)]))
  {
    assert LabelsUnique(Apply(table, Insert(created)));
    FlushOne(table, Insert(created));
  }

  /** With distinct ids, replacing the row of an edit whose label no other
      row carries keeps labels unique. */
  lemma ReplaceKeepsLabelsUnique(table: seq<TodoItem>, edited: TodoItem)
    requires LabelsUnique(table) && DistinctIds(table)
    requires forall i :: 0 <= i < |table| && table[i].id != edited.id ==> table[i].fields.text != edited.fields.text
    ensures LabelsUnique(Replace(table, edited))
  {
    var saved := Replace(table, edited);
    forall i, j | 0 <= i < j < |saved| ensures saved[i].fields.text != saved[j].fields.text {
      assert table[i].id != table[j].id;
    }
  }

  /** With distinct ids, saving an edit whose label no other row carries
      keeps labels unique. */
  lemma ModifyKeepsLabelsUnique(table: seq<TodoItem>, edited: TodoItem)
    requires LabelsUnique(table) && DistinctIds(table)
    requires forall i :: 0 <= i < |table| && table[i].id != edited.id ==> table[i].fields.text != edited.fields.text
    ensures LabelsUnique(Flush(table, [Modify(edited)]))
  {
    ReplaceKeepsLabelsUnique(table, edited);
    FlushOne(table, Modify(edited));
  }

  /** An edit of the active item with id that keeps its label keeps labels
      unique and ids distinct. */
  lemma SameLabelKeepsLabelsUnique(table: seq<TodoItem>, id: int, edited: TodoItem)
    requires LabelsUnique(table) && DistinctIds(table) && IsActive(table, id)
    requires edited.id == id && edited.fields.text == Find(table, id, false).value.fields.text
    ensures LabelsUnique(Flush(table, [Modify(edited)])) && DistinctIds(Flush(table, [Modify(edited)]))
  {
    assert NotArchived(table, id);
    var found := Find(table, id, false).value;
    var k :| 0 <= k < |table| && table[k] == found && found.id == id;
    forall i | 0 <= i < |table| && table[i].id != edited.id ensures table[i].fields.text != edited.fields.text {
      assert i != k;
    }
    ModifyKeepsLabelsUnique(table, edited);
    ModifyKeepsIds(table, edited);
  }

  /** Update(request, id) saves a relabelled item only when no item carries the
      new label, so labels stay unique. */
  lemma UpdateKeepsLabelsUnique(table: seq<TodoItem>, id: int, text: string)
    requires LabelsUnique(table) && DistinctIds(table)
    requires IsActive(table, id) && !LabelInUse(table, text)
    ensures var edited := WithLabel(Find(table, id, false).value, text);
            LabelsUnique(Flush(table, [Modify(edited)])) && DistinctIds(Flush(table, [Modify(edited)]))
  {
    assert NotArchived(table, id);
    var edited := WithLabel(Find(table, id, false).value, text);
    ModifyKeepsLabelsUnique(table, edited);
    ModifyKeepsIds(table, edited);
  }

  /** Archive(id) stamps the active item and keeps its label, so labels stay unique. */
  lemma ArchiveKeepsLabelsUnique(table: seq<TodoItem>, id: int, now: Time)
    requires LabelsUnique(table) && DistinctIds(table) && IsActive(table, id)
    ensures var archived := Find(table, id, false).value.(archivedAt := Some(now));
            LabelsUnique(Flush(table, [Modify(archived)])) && DistinctIds(Flush(table, [Modify(archived)]))
  {
    assert NotArchived(table, id);
    SameLabelKeepsLabelsUnique(table, id, Find(table, id, false).value.(archivedAt := Some(now)));
  }

  /** Update(CompleteTodoItemRequest, id) changes only the completion state,
      so labels stay unique. */
  lemma CompletionKeepsLabelsUnique(table: seq<TodoItem>, id: int, completed: bool, now: Time)
    requires LabelsUnique(table) && DistinctIds(table) && IsActive(table, id)
    ensures var edited := WithCompletion(Find(table, id, false).value, completed, now);
            LabelsUnique(Flush(table, [Modify(edited)])) && DistinctIds(Flush(table, [Modify(edited)]))
  {
    assert NotArchived(table, id);
    SameLabelKeepsLabelsUnique(table, id, WithCompletion(Find(table, id, false).value, completed, now));
  }

  /** COMPLETE on the edit Update(CompleteTodoItemRequest, id) builds from the
      active item under id rejects it exactly when its completion state does
      not change. */
  lemma CompletionVerdict(table: seq<TodoItem>, id: int, completed: bool, now: Time)
    requires IsActive(table, id)
    ensures var found := Find(table, id, false).value;
            Validate(table, WithCompletion(found, completed, now), Some(RuleSet.Complete)) ==
              if found.fields.completedAt.Some? == completed then [CompletionUnchanged] else []
  {
    assert NotArchived(table, id);
    var found := Find(table, id, false).value;
    var edited := WithCompletion(found, completed, now);
    assert NotArchived(table, edited.id);
    assert CompletionStateIsNotCurrent(table, edited) <==> found.fields.completedAt.Some? != completed;
  }

  class TodoItemHandler {
    const writeRepository: ReadWriteRepository<ItemFields>
    const readRepository: TodoItemRepository

    /** Both repositories work on one context: the read side sees what the write side saved. */
    ghost predicate Shared()
    {
      readRepository.base == writeRepository
    }

    constructor (writeRepository: ReadWriteRepository<ItemFields>, readRepository: TodoItemRepository)
      requires readRepository.base == writeRepository && readRepository.Typed()
      ensures this.writeRepository == writeRepository && this.readRepository == readRepository
      ensures Shared() && readRepository.Typed()
    {
      this.writeRepository := writeRepository;
      this.readRepository := readRepository;
    }

    /** Create: a new item with the request's label and list, saved when its
        label is not in use. */
    method Create(req: Option<TodoItemRequest>, now: Time) returns (r: Result<TodoItem, Failure>)
      requires Shared()
      modifies writeRepository, writeRepository.database, writeRepository.database.slot
      ensures req.None? ==> r == Failure(ArgumentNull)
      ensures req.None? ==> unchanged(writeRepository) && unchanged(writeRepository.database)
      ensures req.Some? ==> Settled(writeRepository.database, r.Success?)
      ensures req.Some? && LabelInUse(old(writeRepository.table), req.value.text) ==>
                r == Failure(ValidationFailed(LabelNotUnique)) &&
                writeRepository.table == old(writeRepository.table) &&
                writeRepository.staged == old(writeRepository.staged) &&
                writeRepository.log == old(writeRepository.log) + [Call.BeginDatabaseTransaction]
      ensures req.Some? && !LabelInUse(old(writeRepository.table), req.value.text) ==>
                r == Success(Record(0, now, None, ItemFields(req.value.text, req.value.listId, None))) &&
                writeRepository.table == Flush(old(writeRepository.table), old(writeRepository.staged) + [Insert(r.value)]) &&
                writeRepository.staged == [] &&
                writeRepository.log == old(writeRepository.log) +
                  [Call.BeginDatabaseTransaction] + [Call.Add] + [Call.Commit] + [Call.CommitDatabaseTransaction]
    {
      if req.None? {
        return Failure(ArgumentNull);
      }
      var transaction := writeRepository.BeginDatabaseTransaction();
      var item := NewRecord(ItemFields(req.value.text, req.value.listId, None));
      var errors := Validate(writeRepository.table, item, Some(RuleSet.Create));
      if errors != [] {
        return Failure(ValidationFailed(Join(errors, ", ")));
      }
      item := writeRepository.Add(item, now);
      var _ := writeRepository.Commit();
      var _ := writeRepository.CommitDatabaseTransaction(transaction);
      r := Success(item);
    }

    /** Update(CompleteTodoItemRequest, id): completes or reopens the active
        item with that id; rejected when it is already in that state. The
        edit is staged before validation, so a rejected edit stays staged. */
    method UpdateCompletion(req: Option<CompleteTodoItemRequest>, id: int, now: Time) returns (r: Result<TodoItem, Failure>)
      requires Shared()
      modifies writeRepository, writeRepository.database, writeRepository.database.slot
      ensures req.None? ==> r == Failure(ArgumentNull)
      ensures req.None? ==> unchanged(writeRepository) && unchanged(writeRepository.database)
      ensures req.Some? ==> Settled(writeRepository.database, r.Success?)
      ensures req.Some? && !IsActive(old(writeRepository.table), id) ==>
                r == Failure(NotFound(id)) &&
                writeRepository.table == old(writeRepository.table) &&
                writeRepository.staged == old(writeRepository.staged) &&
                writeRepository.log == old(writeRepository.log) + [Call.BeginDatabaseTransaction] + [Call.Get(id, false)]
      ensures req.Some? && IsActive(old(writeRepository.table), id) ==>
                var found := Find(old(writeRepository.table), id, false).value;
                var edited := WithCompletion(found, req.value.completed, now);
                if found.fields.completedAt.Some? == req.value.completed then
                  r == Failure(ValidationFailed(CompletionUnchanged)) &&
                  writeRepository.table == old(writeRepository.table) &&
                  writeRepository.staged == old(writeRepository.staged) + [Modify(edited)] &&
                  writeRepository.log == old(writeRepository.log) +
                    [Call.BeginDatabaseTransaction] + [Call.Get(id, false)] + [Call.Update]
                else
                  r == Success(edited) &&
                  writeRepository.table == Flush(old(writeRepository.table), old(writeRepository.staged) + [Modify(edited)]) &&
                  writeRepository.staged == [] &&
                  writeRepository.log == old(writeRepository.log) +
                    [Call.BeginDatabaseTransaction] + [Call.Get(id, false)] + [Call.Update] + [Call.Commit] + [Call.CommitDatabaseTransaction]
    {
      if req.None? {
        return Failure(ArgumentNull);
      }
      var transaction := writeRepository.BeginDatabaseTransaction();
      var item := readRepository.base.Get(id, false);
      assert item.Some? <==> IsActive(writeRepository.table, id) by {
        assert NotArchived(writeRepository.table, id) == item.Some?;
      }
      if item.None? {
        return Failure(NotFound(id));
      }
      r := ChangeCompletion(item.value, req.value.completed, now, transaction);
    }

    /** The rest of Update(CompleteTodoItemRequest, id) once the active item
        is found: stage the edit, validate it under COMPLETE, then save and
        commit it. */
    method ChangeCompletion(found: TodoItem, completed: bool, now: Time, transaction: RepositoryTransaction)
      returns (r: Result<TodoItem, Failure>)
      requires IsActive(writeRepository.table, found.id) && found == Find(writeRepository.table, found.id, false).value
      modifies writeRepository`table, writeRepository`staged, writeRepository`log, transaction.transaction
      ensures found.fields.completedAt.Some? == completed ==>
                r == Failure(ValidationFailed(CompletionUnchanged)) &&
                writeRepository.table == old(writeRepository.table) &&
                writeRepository.staged == old(writeRepository.staged) + [Modify(WithCompletion(found, completed, now))] &&
                writeRepository.log == old(writeRepository.log) + [Call.Update]
      ensures found.fields.completedAt.Some? != completed ==>
                r == Success(WithCompletion(found, completed, now)) &&
                writeRepository.table == Flush(old(writeRepository.table), old(writeRepository.staged) + [Modify(r.value)]) &&
                writeRepository.staged == [] &&
                writeRepository.log == old(writeRepository.log) + [Call.Update] + [Call.Commit] + [Call.CommitDatabaseTransaction]
      ensures transaction.transaction.commits ==
                old(transaction.transaction.commits) + (if r.Success? && transaction.isTopLevel then 1 else 0)
      ensures transaction.transaction.disposals == old(transaction.transaction.disposals)
    {
      var edited := WithCompletion(found, completed, now);
      edited := writeRepository.Update(edited);
      CompletionVerdict(writeRepository.table, found.id, completed, now);
      var errors := Validate(writeRepository.table, edited, Some(RuleSet.Complete));
      if errors != [] {
        return Failure(ValidationFailed(Join(errors, ", ")));
      }
      var _ := writeRepository.Commit();
      var _ := writeRepository.CommitDatabaseTransaction(transaction);
      r := Success(edited);
    }

    /** Update(TodoItemRequest, id): relabels the active item with that id;
        rejected when the new label is in use, its own current label included. */
    method Update(req: Option<TodoItemRequest>, id: int) returns (r: Result<TodoItem, Failure>)
      requires Shared()
      modifies writeRepository, writeRepository.database, writeRepository.database.slot
      ensures req.None? ==> r == Failure(ArgumentNull)
      ensures req.None? ==> unchanged(writeRepository) && unchanged(writeRepository.database)
      ensures req.Some? ==> Settled(writeRepository.database, r.Success?)
      ensures req.Some? && !IsActive(old(writeRepository.table), id) ==>
                r == Failure(NotFound(id)) &&
                writeRepository.table == old(writeRepository.table) &&
                writeRepository.staged == old(writeRepository.staged) &&
                writeRepository.log == old(writeRepository.log) + [Call.BeginDatabaseTransaction] + [Call.Get(id, false)]
      ensures req.Some? && IsActive(old(writeRepository.table), id) ==>
                var edited := WithLabel(Find(old(writeRepository.table), id, false).value, req.value.text);
                if LabelInUse(old(writeRepository.table), req.value.text) then
                  r == Failure(ValidationFailed(LabelNotUnique)) &&
                  writeRepository.table == old(writeRepository.table) &&
                  writeRepository.staged == old(writeRepository.staged) &&
                  writeRepository.log == old(writeRepository.log) + [Call.BeginDatabaseTransaction] + [Call.Get(id, false)]
                else
                  r == Success(edited) &&
                  writeRepository.table == Flush(old(writeRepository.table), old(writeRepository.staged) + [Modify(edited)]) &&
                  writeRepository.staged == [] &&
                  writeRepository.log == old(writeRepository.log) +
                    [Call.BeginDatabaseTransaction] + [Call.Get(id, false)] + [Call.Update] + [Call.Commit] + [Call.CommitDatabaseTransaction]
    {
      if req.None? {
        return Failure(ArgumentNull);
      }
      var transaction := writeRepository.BeginDatabaseTransaction();
      var item := readRepository.base.Get(id, false);
      assert item.Some? <==> IsActive(writeRepository.table, id) by {
        assert NotArchived(writeRepository.table, id) == item.Some?;
      }
      if item.None? {
        return Failure(NotFound(id));
      }
      r := Relabel(item.value, req.value.text, transaction);
    }

    /** The rest of Update(TodoItemRequest, id) once the active item is found:
        validate the relabelled item under UPDATE, then stage, save and
        commit it. */
    method Relabel(found: TodoItem, text: string, transaction: RepositoryTransaction) returns (r: Result<TodoItem, Failure>)
      requires IsActive(writeRepository.table, found.id)
      modifies writeRepository`table, writeRepository`staged, writeRepository`log, transaction.transaction
      ensures LabelInUse(old(writeRepository.table), text) ==>
                r == Failure(ValidationFailed(LabelNotUnique)) &&
                writeRepository.table == old(writeRepository.table) &&
                writeRepository.staged == old(writeRepository.staged) &&
                writeRepository.log == old(writeRepository.log)
      ensures !LabelInUse(old(writeRepository.table), text) ==>
                r == Success(WithLabel(found, text)) &&
                writeRepository.table == Flush(old(writeRepository.table), old(writeRepository.staged) + [Modify(r.value)]) &&
                writeRepository.staged == [] &&
                writeRepository.log == old(writeRepository.log) + [Call.Update] + [Call.Commit] + [Call.CommitDatabaseTransaction]
      ensures transaction.transaction.commits ==
                old(transaction.transaction.commits) + (if r.Success? && transaction.isTopLevel then 1 else 0)
      ensures transaction.transaction.disposals == old(transaction.transaction.disposals)
    {
      var edited := WithLabel(found, text);
      var errors := Validate(writeRepository.table, edited, Some(RuleSet.Update));
      if errors != [] {
        return Failure(ValidationFailed(Join(errors, ", ")));
      }
      edited := writeRepository.Update(edited);
      var _ := writeRepository.Commit();
      var _ := writeRepository.CommitDatabaseTransaction(transaction);
      r := Success(edited);
    }

    /** Archive(id): stamps ArchivedAt on the active item with that id.
        An id stored only as archived is found but rejected by validation. */
    method Archive(id: int, now: Time) returns (r: Result<TodoItem, Failure>)
      requires Shared()
      modifies writeRepository, writeRepository.database, writeRepository.database.slot
      ensures Settled(writeRepository.database, r.Success?)
      ensures Find(old(writeRepository.table), id, true).None? ==>
                r == Failure(NotFound(id)) &&
                writeRepository.table == old(writeRepository.table) &&
                writeRepository.staged == old(writeRepository.staged) &&
                writeRepository.log == old(writeRepository.log) + [Call.BeginDatabaseTransaction] + [Call.Get(id, true)]
      ensures Find(old(writeRepository.table), id, true).Some? && !IsActive(old(writeRepository.table), id) ==>
                r == Failure(ValidationFailed(NotActive)) &&
                writeRepository.table == old(writeRepository.table) &&
                writeRepository.staged == old(writeRepository.staged) &&
                writeRepository.log == old(writeRepository.log) + [Call.BeginDatabaseTransaction] + [Call.Get(id, true)]
      ensures IsActive(old(writeRepository.table), id) ==>
                r == Success(Find(old(writeRepository.table), id, false).value.(archivedAt := Some(now))) &&
                writeRepository.table == Flush(old(writeRepository.table), old(writeRepository.staged) + [Modify(r.value)]) &&
                writeRepository.staged == [] &&
                writeRepository.log == old(writeRepository.log) +
                  [Call.BeginDatabaseTransaction] + [Call.Get(id, true)] + [Call.Archive(id)] + [Call.Commit] + [Call.CommitDatabaseTransaction]
    {
      var transaction := writeRepository.BeginDatabaseTransaction();
      var item := readRepository.base.Get(id, true);
      if item.None? {
        return Failure(NotFound(id));
      }
      r := ArchiveFound(item.value, now, transaction);
    }

    /** The rest of Archive(id) once an item with that id is found, archived
        or not: validate it under ARCHIVE, then stamp, save and commit it. */
    method ArchiveFound(found: TodoItem, now: Time, transaction: RepositoryTransaction) returns (r: Result<TodoItem, Failure>)
      modifies writeRepository`table, writeRepository`staged, writeRepository`log, transaction.transaction
      ensures !IsActive(old(writeRepository.table), found.id) ==>
                r == Failure(ValidationFailed(NotActive)) &&
                writeRepository.table == old(writeRepository.table) &&
                writeRepository.staged == old(writeRepository.staged) &&
                writeRepository.log == old(writeRepository.log)
      ensures IsActive(old(writeRepository.table), found.id) ==>
                r == Success(Find(old(writeRepository.table), found.id, false).value.(archivedAt := Some(now))) &&
                writeRepository.table == Flush(old(writeRepository.table), old(writeRepository.staged) + [Modify(r.value)]) &&
                writeRepository.staged == [] &&
                writeRepository.log == old(writeRepository.log) +
                  [Call.Archive(found.id)] + [Call.Commit] + [Call.CommitDatabaseTransaction]
      ensures transaction.transaction.commits ==
                old(transaction.transaction.commits) + (if r.Success? && transaction.isTopLevel then 1 else 0)
      ensures transaction.transaction.disposals == old(transaction.transaction.disposals)
    {
      var errors := Validate(writeRepository.table, found, Some(RuleSet.Archive));
      assert errors == Check(NotArchived(writeRepository.table, found.id), NotActive);
      if errors != [] {
        return Failure(ValidationFailed(Join(errors, ", ")));
      }
      var archived := writeRepository.Archive(found.id, now);
      assert archived.Success?;
      var _ := writeRepository.Commit();
      var _ := writeRepository.CommitDatabaseTransaction(transaction);
      r := archived;
    }

    /** Get(QueryOptions): the generic listing. */
    method GetAll(options: QueryOptions?) returns (r: Result<seq<TodoItem>, Failure>)
      requires Shared() && readRepository.Typed()
      modifies writeRepository`log, options
      ensures r == Listing(writeRepository.table, ItemSchema, old(OptionsOf(options)))
      ensures options != null ==> options.Value() == WrittenBack(old(options.Value()))
      ensures writeRepository.log == old(writeRepository.log) + [Call.GetAll]
    {
      r := readRepository.base.GetAll(options);
    }

    /** Get(TodoItemQueryOptions): the listing with the item filters. */
    method GetAllItems(options: ItemQueryOptions?) returns (r: Result<seq<TodoItem>, Failure>)
      requires Shared() && readRepository.Typed()
      modifies writeRepository`log, if options == null then {} else {options.query}
      ensures r == ItemListing(writeRepository.table, ItemSchema, old(ItemOptionsValue(options)))
      ensures options != null ==> options.query.Value() == WrittenBack(old(options.query.Value()))
      ensures writeRepository.log == old(writeRepository.log) + [Call.GetAll]
    {
      r := readRepository.GetAll(options);
    }

    /** Get(id, includeArchived). */
    method Get(id: int, includeArchived: bool) returns (r: Option<TodoItem>)
      requires Shared()
      modifies writeRepository`log
      ensures r == Find(writeRepository.table, id, includeArchived)
      ensures writeRepository.log == old(writeRepository.log) + [Call.Get(id, includeArchived)]
    {
      r := readRepository.base.Get(id, includeArchived);
    }
  }
}
