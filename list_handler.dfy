/**
 * TodoListHandler: Create, Update and Archive of lists, each inside a
 * database transaction and guarded by one validator rule set, plus the reads.
 */
module ListHandling {
  import opened Wrappers
  import opened Records
  import opened Sequences
  import opened Queries
  import opened Transactions
  import opened Repository
  import opened ListRepository
  import opened Validation
  import opened ListValidation

  datatype TodoListRequest = TodoListRequest(text: string)

  /** The list as Update(TodoListRequest) edits it: only the label changes. */
  function Relabelled(list: TodoList, text: string): (r: TodoList)
    ensures r.fields.text == text
    ensures r.id == list.id && r.createdAt == list.createdAt && r.archivedAt == list.archivedAt
  {
    list.(fields := list.fields.(text := text))
  }

  /** Saving a new list whose label no list carries keeps labels unique:
      what Create saves once its CREATE rules pass on a context with nothing staged. */
  lemma CreateKeepsLabelsUnique(table: seq<TodoList>, created: TodoList)
    requires LabelsUnique(table) && !LabelInUse(table, created.fields.text)
    ensures LabelsUnique(Flush(table, [Insert(created)]))
  {
    assert LabelsUnique(Apply(table, Insert(created)));
    FlushOne(table, Insert(created));
  }

  /** With distinct ids, replacing the row of an edit whose label no other
      row carries keeps labels unique. */
  lemma ReplaceKeepsLabelsUnique(table: seq<TodoList>, edited: TodoList)
    requires LabelsUnique(table) && DistinctIds(table)
    requires forall i :: 0 <= i < |table| && table[i].id != edited.id ==> table[i].fields.text != edited.fields.text
    ensures LabelsUnique(Replace(table, edited))
  {
    var saved := Replace(table, edited);
    forall i, j | 0 <= i < j < |saved| ensures saved[i].fields.text != saved[j].fields.text {
      assert table[i].id != table[j].id;
    }
  }

  /** With distinct ids, saving an edit whose label no other row carries
      keeps labels unique. */
  lemma ModifyKeepsLabelsUnique(table: seq<TodoList>, edited: TodoList)
    requires LabelsUnique(table) && DistinctIds(table)
    requires forall i :: 0 <= i < |table| && table[i].id != edited.id ==> table[i].fields.text != edited.fields.text
    ensures LabelsUnique(Flush(table, [Modify(edited)]))
  {
    ReplaceKeepsLabelsUnique(table, edited);
    FlushOne(table, Modify(edited));
  }

  /** An edit of the active list with id that keeps its label keeps labels
      unique and ids distinct. */
  lemma SameLabelKeepsLabelsUnique(table: seq<TodoList>, id: int, edited: TodoList)
    requires LabelsUnique(table) && DistinctIds(table) && IsActive(table, id)
    requires edited.id == id && edited.fields.text == Find(table, id, false).value.fields.text
    ensures LabelsUnique(Flush(table, [Modify(edited)])) && DistinctIds(Flush(table, [Modify(edited)]))
  {
    assert NotArchived(table, id);
    var found := Find(table, id, false).value;
    var k :| 0 <= k < |table| && table[k] == found && found.id == id;
    forall i | 0 <= i < |table| && table[i].id != edited.id ensures table[i].fields.text != edited.fields.text {
      assert i != k;
    }
    ModifyKeepsLabelsUnique(table, edited);
    ModifyKeepsIds(table, edited);
  }

  /** Update(request, id) saves a relabelled list only when no list carries the
      new label, so labels stay unique. */
  lemma UpdateKeepsLabelsUnique(table: seq<TodoList>, id: int, text: string)
    requires LabelsUnique(table) && DistinctIds(table)
    requires IsActive(table, id) && !LabelInUse(table, text)
    ensures var edited := Relabelled(Find(table, id, false).value, text);
            LabelsUnique(Flush(table, [Modify(edited)])) && DistinctIds(Flush(table, [Modify(edited)]))
  {
    assert NotArchived(table, id);
    var edited := Relabelled(Find(table, id, false).value, text);
    ModifyKeepsLabelsUnique(table, edited);
    ModifyKeepsIds(table, edited);
  }

  /** Archive(id) stamps the active list and keeps its label, so labels stay unique. */
  lemma ArchiveKeepsLabelsUnique(table: seq<TodoList>, id: int, now: Time)
    requires LabelsUnique(table) && DistinctIds(table) && IsActive(table, id)
    ensures var archived := Find(table, id, false).value.(archivedAt := Some(now));
            LabelsUnique(Flush(table, [Modify(archived)])) && DistinctIds(Flush(table, [Modify(archived)]))
  {
    assert NotArchived(table, id);
    SameLabelKeepsLabelsUnique(table, id, Find(table, id, false).value.(archivedAt := Some(now)));
  }

  class TodoListHandler {
    const writeRepository: ReadWriteRepository<ListFields>
    const readRepository: TodoListRepository

    /** Both repositories work on one context. */
    ghost predicate Shared()
    {
      readRepository.base == writeRepository
    }

    constructor (writeRepository: ReadWriteRepository<ListFields>, readRepository: TodoListRepository)
      requires readRepository.base == writeRepository && readRepository.Typed()
      ensures this.writeRepository == writeRepository && this.readRepository == readRepository
      ensures Shared() && readRepository.Typed()
    {
      this.writeRepository := writeRepository;
      this.readRepository := readRepository;
    }

    /** Create: a new list with the request's label, saved when the label is not in use. */
    method Create(req: Option<TodoListRequest>, now: Time) returns (r: Result<TodoList, Failure>)
      requires Shared()
      modifies writeRepository, writeRepository.database, writeRepository.database.slot
      ensures req.None? ==> r == Failure(ArgumentNull)
      ensures req.None? ==> unchanged(writeRepository) && unchanged(writeRepository.database)
      ensures req.Some? ==> Settled(writeRepository.database, r.Success?)
      ensures req.Some? && LabelInUse(old(writeRepository.table), req.value.text) ==>
                r == Failure(ValidationFailed(LabelNotUnique)) &&
                writeRepository.table == old(writeRepository.table) &&
                writeRepository.staged == old(writeRepository.staged) &&
                writeRepository.log == old(writeRepository.log) + [Call.BeginDatabaseTransaction]
      ensures req.Some? && !LabelInUse(old(writeRepository.table), req.value.text) ==>
                r == Success(Record(0, now, None, ListFields(req.value.text))) &&
                writeRepository.table == Flush(old(writeRepository.table), old(writeRepository.staged) + [Insert(r.value)]) &&
                writeRepository.staged == [] &&
                writeRepository.log == old(writeRepository.log) +
                  [Call.BeginDatabaseTransaction] + [Call.Add] + [Call.Commit] + [Call.CommitDatabaseTransaction]
    {
      if req.None? {
        return Failure(ArgumentNull);
      }
      var transaction := writeRepository.BeginDatabaseTransaction();
      var list := NewRecord(ListFields(req.value.text));
      var errors := Validate(writeRepository.table, list, Some(RuleSet.Create));
      if errors != [] {
        return Failure(ValidationFailed(Join(errors, ", ")));
      }
      list := writeRepository.Add(list, now);
      var _ := writeRepository.Commit();
      var _ := writeRepository.CommitDatabaseTransaction(transaction);
      r := Success(list);
    }

    /** Update(TodoListRequest, id): relabels the active list with that id;
        rejected when the new label is in use, its own current label included. */
    method Update(req: Option<TodoListRequest>, id: int) returns (r: Result<TodoList, Failure>)
      requires Shared()
      modifies writeRepository, writeRepository.database, writeRepository.database.slot
      ensures req.None? ==> r == Failure(ArgumentNull)
      ensures req.None? ==> unchanged(writeRepository) && unchanged(writeRepository.database)
      ensures req.Some? ==> Settled(writeRepository.database, r.Success?)
      ensures req.Some? && !IsActive(old(writeRepository.table), id) ==>
                r == Failure(NotFound(id)) &&
                writeRepository.table == old(writeRepository.table) &&
                writeRepository.staged == old(writeRepository.staged) &&
                writeRepository.log == old(writeRepository.log) + [Call.BeginDatabaseTransaction] + [Call.Get(id, false)]
      ensures req.Some? && IsActive(old(writeRepository.table), id) ==>
                var edited := Relabelled(Find(old(writeRepository.table), id, false).value, req.value.text);
                if LabelInUse(old(writeRepository.table), req.value.text) then
                  r == Failure(ValidationFailed(LabelNotUnique)) &&
                  writeRepository.table == old(writeRepository.table) &&
                  writeRepository.staged == old(writeRepository.staged) &&
                  writeRepository.log == old(writeRepository.log) + [Call.BeginDatabaseTransaction] + [Call.Get(id, false)]
                else
                  r == Success(edited) &&
                  writeRepository.table == Flush(old(writeRepository.table), old(writeRepository.staged) + [Modify(edited)]) &&
                  writeRepository.staged == [] &&
                  writeRepository.log == old(writeRepository.log) +
                    [Call.BeginDatabaseTransaction] + [Call.Get(id, false)] + [Call.Update] + [Call.Commit] + [Call.CommitDatabaseTransaction]
    {
      if req.None? {
        return Failure(ArgumentNull);
      }
      var transaction := writeRepository.BeginDatabaseTransaction();
      var list := readRepository.base.Get(id, false);
      assert list.Some? <==> IsActive(writeRepository.table, id) by {
        assert NotArchived(writeRepository.table, id) == list.Some?;
      }
      if list.None? {
        return Failure(NotFound(id));
      }
      r := Relabel(list.value, req.value.text, transaction);
    }

    /** The rest of Update(TodoListRequest, id) once the active list is found:
        validate the relabelled list under UPDATE, then stage, save and
        commit it. */
    method Relabel(found: TodoList, text: string, transaction: RepositoryTransaction) returns (r: Result<TodoList, Failure>)
      requires IsActive(writeRepository.table, found.id)
      modifies writeRepository`table, writeRepository`staged, writeRepository`log, transaction.transaction
      ensures LabelInUse(old(writeRepository.table), text) ==>
                r == Failure(ValidationFailed(LabelNotUnique)) &&
                writeRepository.table == old(writeRepository.table) &&
                writeRepository.staged == old(writeRepository.staged) &&
                writeRepository.log == old(writeRepository.log)
      ensures !LabelInUse(old(writeRepository.table), text) ==>
                r == Success(Relabelled(found, text)) &&
                writeRepository.table == Flush(old(writeRepository.table), old(writeRepository.staged) + [Modify(r.value)]) &&
                writeRepository.staged == [] &&
                writeRepository.log == old(writeRepository.log) + [Call.Update] + [Call.Commit] + [Call.CommitDatabaseTransaction]
      ensures transaction.transaction.commits ==
                old(transaction.transaction.commits) + (if r.Success? && transaction.isTopLevel then 1 else 0)
      ensures transaction.transaction.disposals == old(transaction.transaction.disposals)
    {
      var edited := Relabelled(found, text);
      var errors := Validate(writeRepository.table, edited, Some(RuleSet.Update));
      if errors != [] {
        return Failure(ValidationFailed(Join(errors, ", ")));
      }
      edited := writeRepository.Update(edited);
      var _ := writeRepository.Commit();
      var _ := writeRepository.CommitDatabaseTransaction(transaction);
      r := Success(edited);
    }

    /** Archive(id): stamps ArchivedAt on the active list with that id. */
    method Archive(id: int, now: Time) returns (r: Result<TodoList, Failure>)
      requires Shared()
      modifies writeRepository, writeRepository.database, writeRepository.database.slot
      ensures Settled(writeRepository.database, r.Success?)
      ensures Find(old(writeRepository.table), id, true).None? ==>
                r == Failure(NotFound(id)) &&
                writeRepository.table == old(writeRepository.table) &&
                writeRepository.staged == old(writeRepository.staged) &&
                writeRepository.log == old(writeRepository.log) + [Call.BeginDatabaseTransaction] + [Call.Get(id, true)]
      ensures Find(old(writeRepository.table), id, true).Some? && !IsActive(old(writeRepository.table), id) ==>
                r == Failure(ValidationFailed(NotActive)) &&
                writeRepository.table == old(writeRepository.table) &&
                writeRepository.staged == old(writeRepository.staged) &&
                writeRepository.log == old(writeRepository.log) + [Call.BeginDatabaseTransaction] + [Call.Get(id, true)]
      ensures IsActive(old(writeRepository.table), id) ==>
                r == Success(Find(old(writeRepository.table), id, false).value.(archivedAt := Some(now))) &&
                writeRepository.table == Flush(old(writeRepository.table), old(writeRepository.staged) + [Modify(r.value)]) &&
                writeRepository.staged == [] &&
                writeRepository.log == old(writeRepository.log) +
                  [Call.BeginDatabaseTransaction] + [Call.Get(id, true)] + [Call.Archive(id)] + [Call.Commit] + [Call.CommitDatabaseTransaction]
    {
      var transaction := writeRepository.BeginDatabaseTransaction();
      var list := readRepository.base.Get(id, true);
      if list.None? {
        return Failure(NotFound(id));
      }
      r := ArchiveFound(list.value, now, transaction);
    }

    /** The rest of Archive(id) once a list with that id is found, archived
        or not: validate it under ARCHIVE, then stamp, save and commit it. */
    method ArchiveFound(found: TodoList, now: Time, transaction: RepositoryTransaction) returns (r: Result<TodoList, Failure>)
      modifies writeRepository`table, writeRepository`staged, writeRepository`log, transaction.transaction
      ensures !IsActive(old(writeRepository.table), found.id) ==>
                r == Failure(ValidationFailed(NotActive)) &&
                writeRepository.table == old(writeRepository.table) &&
                writeRepository.staged == old(writeRepository.staged) &&
                writeRepository.log == old(writeRepository.log)
      ensures IsActive(old(writeRepository.table), found.id) ==>
                r == Success(Find(old(writeRepository.table), found.id, false).value.(archivedAt := Some(now))) &&
                writeRepository.table == Flush(old(writeRepository.table), old(writeRepository.staged) + [Modify(r.value)]) &&
                writeRepository.staged == [] &&
                writeRepository.log == old(writeRepository.log) +
                  [Call.Archive(found.id)] + [Call.Commit] + [Call.CommitDatabaseTransaction]
      ensures transaction.transaction.commits ==
                old(transaction.transaction.commits) + (if r.Success? && transaction.isTopLevel then 1 else 0)
      ensures transaction.transaction.disposals == old(transaction.transaction.disposals)
    {
      var errors := Validate(writeRepository.table, found, Some(RuleSet.Archive));
      assert errors == Check(NotArchived(writeRepository.table, found.id), NotActive);
      if errors != [] {
        return Failure(ValidationFailed(Join(errors, ", ")));
      }
      var archived := writeRepository.Archive(found.id, now);
      assert archived.Success?;
      var _ := writeRepository.Commit();
      var _ := writeRepository.CommitDatabaseTransaction(transaction);
      r := archived;
    }

    /** Get(QueryOptions): the generic listing. */
    method GetAll(options: QueryOptions?) returns (r: Result<seq<TodoList>, Failure>)
      requires Shared() && readRepository.Typed()
      modifies writeRepository`log, options
      ensures r == Listing(writeRepository.table, ListSchema, old(OptionsOf(options)))
      ensures options != null ==> options.Value() == WrittenBack(old(options.Value()))
      ensures writeRepository.log == old(writeRepository.log) + [Call.GetAll]
    {
      r := readRepository.base.GetAll(options);
    }

    /** Get(id, includeArchived). */
    method Get(id: int, includeArchived: bool) returns (r: Option<TodoList>)
      requires Shared()
      modifies writeRepository`log
      ensures r == Find(writeRepository.table, id, includeArchived)
      ensures writeRepository.log == old(writeRepository.log) + [Call.Get(id, includeArchived)]
    {
      r := readRepository.base.Get(id, includeArchived);
    }
  }
}
