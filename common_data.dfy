/**
 * The earlier generic repository of todos.common. Add, Update, Archive, Get,
 * BeginDatabaseTransaction and Commit behave as in Todos.Utils, so this
 * repository delegates them to a Repository.ReadWriteRepository over the
 * same store. It differs in GetAll (a missing Offset counts as 1, and the
 * order is always ascending) and in CommitDatabaseTransaction, which
 * reports nothing. Its RepositoryTransaction is Transactions.RepositoryTransaction
 * without the Id.
 */
module CommonData {
  import opened Wrappers
  import opened Records
  import opened Sequences
  import opened Ordering
  import opened Queries
  import opened Transactions
  import opened Repository

  /** The offset pagination uses here: a missing Offset counts as 1. */
  function LegacyOffset(o: Options): nat
  {
    if o.offset.Some? then o.offset.value else 1
  }

  function LegacyWindow<T>(table: seq<T>, o: Options): seq<T>
  {
    if o.limit.Some? then Page(table, LegacyOffset(o), o.limit.value) else table
  }

  /** GetAll(options): paginate (default offset 1), order ascending by the
      named property whatever IsDescending says, then drop archived rows. */
  function LegacyListing<P(==)>(table: seq<Record<P>>, schema: Schema<P>, options: Option<Options>)
    : (r: Result<seq<Record<P>>, Failure>)
    ensures options.None? ==> r == Success(table)
    ensures r.Failure? <==> options.Some? && OrderRequested(options.value) &&
                            !HasProperty(schema, options.value.order.value)
    ensures r.Failure? ==> r.error == NoSuchProperty(options.value.order.value)
  {
    match options
    case None => Success(table)
    case Some(o) =>
      var paged := LegacyWindow(table, o);
      if OrderRequested(o) && !HasProperty(schema, o.order.value) then
        Failure(NoSuchProperty(o.order.value))
      else
        var ordered := if OrderRequested(o) then SortBy(paged, OrderKey(schema, o.order.value), false) else paged;
        Success(Unarchived(ordered, o.includeArchived))
  }

  /** The options as this GetAll leaves them: a missing Offset becomes 1 when Limit is set. */
  function LegacyWrittenBack(o: Options): (w: Options)
    ensures w.offset == (if o.limit.Some? && o.offset.None? then Some(1) else o.offset)
    ensures w.(offset := o.offset) == o
    ensures LegacyOffset(w) == LegacyOffset(o)
  {
    if o.limit.Some? && o.offset.None? then o.(offset := Some(1)) else o
  }

  /** The earlier listing is the later one with the offset defaulted to 1
      and the direction forced to ascending. */
  lemma LegacyListingAsListing<P>(table: seq<Record<P>>, schema: Schema<P>, o: Options)
    ensures LegacyListing(table, schema, Some(o)) ==
            Listing(table, schema, Some(o.(offset := Some(LegacyOffset(o)), isDescending := false)))
  {
    var o' := o.(offset := Some(LegacyOffset(o)), isDescending := false);
    assert LegacyWindow(table, o) == Window(table, o');
    assert OrderRequested(o) == OrderRequested(o');
  }

  /** With Limit set and no Offset, the first page is never listed: the
      window starts at row Limit. */
  lemma LegacyDefaultSkipsFirstPage<T>(table: seq<T>, o: Options)
    requires o.limit.Some? && o.offset.None?
    ensures |LegacyWindow(table, o)| == if 2 * o.limit.value <= |table| then o.limit.value
                                        else if o.limit.value <= |table| then |table| - o.limit.value
                                        else 0
    ensures forall i :: 0 <= i < |LegacyWindow(table, o)| ==> LegacyWindow(table, o)[i] == table[o.limit.value + i]
  {
  }

  /** IsDescending has no effect here. */
  lemma LegacyIgnoresDescending<P>(table: seq<Record<P>>, schema: Schema<P>, o: Options)
    ensures LegacyListing(table, schema, Some(o)) == LegacyListing(table, schema, Some(o.(isDescending := !o.isDescending)))
  {
  }

  /** Three active records, Limit 1 and no Offset: the later repository lists
      the first record, the earlier one the second. */
  lemma DefaultOffsetDiverges()
    ensures var table := [Record(1, 1, None, ()), Record(2, 1, None, ()), Record(3, 1, None, ())];
            var o := Options(Some(1), None, None, false, false);
            Listing(table, PlainSchema, Some(o)) == Success([table[0]]) &&
            LegacyListing(table, PlainSchema, Some(o)) == Success([table[1]])
  {
    var table := [Record(1, 1, None, ()), Record(2, 1, None, ()), Record(3, 1, None, ())];
    var o := Options(Some(1), None, None, false, false);
    assert Window(table, o) == [table[0]];
    assert LegacyWindow(table, o) == [table[1]];
    assert Unarchived([table[0]], false) == [table[0]];
    assert Unarchived([table[1]], false) == [table[1]];
  }

  /** Two active records with ids 2 and 1, ordered by Id descending: the later
      repository lists 2 then 1, the earlier one 1 then 2. */
  lemma DescendingDiverges()
    ensures var table := [Record(2, 1, None, ()), Record(1, 1, None, ())];
            var o := Options(None, None, Some("Id"), true, false);
            Listing(table, PlainSchema, Some(o)) == Success(table) &&
            LegacyListing(table, PlainSchema, Some(o)) == Success([table[1], table[0]])
  {
    var table := [Record(2, 1, None, ()), Record(1, 1, None, ())];
    var o := Options(None, None, Some("Id"), true, false);
    var key := OrderKey(PlainSchema, "Id");
    assert key(table[0]) == Num(2) && key(table[1]) == Num(1);
    assert Compare(Num(1), Num(2)) == -1 && Compare(Num(2), Num(1)) == 1;
    assert table[1..] == [table[1]];
    assert SortBy([table[1]], key, true) == [table[1]];
    assert Ordering.Insert(table[0], [table[1]], key, true) == table;
    assert SortBy([table[1]], key, false) == [table[1]];
    assert Ordering.Insert(table[0], [table[1]], key, false) == [table[1], table[0]];
    assert Unarchived(table, false) == table;
    assert Unarchived([table[1], table[0]], false) == [table[1], table[0]];
  }

  class LegacyRepository<P(==)> {
    /** The store and the operations shared with the later repository. */
    const store: ReadWriteRepository<P>

    constructor (store: ReadWriteRepository<P>)
      ensures this.store == store
    {
      this.store := store;
    }

    /** Stamps CreatedAt and stages an insert, as the later Add does. */
    method Add(record: Record<P>, now: Time) returns (r: Record<P>)
      modifies store`staged, store`log
      ensures r == record.(createdAt := now)
      ensures store.staged == old(store.staged) + [Insert(r)]
      ensures store.log == old(store.log) + [Call.Add]
    {
      r := store.Add(record, now);
    }

    /** Stages an update of the record as given, as the later Update does. */
    method Update(record: Record<P>) returns (r: Record<P>)
      modifies store`staged, store`log
      ensures r == record
      ensures store.staged == old(store.staged) + [Modify(record)]
      ensures store.log == old(store.log) + [Call.Update]
    {
      r := store.Update(record);
    }

    /** Stamps ArchivedAt on the un-archived record with that id, as the later Archive does. */
    method Archive(id: int, now: Time) returns (r: Result<Record<P>, Failure>)
      modifies store`staged, store`log
      ensures store.log == old(store.log) + [Call.Archive(id)]
      ensures Find(store.table, id, false).None? ==>
                r == Failure(ArchiveTargetMissing(id)) && store.staged == old(store.staged)
      ensures Find(store.table, id, false).Some? ==>
                r == Success(Find(store.table, id, false).value.(archivedAt := Some(now))) &&
                store.staged == old(store.staged) + [Modify(r.value)]
    {
      r := store.Archive(id, now);
    }

    method Get(id: int, includeArchived: bool) returns (r: Option<Record<P>>)
      modifies store`log
      ensures r == Find(store.table, id, includeArchived)
      ensures store.log == old(store.log) + [Call.Get(id, includeArchived)]
    {
      r := store.Get(id, includeArchived);
    }

    /** A top-level handle on a new transaction when none is current,
        otherwise a non-owning handle on the current one. */
    method BeginDatabaseTransaction() returns (t: RepositoryTransaction)
      modifies store`log, store.database
      ensures fresh(t)
      ensures t.isTopLevel <==> old(store.database.Current()) == null
      ensures old(store.database.Current()) == null ==>
                fresh(t.transaction) && store.database.begun == old(store.database.begun) + 1
      ensures old(store.database.Current()) != null ==>
                t.transaction == old(store.database.Current()) &&
                store.database.slot == old(store.database.slot) &&
                store.database.begun == old(store.database.begun)
      ensures store.database.Current() == t.transaction
      ensures store.log == old(store.log) + [Call.BeginDatabaseTransaction]
    {
      t := store.BeginDatabaseTransaction();
    }

    /** SaveChanges: writes every staged change to the table and answers how many there were. */
    method Commit() returns (count: nat)
      modifies store`table, store`staged, store`log
      ensures store.table == Flush(old(store.table), old(store.staged))
      ensures store.staged == []
      ensures count == |old(store.staged)|
      ensures store.log == old(store.log) + [Call.Commit]
    {
      count := store.Commit();
    }

    /** GetAll: writes a default Offset of 1 back into the options when Limit
        is set and Offset is not. */
    method GetAll(options: QueryOptions?) returns (r: Result<seq<Record<P>>, Failure>)
      modifies store`log, options
      ensures r == LegacyListing(store.table, store.schema, old(OptionsOf(options)))
      ensures options != null ==> options.Value() == LegacyWrittenBack(old(options.Value()))
      ensures store.log == old(store.log) + [Call.GetAll]
    {
      store.log := store.log + [Call.GetAll];
      var query := store.table;
      if options != null {
        if options.limit.Some? {
          if options.offset.None? {
            options.offset := Some(1);
          }
          query := Take(Skip(query, options.offset.value * options.limit.value), options.limit.value);
        }
        if options.order.Some? && options.order.value != "" {
          if !HasProperty(store.schema, options.order.value) {
            return Failure(NoSuchProperty(options.order.value));
          }
          query := SortBy(query, OrderKey(store.schema, options.order.value), false);
        }
        query := Where(query, Visible(options.includeArchived));
      }
      r := Success(query);
    }

    /** Commits through the handle and reports nothing. */
    method CommitDatabaseTransaction(t: RepositoryTransaction)
      modifies store`log, t.transaction
      ensures t.transaction.commits == old(t.transaction.commits) + (if t.isTopLevel then 1 else 0)
      ensures t.transaction.disposals == old(t.transaction.disposals)
      ensures store.log == old(store.log) + [Call.CommitDatabaseTransaction]
    {
      store.log := store.log + [Call.CommitDatabaseTransaction];
      var _ := t.Commit();
    }
  }
}
