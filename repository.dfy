/**
 * The generic read/write repository of Todos.Utils over one entity type: a
 * table in store order, the changes staged in the context and not yet saved,
 * the database's transaction slot, and a ghost log of the calls it receives.
 */
module Repository {
  import opened Wrappers
  import opened Records
  import opened Sequences
  import opened Ordering
  import opened Queries
  import opened Transactions

  /** The calls a repository receives, in the order it receives them. */
  datatype Call =
    | BeginDatabaseTransaction
    | Add
    | Update
    | Archive(id: int)
    | Get(id: int, includeArchived: bool)
    | GetAll
    | GetByLabel(text: string)
    | Commit
    | CommitDatabaseTransaction

  /** A change staged in the context: an insert (DbSet.Add) or an update (DbSet.Update). */
  datatype Change<P> = Insert(record: Record<P>) | Modify(record: Record<P>)

  /** Every row carrying r's id takes r's values. */
  function Replace<P>(table: seq<Record<P>>, r: Record<P>): (t: seq<Record<P>>)
    ensures |t| == |table|
    ensures forall i :: 0 <= i < |t| ==> t[i] == if table[i].id == r.id then r else table[i]
  {
    if table == [] then []
    else [if table[0].id == r.id then r else table[0]] + Replace(table[1..], r)
  }

  function Apply<P>(table: seq<Record<P>>, change: Change<P>): seq<Record<P>>
  {
    match change
    case Insert(r) => table + [r]
    case Modify(r) => Replace(table, r)
  }

  /** SaveChanges: the staged changes written to the table in the order they were staged. */
  function Flush<P>(table: seq<Record<P>>, changes: seq<Change<P>>): seq<Record<P>>
    decreases |changes|
  {
    if changes == [] then table else Flush(Apply(table, changes[0]), changes[1..])
  }

  /** Saving a + b is saving a, then b. */
  lemma {:induction false} FlushConcat<P>(table: seq<Record<P>>, a: seq<Change<P>>, b: seq<Change<P>>)
    ensures Flush(table, a + b) == Flush(Flush(table, a), b)
    decreases |a|
  {
    if a != [] {
      assert (a + b)[0] == a[0] && (a + b)[1..] == a[1..] + b;
      FlushConcat(Apply(table, a[0]), a[1..], b);
    } else {
      assert a + b == b;
    }
  }

  /** Once an archive stamp is saved, Get(id, false) finds nothing under that
      id and Get(id, true) finds the stamped record, so a second Archive(id)
      fails instead of stamping again. */
  lemma ArchiveIsTerminal<P>(table: seq<Record<P>>, id: int, now: Time)
    requires Find(table, id, false).Some?
    ensures var stamped := Find(table, id, false).value.(archivedAt := Some(now));
            var saved := Flush(table, [Modify(stamped)]);
            Find(saved, id, false).None? && Find(saved, id, true) == Some(stamped)
  {
    var found := Find(table, id, false).value;
    var stamped := found.(archivedAt := Some(now));
    var saved := Replace(table, stamped);
    assert Flush(table, [Modify(stamped)]) == saved;
    assert found.id == id;
    assert forall i :: 0 <= i < |saved| && saved[i].id == id ==> saved[i] == stamped;
    var again := Find(saved, id, true);
    var k :| 0 <= k < |table| && table[k] == found;
    assert saved[k] == stamped;
    assert again.Some?;
    assert again.value.id == id;
  }

  /** No two rows share an id. */
  ghost predicate DistinctIds<P>(table: seq<Record<P>>)
  {
    forall i, j :: 0 <= i < j < |table| ==> table[i].id != table[j].id
  }

  /** Saving one change applies it. */
  lemma FlushOne<P>(table: seq<Record<P>>, c: Change<P>)
    ensures Flush(table, [c]) == Apply(table, c)
  {
    assert [c][1..] == [];
  }

  /** Saving an update keeps ids distinct, since the updated rows keep their id. */
  lemma ModifyKeepsIds<P>(table: seq<Record<P>>, r: Record<P>)
    requires DistinctIds(table)
    ensures DistinctIds(Flush(table, [Modify(r)]))
  {
    FlushOne(table, Modify(r));
    assert Flush(table, [Modify(r)]) == Replace(table, r);
  }

  /** The options object a caller passes to GetAll; GetAll may write Offset back. */
  class QueryOptions {
    var limit: Option<nat>
    var offset: Option<nat>
    var order: Option<string>
    var isDescending: bool
    var includeArchived: bool

    constructor (o: Options)
      ensures Value() == o
    {
      limit, offset, order := o.limit, o.offset, o.order;
      isDescending, includeArchived := o.isDescending, o.includeArchived;
    }

    function Value(): Options
      reads this
    {
      Options(limit, offset, order, isDescending, includeArchived)
    }
  }

  /** The options as GetAll leaves them: a missing Offset becomes 0 when Limit is set. */
  function WrittenBack(o: Options): (w: Options)
    ensures w.offset == (if o.limit.Some? && o.offset.None? then Some(0) else o.offset)
    ensures w.(offset := o.offset) == o
    ensures EffectiveOffset(w) == EffectiveOffset(o)
  {
    if o.limit.Some? && o.offset.None? then o.(offset := Some(0)) else o
  }

  function OptionsOf(options: QueryOptions?): Option<Options>
    reads options
  {
    if options == null then None else Some(options.Value())
  }

  class ReadWriteRepository<P(==)> {
    const schema: Schema<P>
    const database: Database
    /** The rows saved in the store, in store order. */
    var table: seq<Record<P>>
    /** Changes staged in the context, not yet saved. */
    var staged: seq<Change<P>>
    ghost var log: seq<Call>

    constructor (schema: Schema<P>, database: Database, table: seq<Record<P>>)
      ensures this.schema == schema && this.database == database && this.table == table
      ensures staged == [] && log == []
    {
      this.schema := schema;
      this.database := database;
      this.table := table;
      staged := [];
      log := [];
    }

    /** Stamps CreatedAt and stages an insert; nothing is saved yet. */
    method Add(record: Record<P>, now: Time) returns (r: Record<P>)
      modifies this`staged, this`log
      ensures r == record.(createdAt := now)
      ensures staged == old(staged) + [Insert(r)]
      ensures log == old(log) + [Call.Add]
    {
      r := record.(createdAt := now);
      staged := staged + [Insert(r)];
      log := log + [Call.Add];
    }

    /** Stages an update of the record as given; nothing is saved yet. */
    method Update(record: Record<P>) returns (r: Record<P>)
      modifies this`staged, this`log
      ensures r == record
      ensures staged == old(staged) + [Modify(record)]
      ensures log == old(log) + [Call.Update]
    {
      staged := staged + [Modify(record)];
      log := log + [Call.Update];
      r := record;
    }

    /** Stamps ArchivedAt on the un-archived record with that id and stages
        the update; fails when there is none. */
    method Archive(id: int, now: Time) returns (r: Result<Record<P>, Failure>)
      modifies this`staged, this`log
      ensures log == old(log) + [Call.Archive(id)]
      ensures Find(table, id, false).None? ==> r == Failure(ArchiveTargetMissing(id)) && staged == old(staged)
      ensures Find(table, id, false).Some? ==>
                r == Success(Find(table, id, false).value.(archivedAt := Some(now))) &&
                staged == old(staged) + [Modify(r.value)]
    {
      log := log + [Call.Archive(id)];
      var entity := Find(table, id, false);
      if entity.None? {
        return Failure(ArchiveTargetMissing(id));
      }
      var stamped := entity.value.(archivedAt := Some(now));
      staged := staged + [Modify(stamped)];
      r := Success(stamped);
    }

    method Get(id: int, includeArchived: bool) returns (r: Option<Record<P>>)
      modifies this`log
      ensures r == Find(table, id, includeArchived)
      ensures log == old(log) + [Call.Get(id, includeArchived)]
    {
      log := log + [Call.Get(id, includeArchived)];
      r := Find(table, id, includeArchived);
    }

    /** Builds the listing step by step; writes a default Offset of 0 back
        into the options when Limit is set and Offset is not. */
    method GetAll(options: QueryOptions?) returns (r: Result<seq<Record<P>>, Failure>)
      modifies this`log, options
      ensures r == Listing(table, schema, old(OptionsOf(options)))
      ensures options != null ==> options.Value() == WrittenBack(old(options.Value()))
      ensures log == old(log) + [Call.GetAll]
    {
      log := log + [Call.GetAll];
      var query := table;
      if options != null {
        if options.limit.Some? {
          if options.offset.None? {
            options.offset := Some(0);
          }
          query := Take(Skip(query, options.offset.value * options.limit.value), options.limit.value);
        }
        if options.order.Some? && options.order.value != "" {
          if !HasProperty(schema, options.order.value) {
            return Failure(NoSuchProperty(options.order.value));
          }
          query := SortBy(query, OrderKey(schema, options.order.value), options.isDescending);
        }
        query := Where(query, Visible(options.includeArchived));
      }
      r := Success(query);
    }

    /** Returns a top-level handle on a new transaction when none is current,
        and otherwise a non-owning handle on the current one. */
    method BeginDatabaseTransaction() returns (t: RepositoryTransaction)
      modifies this`log, database
      ensures fresh(t)
      ensures t.isTopLevel <==> old(database.Current()) == null
      ensures old(database.Current()) == null ==>
                fresh(t.transaction) && database.begun == old(database.begun) + 1
      ensures old(database.Current()) != null ==>
                t.transaction == old(database.Current()) &&
                database.slot == old(database.slot) && database.begun == old(database.begun)
      ensures database.Current() == t.transaction
      ensures log == old(log) + [Call.BeginDatabaseTransaction]
    {
      log := log + [Call.BeginDatabaseTransaction];
      var current := database.Current();
      if current == null {
        var begun := database.BeginTransaction();
        t := new RepositoryTransaction(begun, true);
      } else {
        t := new RepositoryTransaction(current, false);
      }
    }

    /** The handle's Commit: true exactly when the handle is top-level. */
    method CommitDatabaseTransaction(t: RepositoryTransaction) returns (committed: bool)
      modifies this`log, t.transaction
      ensures committed == t.isTopLevel
      ensures t.transaction.commits == old(t.transaction.commits) + (if t.isTopLevel then 1 else 0)
      ensures t.transaction.disposals == old(t.transaction.disposals)
      ensures log == old(log) + [Call.CommitDatabaseTransaction]
    {
      log := log + [Call.CommitDatabaseTransaction];
      committed := t.Commit();
    }

    /** SaveChanges: writes every staged change to the table and answers how many there were. */
    method Commit() returns (count: nat)
      modifies this`table, this`staged, this`log
      ensures table == Flush(old(table), old(staged))
      ensures staged == []
      ensures count == |old(staged)|
      ensures log == old(log) + [Call.Commit]
    {
      log := log + [Call.Commit];
      count := |staged|;
      table := Flush(table, staged);
      staged := [];
    }
  }
}
