/**
 * TodoItemRepository: the item filters composed after the generic GetAll
 * pipeline, and the lookup of an item by its label.
 */
module ItemRepository {
  import opened Wrappers
  import opened Records
  import opened Sequences
  import opened Queries
  import opened Repository

  /** TodoItemQueryOptions: the generic options plus the two item filters. */
  datatype ItemOptions = ItemOptions(query: Options, todoListId: Option<int>, completed: Option<bool>)

  function ListIs(todoListId: int): TodoItem -> bool
  {
    (x: TodoItem) => x.fields.todoListId == todoListId
  }

  function CompletionIs(isComplete: bool): TodoItem -> bool
  {
    (x: TodoItem) => if isComplete then x.fields.completedAt.Some? else x.fields.completedAt.None?
  }

  function LabelIs(text: string): TodoItem -> bool
  {
    (x: TodoItem) => x.fields.text == text
  }

  function FilterByTodoListId(rows: seq<TodoItem>, todoListId: int): (r: seq<TodoItem>)
    ensures forall i :: 0 <= i < |r| ==> r[i].fields.todoListId == todoListId
    ensures forall i :: 0 <= i < |rows| && rows[i].fields.todoListId == todoListId ==> rows[i] in r
  {
    Where(rows, ListIs(todoListId))
  }

  function FilterByTodoCompleted(rows: seq<TodoItem>, isComplete: bool): (r: seq<TodoItem>)
    ensures forall i :: 0 <= i < |r| ==> r[i].fields.completedAt.Some? == isComplete
    ensures forall i :: 0 <= i < |rows| && rows[i].fields.completedAt.Some? == isComplete ==> rows[i] in r
  {
    Where(rows, CompletionIs(isComplete))
  }

  function FilterByLabel(rows: seq<TodoItem>, text: string): (r: seq<TodoItem>)
    ensures forall i :: 0 <= i < |r| ==> r[i].fields.text == text
    ensures forall i :: 0 <= i < |rows| && rows[i].fields.text == text ==> rows[i] in r
  {
    Where(rows, LabelIs(text))
  }

  function ItemOptionsOf(o: Option<ItemOptions>): Option<Options>
  {
    if o.None? then None else Some(o.value.query)
  }

  /** The item filters applied to a generic listing, list filter first. */
  function ItemFilters(rows: seq<TodoItem>, o: ItemOptions): seq<TodoItem>
  {
    var byList := if o.todoListId.Some? then FilterByTodoListId(rows, o.todoListId.value) else rows;
    if o.completed.Some? then FilterByTodoCompleted(byList, o.completed.value) else byList
  }

  /** GetAll(TodoItemQueryOptions): the generic listing, then the item filters. */
  function ItemListing(table: seq<TodoItem>, schema: Schema<ItemFields>, options: Option<ItemOptions>)
    : (r: Result<seq<TodoItem>, Failure>)
    ensures options.None? ==> r == Success(table)
    ensures r.Failure? <==> Listing(table, schema, ItemOptionsOf(options)).Failure?
    ensures r.Failure? ==> r == Listing(table, schema, ItemOptionsOf(options))
  {
    var listed := Listing(table, schema, ItemOptionsOf(options));
    if listed.Failure? || options.None? then listed
    else Success(ItemFilters(listed.value, options.value))
  }

  /** The item filters keep a subsequence of the generic listing, in its order;
      with neither filter set, the listing is unchanged. */
  lemma ItemListingRefinesListing(table: seq<TodoItem>, schema: Schema<ItemFields>, options: Option<ItemOptions>)
    requires ItemListing(table, schema, options).Success?
    ensures IsSubsequence(ItemListing(table, schema, options).value, Listing(table, schema, ItemOptionsOf(options)).value)
    ensures options.Some? && options.value.todoListId.None? && options.value.completed.None? ==>
              ItemListing(table, schema, options) == Listing(table, schema, ItemOptionsOf(options))
  {
    var listed := Listing(table, schema, ItemOptionsOf(options)).value;
    if options.None? {
      SubsequenceReflexive(listed);
    } else {
      var o := options.value;
      var byList := if o.todoListId.Some? then FilterByTodoListId(listed, o.todoListId.value) else listed;
      if o.todoListId.Some? {
        WhereIsSubsequence(listed, ListIs(o.todoListId.value));
      } else {
        SubsequenceReflexive(listed);
      }
      if o.completed.Some? {
        WhereIsSubsequence(byList, CompletionIs(o.completed.value));
        SubsequenceTransitive(ItemFilters(listed, o), byList, listed);
      }
    }
  }

  /** With TodoListId set every listed item belongs to that list; with
      Completed set every listed item has that completion state. */
  lemma ItemListingFilters(table: seq<TodoItem>, schema: Schema<ItemFields>, o: ItemOptions)
    requires ItemListing(table, schema, Some(o)).Success?
    ensures o.todoListId.Some? ==> forall x :: x in ItemListing(table, schema, Some(o)).value ==>
              x.fields.todoListId == o.todoListId.value
    ensures o.completed.Some? ==> forall x :: x in ItemListing(table, schema, Some(o)).value ==>
              x.fields.completedAt.Some? == o.completed.value
  {
    var listed := Listing(table, schema, Some(o.query)).value;
    var byList := if o.todoListId.Some? then FilterByTodoListId(listed, o.todoListId.value) else listed;
    var r := ItemFilters(listed, o);
    if o.todoListId.Some? && o.completed.Some? {
      forall x | x in r ensures x.fields.todoListId == o.todoListId.value {
        var i :| 0 <= i < |r| && r[i] == x;
        assert r[i] in byList;
      }
    }
  }

  /** The item filters drop nothing else: every row of the generic listing that
      matches the filters set is listed. */
  lemma ItemListingKeepsMatches(table: seq<TodoItem>, schema: Schema<ItemFields>, o: ItemOptions)
    requires ItemListing(table, schema, Some(o)).Success?
    ensures forall x ::
              (x in Listing(table, schema, Some(o.query)).value &&
               (o.todoListId.None? || x.fields.todoListId == o.todoListId.value) &&
               (o.completed.None? || x.fields.completedAt.Some? == o.completed.value)) ==>
              x in ItemListing(table, schema, Some(o)).value
  {
    var listed := Listing(table, schema, Some(o.query)).value;
    var byList := if o.todoListId.Some? then FilterByTodoListId(listed, o.todoListId.value) else listed;
    forall x | x in listed && (o.todoListId.None? || x.fields.todoListId == o.todoListId.value) &&
               (o.completed.None? || x.fields.completedAt.Some? == o.completed.value)
      ensures x in ItemFilters(listed, o)
    {
      var i :| 0 <= i < |listed| && listed[i] == x;
      assert x in byList;
      var j :| 0 <= j < |byList| && byList[j] == x;
    }
  }

  /** FirstOrDefault() over a Where is the first element satisfying the condition. */
  lemma {:induction false} FirstOfWhere<T>(s: seq<T>, p: T -> bool)
    ensures (var w := Where(s, p); if w == [] then None else Some(w[0])) == First(s, p)
  {
    if s != [] && !p(s[0]) {
      FirstOfWhere(s[1..], p);
    }
  }

  /** Get(label): GetAll(null), which is every stored item archived or not,
      filtered by the exact label, first match or null. */
  function ByLabel(table: seq<TodoItem>, text: string): (r: Option<TodoItem>)
    ensures r.None? <==> forall i :: 0 <= i < |table| ==> table[i].fields.text != text
    ensures r.Some? ==> exists i :: 0 <= i < |table| && table[i] == r.value && r.value.fields.text == text &&
                          forall j :: 0 <= j < i ==> table[j].fields.text != text
  {
    var matches := FilterByLabel(Listing(table, ItemSchema, None).value, text);
    FirstOfWhere(table, LabelIs(text));
    if matches == [] then None else Some(matches[0])
  }

  class ItemQueryOptions {
    /** The generic part of the options object. */
    const query: QueryOptions
    var todoListId: Option<int>
    var completed: Option<bool>

    constructor (o: ItemOptions)
      ensures fresh(query) && Value() == o
    {
      query := new QueryOptions(o.query);
      todoListId, completed := o.todoListId, o.completed;
    }

    function Value(): ItemOptions
      reads this, query
    {
      ItemOptions(query.Value(), todoListId, completed)
    }
  }

  function ItemOptionsValue(options: ItemQueryOptions?): Option<ItemOptions>
    reads options, if options == null then {} else {options.query}
  {
    if options == null then None else Some(options.Value())
  }

  class TodoItemRepository {
    /** The generic repository this one extends. */
    const base: ReadWriteRepository<ItemFields>

    /** The generic repository works on TodoItem's properties. */
    ghost predicate Typed()
    {
      base.schema == ItemSchema
    }

    constructor (base: ReadWriteRepository<ItemFields>)
      requires base.schema == ItemSchema
      ensures this.base == base && Typed()
    {
      this.base := base;
    }

    /** The generic GetAll, then the list and completion filters. */
    method GetAll(options: ItemQueryOptions?) returns (r: Result<seq<TodoItem>, Failure>)
      modifies base`log, if options == null then {} else {options.query}
      requires Typed()
      ensures r == ItemListing(base.table, ItemSchema, old(ItemOptionsValue(options)))
      ensures options != null ==> options.query.Value() == WrittenBack(old(options.query.Value()))
      ensures base.log == old(base.log) + [Call.GetAll]
    {
      var query := base.GetAll(if options == null then null else options.query);
      if query.Failure? || options == null {
        return query;
      }
      var rows := query.value;
      if options.todoListId.Some? {
        rows := FilterByTodoListId(rows, options.todoListId.value);
      }
      if options.completed.Some? {
        rows := FilterByTodoCompleted(rows, options.completed.value);
      }
      r := Success(rows);
    }

    /** Get(label): the first stored item with exactly that label, archived included. */
    method Get(text: string) returns (r: Option<TodoItem>)
      modifies base`log
      ensures r == ByLabel(base.table, text)
      ensures base.log == old(base.log) + [Call.GetByLabel(text)]
    {
      base.log := base.log + [Call.GetByLabel(text)];
      var all := Listing(base.table, ItemSchema, None).value;
      var matches := FilterByLabel(all, text);
      r := if matches == [] then None else Some(matches[0]);
    }
  }
}
