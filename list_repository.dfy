/**
 * TodoListRepository: the generic repository over lists, plus the label
 * lookup its read interface declares. The lookup is given the same meaning
 * as the item repository's: every stored list, archived or not, first exact
 * label match.
 */
module ListRepository {
  import opened Wrappers
  import opened Records
  import opened Sequences
  import opened Queries
  import opened Repository

  function ListLabelIs(text: string): TodoList -> bool
  {
    (x: TodoList) => x.fields.text == text
  }

  /** Get(label): first stored list with exactly that label, or none. */
  function ListByLabel(table: seq<TodoList>, text: string): (r: Option<TodoList>)
    ensures r.None? <==> forall i :: 0 <= i < |table| ==> table[i].fields.text != text
    ensures r.Some? ==> exists i :: 0 <= i < |table| && table[i] == r.value && r.value.fields.text == text &&
                          forall j :: 0 <= j < i ==> table[j].fields.text != text
  {
    First(Listing(table, ListSchema, None).value, ListLabelIs(text))
  }

  class TodoListRepository {
    /** The generic repository this one is. */
    const base: ReadWriteRepository<ListFields>

    /** The generic repository works on TodoList's properties. */
    ghost predicate Typed()
    {
      base.schema == ListSchema
    }

    constructor (base: ReadWriteRepository<ListFields>)
      requires base.schema == ListSchema
      ensures this.base == base && Typed()
    {
      this.base := base;
    }

    method Get(text: string) returns (r: Option<TodoList>)
      modifies base`log
      ensures r == ListByLabel(base.table, text)
      ensures base.log == old(base.log) + [Call.GetByLabel(text)]
    {
      base.log := base.log + [Call.GetByLabel(text)];
      r := First(base.table, ListLabelIs(text));
    }
  }
}
