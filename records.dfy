/**
 * The record contract every persisted entity satisfies (an id, a creation
 * time and an optional archive time), the two entities built on it, and the
 * name-to-value table that stands in for ordering by a property name.
 */
module Records {
  import opened Wrappers

  /** A point in time as the clock reports it; only the order matters.
      0 is the default value of an unset timestamp. */
  type Time = nat

  const UnsetTime: Time := 0

  /** IDataRecord: Id, CreatedAt and ArchivedAt (absent = active), plus the
      entity's own fields. */
  datatype Record<P> = Record(id: int, createdAt: Time, archivedAt: Option<Time>, fields: P)

  /** The fields TodoItem adds to the record; `text` is its Label (`label` is a Dafny keyword). */
  datatype ItemFields = ItemFields(text: string, todoListId: int, completedAt: Option<Time>)

  /** The fields TodoList adds to the record; `text` is its Label. */
  datatype ListFields = ListFields(text: string)

  type TodoItem = Record<ItemFields>
  type TodoList = Record<ListFields>

  /** A fresh entity as `new T { ... }` builds it: every record field at its default. */
  function NewRecord<P>(fields: P): Record<P>
  {
    Record(0, UnsetTime, None, fields)
  }

  /** The failures the core raises; each stands for one thrown exception. */
  datatype Failure =
    | ArgumentNull                  // a null request
    | NotFound(id: int)             // "<Entity> with id <id> not found"
    | ValidationFailed(message: string)  // the failing rule messages joined with ", "
    | ArchiveTargetMissing(id: int) // "un-archived entity ... not found during archive"
    | NoSuchProperty(name: string)  // "entity ... does not have property <name>"

  /** The value of one property, as the ordering compares it. */
  datatype Key = Null | Num(n: int) | Text(s: string)

  function TimeKey(t: Option<Time>): Key
  {
    match t
    case None => Null
    case Some(v) => Num(v)
  }

  /** What reflection knows of an entity type: the names of the sortable
      properties it adds, and how to read one of them. */
  datatype Schema<!P> = Schema(properties: set<string>, key: (P, string) -> Key)

  const RecordProperties: set<string> := {"Id", "CreatedAt", "ArchivedAt"}

  /** typeof(T).GetProperty(name) != null */
  predicate HasProperty<P>(schema: Schema<P>, name: string)
  {
    name in RecordProperties || name in schema.properties
  }

  /** The value of the named property of a record. */
  function KeyOf<P>(schema: Schema<P>, r: Record<P>, name: string): Key
  {
    if name == "Id" then Num(r.id)
    else if name == "CreatedAt" then Num(r.createdAt)
    else if name == "ArchivedAt" then TimeKey(r.archivedAt)
    else schema.key(r.fields, name)
  }

  const ItemSchema: Schema<ItemFields> :=
    Schema({"TodoListId", "Label", "CompletedAt"},
           (f: ItemFields, name: string) =>
             if name == "TodoListId" then Num(f.todoListId)
             else if name == "Label" then Text(f.text)
             else if name == "CompletedAt" then TimeKey(f.completedAt)
             else Null)

  const ListSchema: Schema<ListFields> :=
    Schema({"Label"}, (f: ListFields, name: string) => if name == "Label" then Text(f.text) else Null)

  /** A record type with no fields beyond the contract. */
  const PlainSchema: Schema<()> := Schema({}, (f: (), name: string) => Null)
}
