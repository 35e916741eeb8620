/**
 * TodoItemValidator: the unnamed label rule and the COMPLETE, CREATE,
 * UPDATE and ARCHIVE rule sets, each rule consulting the stored items
 * through the item repository's lookups.
 */
module ItemValidation {
  import opened Wrappers
  import opened Records
  import opened Queries
  import opened ItemRepository
  import opened Validation

  const LabelRequired := "each TodoItem must have a label"
  const LabelNotUnique := "each TodoItem label must be unique"
  const NotActive := "TodoItem must exist and not be archived"
  const CompletionUnchanged := "cannot set TodoItem completion to current completion state"

  /** Some stored item, archived or not, already carries this label. */
  ghost predicate LabelInUse(table: seq<TodoItem>, text: string)
  {
    exists i :: 0 <= i < |table| && table[i].fields.text == text
  }

  /** No two stored items share a label. */
  ghost predicate LabelsUnique(table: seq<TodoItem>)
  {
    forall i, j :: 0 <= i < j < |table| ==> table[i].fields.text != table[j].fields.text
  }

  /** NotExist(label): Get(label) finds nothing. */
  function NotExist(table: seq<TodoItem>, text: string): (b: bool)
    ensures b <==> !LabelInUse(table, text)
  {
    ByLabel(table, text).None?
  }

  /** CompletionStateIsNotCurrent(item): true when Get(item.Id, false) finds
      nothing (NotArchived reports that case), otherwise true exactly when
      the item's completion state differs from the stored one. */
  function CompletionStateIsNotCurrent(table: seq<TodoItem>, item: TodoItem): (b: bool)
    ensures !IsActive(table, item.id) ==> b
    ensures (forall i :: 0 <= i < |table| && table[i].id == item.id && table[i].archivedAt.None? ==>
               table[i].fields.completedAt.Some? != item.fields.completedAt.Some?) ==> b
    ensures !b ==> exists i :: 0 <= i < |table| && table[i].id == item.id && table[i].archivedAt.None? &&
                     table[i].fields.completedAt.Some? == item.fields.completedAt.Some?
  {
    var td := Find(table, item.id, false);
    if td.None? then true
    else if item.fields.completedAt.Some? then td.value.fields.completedAt.None?
    else td.value.fields.completedAt.Some?
  }

  /** Validate(item), with the given rule set included or, when none is
      given, the default rules: the messages of the failing rules, in the
      order the rules are declared. */
  function Validate(table: seq<TodoItem>, item: TodoItem, ruleSet: Option<RuleSet>): (errors: seq<string>)
    ensures ruleSet.None? ==>
              (errors == [] <==> exists i :: 0 <= i < |item.fields.text| && !IsWhiteSpace(item.fields.text[i])) &&
              (errors == [] || errors == [LabelRequired])
    ensures ruleSet == Some(Create) ==>
              errors == (if LabelInUse(table, item.fields.text) then [LabelNotUnique] else [])
    ensures ruleSet == Some(Update) ==>
              errors == (if IsActive(table, item.id) then [] else [NotActive]) +
                        (if LabelInUse(table, item.fields.text) then [LabelNotUnique] else [])
    ensures ruleSet == Some(Archive) ==>
              errors == (if IsActive(table, item.id) then [] else [NotActive])
    ensures ruleSet == Some(Complete) ==>
              errors == (if CompletionStateIsNotCurrent(table, item) then [] else [CompletionUnchanged]) +
                        (if IsActive(table, item.id) then [] else [NotActive])
  {
    match ruleSet
    case None => Check(NotEmpty(item.fields.text), LabelRequired)
    case Some(Complete) =>
      Check(CompletionStateIsNotCurrent(table, item), CompletionUnchanged) + Check(NotArchived(table, item.id), NotActive)
    case Some(Create) => Check(NotExist(table, item.fields.text), LabelNotUnique)
    case Some(Update) =>
      Check(NotArchived(table, item.id), NotActive) + Check(NotExist(table, item.fields.text), LabelNotUnique)
    case Some(Archive) => Check(NotArchived(table, item.id), NotActive)
  }

  /** UPDATE rejects an item that keeps its stored label: the lookup finds
      the item itself. */
  lemma UpdateRejectsOwnLabel(table: seq<TodoItem>, k: nat, item: TodoItem)
    requires k < |table| && item.fields.text == table[k].fields.text
    ensures LabelNotUnique in Validate(table, item, Some(Update))
  {
  }

  /** COMPLETE on an id with no active item reports that alone, whatever the
      completion state asked for. */
  lemma CompleteOnInactive(table: seq<TodoItem>, item: TodoItem)
    requires !IsActive(table, item.id)
    ensures Validate(table, item, Some(Complete)) == [NotActive]
  {
  }

  /** COMPLETE passes exactly when the item is active and its completion
      state differs from the stored one (ids being unique). */
  lemma CompleteAccepts(table: seq<TodoItem>, k: nat, item: TodoItem)
    requires k < |table| && table[k].id == item.id && table[k].archivedAt.None?
    requires forall i :: 0 <= i < |table| && table[i].id == item.id ==> i == k
    ensures Validate(table, item, Some(Complete)) == [] <==>
              table[k].fields.completedAt.Some? != item.fields.completedAt.Some?
  {
  }
}
