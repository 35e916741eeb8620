/**
 * TodoListValidator: the unnamed label rule and the CREATE, UPDATE and
 * ARCHIVE rule sets over the stored lists.
 */
module ListValidation {
  import opened Wrappers
  import opened Records
  import opened Queries
  import opened ListRepository
  import opened Validation

  const LabelRequired := "each TodoList must have a label"
  const LabelNotUnique := "each TodoList label must be unique"
  const NotActive := "TodoList must exist and not be archived"

  /** Some stored list, archived or not, already carries this label. */
  ghost predicate LabelInUse(table: seq<TodoList>, text: string)
  {
    exists i :: 0 <= i < |table| && table[i].fields.text == text
  }

  /** No two stored lists share a label. */
  ghost predicate LabelsUnique(table: seq<TodoList>)
  {
    forall i, j :: 0 <= i < j < |table| ==> table[i].fields.text != table[j].fields.text
  }

  /** NotExist(label): Get(label) finds nothing. */
  function NotExist(table: seq<TodoList>, text: string): (b: bool)
    ensures b <==> !LabelInUse(table, text)
  {
    ListByLabel(table, text).None?
  }

  /** Validate(list) with the given rule set, or the default rules when none
      is given; the COMPLETE rule set has no rules for lists. */
  function Validate(table: seq<TodoList>, list: TodoList, ruleSet: Option<RuleSet>): (errors: seq<string>)
    ensures ruleSet.None? ==>
              (errors == [] <==> exists i :: 0 <= i < |list.fields.text| && !IsWhiteSpace(list.fields.text[i])) &&
              (errors == [] || errors == [LabelRequired])
    ensures ruleSet == Some(Create) ==>
              errors == (if LabelInUse(table, list.fields.text) then [LabelNotUnique] else [])
    ensures ruleSet == Some(Update) ==>
              errors == (if IsActive(table, list.id) then [] else [NotActive]) +
                        (if LabelInUse(table, list.fields.text) then [LabelNotUnique] else [])
    ensures ruleSet == Some(Archive) ==>
              errors == (if IsActive(table, list.id) then [] else [NotActive])
    ensures ruleSet == Some(Complete) ==> errors == []
  {
    match ruleSet
    case None => Check(NotEmpty(list.fields.text), LabelRequired)
    case Some(Create) => Check(NotExist(table, list.fields.text), LabelNotUnique)
    case Some(Update) =>
      Check(NotArchived(table, list.id), NotActive) + Check(NotExist(table, list.fields.text), LabelNotUnique)
    case Some(Archive) => Check(NotArchived(table, list.id), NotActive)
    case Some(Complete) => []
  }
}
