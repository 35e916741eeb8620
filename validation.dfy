/**
 * What the two validators share: the rule-set names, the NotEmpty check
 * FluentValidation applies to a string, and the existence test both run
 * against the read repository.
 */
module Validation {
  import opened Wrappers
  import opened Records
  import opened Queries

  /** CREATE, UPDATE and ARCHIVE are common; COMPLETE exists for items only. */
  datatype RuleSet = Create | Update | Archive | Complete

  /** char.IsWhiteSpace: the Unicode space separators plus the line and
      paragraph separators and the control characters U+0009..U+000D and U+0085. */
  predicate IsWhiteSpace(c: char)
  {
    ('\U{9}' <= c <= '\U{D}') || c == '\U{20}' || c == '\U{85}' || c == '\U{A0}' || c == '\U{1680}' ||
    ('\U{2000}' <= c <= '\U{200A}') || c == '\U{2028}' || c == '\U{2029}' || c == '\U{202F}' ||
    c == '\U{205F}' || c == '\U{3000}'
  }

  /** NotEmpty() on a string: it is not made of white space only (the empty string included). */
  function NotEmpty(s: string): (b: bool)
    ensures b <==> exists i :: 0 <= i < |s| && !IsWhiteSpace(s[i])
  {
    if s == [] then false
    else if !IsWhiteSpace(s[0]) then true
    else
      var rest := NotEmpty(s[1..]);
      assert rest ==> exists i :: 0 < i < |s| && !IsWhiteSpace(s[i]) by {
        if rest {
          var k :| 0 <= k < |s| - 1 && !IsWhiteSpace(s[1..][k]);
          assert s[k + 1] == s[1..][k];
        }
      }
      rest
  }

  /** Some stored record carries this id and is not archived. */
  ghost predicate IsActive<P>(table: seq<Record<P>>, id: int)
  {
    exists i :: 0 <= i < |table| && table[i].id == id && table[i].archivedAt.None?
  }

  /** NotArchived(id): Get(id, false) finds a record. */
  function NotArchived<P>(table: seq<Record<P>>, id: int): (b: bool)
    ensures b <==> IsActive(table, id)
  {
    Find(table, id, false).Some?
  }

  /** One rule's contribution to the result: nothing, or its message. */
  function Check(ok: bool, message: string): (errors: seq<string>)
    ensures ok <==> errors == []
    ensures !ok ==> errors == [message]
  {
    if ok then [] else [message]
  }
}
