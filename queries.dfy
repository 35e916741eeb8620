/**
 * The read side of the generic repository (Todos.Utils): Get by id and the
 * GetAll pipeline (paginate, then order by a named property, then drop
 * archived rows), as pure functions of the stored table.
 */
module Queries {
  import opened Wrappers
  import opened Records
  import opened Sequences
  import opened Ordering

  /** One QueryOptions object, read as a value. */
  datatype Options = Options(
    limit: Option<nat>,
    offset: Option<nat>,
    order: Option<string>,
    isDescending: bool,
    includeArchived: bool)

  /** The condition FirstOrDefault applies in Get(id, includeArchived). */
  function Eligible<P>(id: int, includeArchived: bool): Record<P> -> bool
  {
    (x: Record<P>) => x.id == id && (x.archivedAt.None? || includeArchived)
  }

  /** Get(id, includeArchived): the first stored record with that id that is
      not archived, or that may be archived when includeArchived is set. */
  function Find<P>(table: seq<Record<P>>, id: int, includeArchived: bool): (r: Option<Record<P>>)
    ensures r.None? <==>
              forall i :: 0 <= i < |table| ==> !(table[i].id == id && (table[i].archivedAt.None? || includeArchived))
    ensures r.Some? ==> exists i :: 0 <= i < |table| && table[i] == r.value &&
                          r.value.id == id && (r.value.archivedAt.None? || includeArchived) &&
                          forall j :: 0 <= j < i ==> !(table[j].id == id && (table[j].archivedAt.None? || includeArchived))
  {
    First(table, Eligible(id, includeArchived))
  }

  /** Skip(offset * limit).Take(limit). */
  function Page<T>(s: seq<T>, offset: nat, limit: nat): (r: seq<T>)
    ensures |r| <= limit
    ensures |r| == if offset * limit + limit <= |s| then limit
                   else if offset * limit <= |s| then |s| - offset * limit
                   else 0
    ensures forall i :: 0 <= i < |r| ==> r[i] == s[offset * limit + i]
  {
    Take(Skip(s, offset * limit), limit)
  }

  /** x.ArchivedAt == null || includeArchived */
  function Visible<P>(includeArchived: bool): Record<P> -> bool
  {
    (x: Record<P>) => x.archivedAt.None? || includeArchived
  }

  /** The archived-row filter, the last step of GetAll. */
  function Unarchived<P(==)>(rows: seq<Record<P>>, includeArchived: bool): (r: seq<Record<P>>)
    ensures !includeArchived ==> forall i :: 0 <= i < |r| ==> r[i].archivedAt.None?
    ensures forall i :: 0 <= i < |rows| && rows[i].archivedAt.None? ==> rows[i] in r
  {
    Where(rows, Visible(includeArchived))
  }

  lemma {:induction false} UnarchivedIncluding<P>(rows: seq<Record<P>>)
    ensures Unarchived(rows, true) == rows
  {
    if rows != [] {
      UnarchivedIncluding(rows[1..]);
      assert rows == [rows[0]] + rows[1..];
    }
  }

  /** string.IsNullOrEmpty(options.Order) is false. */
  predicate OrderRequested(o: Options)
  {
    o.order.Some? && o.order.value != ""
  }

  /** The property an OrderBy lambda reads. */
  function OrderKey<P>(schema: Schema<P>, name: string): Record<P> -> Key
  {
    (x: Record<P>) => KeyOf(schema, x, name)
  }

  /** The offset pagination uses: a missing Offset counts as 0. */
  function EffectiveOffset(o: Options): nat
  {
    if o.offset.Some? then o.offset.value else 0
  }

  /** The rows pagination keeps, before ordering and the archived filter. */
  function Window<T>(table: seq<T>, o: Options): seq<T>
  {
    if o.limit.Some? then Page(table, EffectiveOffset(o), o.limit.value) else table
  }

  /** With Limit set and no Offset, pagination keeps the first Limit rows. */
  lemma DefaultOffsetFirstPage<T>(table: seq<T>, o: Options)
    requires o.limit.Some? && o.offset.None?
    ensures Window(table, o) == Take(table, o.limit.value)
  {
  }

  /** GetAll(options): with no options, the whole table in store order;
      otherwise paginate, order, then drop archived rows. */
  function Listing<P(==)>(table: seq<Record<P>>, schema: Schema<P>, options: Option<Options>)
    : (r: Result<seq<Record<P>>, Failure>)
    ensures options.None? ==> r == Success(table)
    ensures r.Failure? <==> options.Some? && OrderRequested(options.value) &&
                            !HasProperty(schema, options.value.order.value)
    ensures r.Failure? ==> r.error == NoSuchProperty(options.value.order.value)
  {
    match options
    case None => Success(table)
    case Some(o) =>
      var paged := Window(table, o);
      if OrderRequested(o) && !HasProperty(schema, o.order.value) then
        Failure(NoSuchProperty(o.order.value))
      else
        var ordered := if OrderRequested(o) then SortBy(paged, OrderKey(schema, o.order.value), o.isDescending)
                       else paged;
        Success(Unarchived(ordered, o.includeArchived))
  }

  /** Where keeps a sorted sequence sorted. */
  lemma {:induction false} WhereSorted<T>(s: seq<T>, p: T -> bool, key: T -> Key, descending: bool)
    requires Sorted(s, key, descending)
    ensures Sorted(Where(s, p), key, descending)
  {
    if s != [] {
      WhereSorted(s[1..], p, key, descending);
      if p(s[0]) {
        var w := Where(s[1..], p);
        var r := [s[0]] + w;
        forall i, j | 0 <= i < j < |r| ensures Precedes(key(r[i]), key(r[j]), descending) {
          if i == 0 {
            assert r[j] == w[j - 1] && w[j - 1] in s[1..];
            var m :| 0 <= m < |s[1..]| && s[1..][m] == r[j];
            assert s[m + 1] == r[j];
          } else {
            assert r[i] == w[i - 1] && r[j] == w[j - 1];
          }
        }
      }
    }
  }

  /** Pages are cut first: every listed row comes from the page window, so a
      page holds at most Limit rows, and possibly fewer once archived rows
      are dropped. */
  lemma ListingFromWindow<P>(table: seq<Record<P>>, schema: Schema<P>, o: Options)
    requires Listing(table, schema, Some(o)).Success?
    ensures forall x :: x in Listing(table, schema, Some(o)).value ==> x in Window(table, o)
    ensures o.limit.Some? ==> |Listing(table, schema, Some(o)).value| <= o.limit.value
  {
    var paged := Window(table, o);
    var ordered := if OrderRequested(o) then SortBy(paged, OrderKey(schema, o.order.value), o.isDescending)
                   else paged;
    assert multiset(ordered) == multiset(paged);
    forall x | x in Listing(table, schema, Some(o)).value ensures x in paged {
      assert x in ordered;
      assert x in multiset(ordered);
    }
  }

  /** With IncludeArchived false, no listed row is archived. */
  lemma ListingExcludesArchived<P>(table: seq<Record<P>>, schema: Schema<P>, o: Options)
    requires !o.includeArchived
    requires Listing(table, schema, Some(o)).Success?
    ensures forall i :: 0 <= i < |Listing(table, schema, Some(o)).value| ==>
              Listing(table, schema, Some(o)).value[i].archivedAt.None?
  {
  }

  /** Nothing of the page window is lost but archived rows: every unarchived
      row of the window is listed, and with IncludeArchived every row is. */
  lemma ListingKeepsActive<P>(table: seq<Record<P>>, schema: Schema<P>, o: Options)
    requires Listing(table, schema, Some(o)).Success?
    ensures forall x :: x in Window(table, o) && (o.includeArchived || x.archivedAt.None?) ==>
              x in Listing(table, schema, Some(o)).value
  {
    var paged := Window(table, o);
    var ordered := if OrderRequested(o) then SortBy(paged, OrderKey(schema, o.order.value), o.isDescending)
                   else paged;
    assert multiset(ordered) == multiset(paged);
    UnarchivedIncluding(ordered);
    forall x | x in paged && (o.includeArchived || x.archivedAt.None?)
      ensures x in Listing(table, schema, Some(o)).value
    {
      assert x in multiset(paged);
      assert x in ordered;
      var i :| 0 <= i < |ordered| && ordered[i] == x;
    }
  }

  /** With IncludeArchived set, the listing is exactly the (ordered) page window. */
  lemma ListingIncludingArchived<P>(table: seq<Record<P>>, schema: Schema<P>, o: Options)
    requires o.includeArchived
    requires Listing(table, schema, Some(o)).Success?
    ensures multiset(Listing(table, schema, Some(o)).value) == multiset(Window(table, o))
    ensures !OrderRequested(o) ==> Listing(table, schema, Some(o)).value == Window(table, o)
  {
    var paged := Window(table, o);
    var ordered := if OrderRequested(o) then SortBy(paged, OrderKey(schema, o.order.value), o.isDescending)
                   else paged;
    UnarchivedIncluding(ordered);
  }

  /** When Order names a property, the listing is sorted by it in the requested direction. */
  lemma ListingSorted<P>(table: seq<Record<P>>, schema: Schema<P>, o: Options)
    requires OrderRequested(o)
    requires Listing(table, schema, Some(o)).Success?
    ensures Sorted(Listing(table, schema, Some(o)).value, OrderKey(schema, o.order.value), o.isDescending)
  {
    var key := OrderKey(schema, o.order.value);
    var ordered := SortBy(Window(table, o), key, o.isDescending);
    SortBySorted(Window(table, o), key, o.isDescending);
    WhereSorted(ordered, Visible(o.includeArchived), key, o.isDescending);
  }

  function Ids<P>(rows: seq<Record<P>>): (ids: seq<int>)
    ensures |ids| == |rows|
    ensures forall i :: 0 <= i < |rows| ==> ids[i] == rows[i].id
  {
    if rows == [] then [] else [rows[0].id] + Ids(rows[1..])
  }
}
