/**
 * The listing cases of the repository tests, stated over their fixtures: five
 * records stored in the order 1, 2, 3, 5, 4, with times counted in days
 * from day 0, the test's "now" being day 20.
 */
module Fixtures {
  import opened Wrappers
  import opened Records
  import opened Sequences
  import opened Ordering
  import opened Queries
  import opened ItemRepository

  function Plain(id: int, createdAt: Time, archivedAt: Option<Time>): Record<()>
  {
    Record(id, createdAt, archivedAt, ())
  }

  const Stored: seq<Record<()>> := [
    Plain(1, 14, None),
    Plain(2, 14, Some(18)),
    Plain(3, 18, Some(14)),
    Plain(5, 19, None),
    Plain(4, 10, Some(20))
  ]

  lemma ListingWithoutOptions()
    ensures Ids(Listing(Stored, PlainSchema, None).value) == [1, 2, 3, 5, 4]
  {
  }

  /** With every row included and neither pages nor order, the listing is the table. */
  lemma ListingWhole<P>(table: seq<Record<P>>, schema: Schema<P>)
    ensures Listing(table, schema, Some(Options(None, None, None, false, true))) == Success(table)
  {
    UnarchivedIncluding(table);
  }

  lemma ListingEverything()
    ensures Ids(Listing(Stored, PlainSchema, Some(Options(None, None, None, false, true))).value) == [1, 2, 3, 5, 4]
  {
    ListingWhole(Stored, PlainSchema);
    ListingWithoutOptions();
  }

  lemma ListingFirstPage()
    ensures Ids(Listing(Stored, PlainSchema, Some(Options(Some(2), None, None, false, true))).value) == [1, 2]
  {
    UnarchivedIncluding(Stored[..2]);
  }

  lemma ListingThirdPage()
    ensures Ids(Listing(Stored, PlainSchema, Some(Options(Some(1), Some(2), None, false, true))).value) == [3]
  {
    UnarchivedIncluding([Stored[2]]);
  }

  /** One step of the insertion sort on a suffix of s. */
  lemma SortBySuffix<T>(s: seq<T>, k: nat, key: T -> Key, descending: bool)
    requires k < |s|
    ensures SortBy(s[k..], key, descending) == Ordering.Insert(s[k], SortBy(s[k + 1..], key, descending), key, descending)
  {
    assert s[k..][0] == s[k] && s[k..][1..] == s[k + 1..];
  }

  lemma InsertHere<T>(x: T, s: seq<T>, key: T -> Key, descending: bool)
    requires s == [] || Precedes(key(x), key(s[0]), descending)
    ensures Ordering.Insert(x, s, key, descending) == [x] + s
  {
  }

  lemma InsertPast<T>(x: T, a: T, s: seq<T>, key: T -> Key, descending: bool)
    requires !Precedes(key(x), key(a), descending)
    ensures Ordering.Insert(x, [a] + s, key, descending) == [a] + Ordering.Insert(x, s, key, descending)
  {
    assert ([a] + s)[0] == a && ([a] + s)[1..] == s;
  }

  lemma Spelled<T>(a: T, b: T, c: T, d: T, e: T)
    ensures [a] + ([b] + ([c] + ([d] + ([e] + [])))) == [a, b, c, d, e]
  {
  }

  lemma IdsSpelled<P>(a: Record<P>, b: Record<P>, c: Record<P>, d: Record<P>, e: Record<P>)
    ensures Ids([a, b, c, d, e]) == [a.id, b.id, c.id, d.id, e.id]
  {
  }

  /** The Id of each stored record, as an order key. */
  lemma StoredIdKeys()
    ensures var key := OrderKey(PlainSchema, "Id"); var s := Stored;
            key(s[0]) == Num(1) && key(s[1]) == Num(2) && key(s[2]) == Num(3) && key(s[3]) == Num(5) && key(s[4]) == Num(4)
  {
  }

  /** The ArchivedAt of each stored record, as an order key. */
  lemma StoredArchivedAtKeys()
    ensures var key := OrderKey(PlainSchema, "ArchivedAt"); var s := Stored;
            key(s[0]) == Null && key(s[1]) == Num(18) && key(s[2]) == Num(14) && key(s[3]) == Null && key(s[4]) == Num(20)
  {
  }

  /** With every row included and no pages, an ordered listing is the sorted table. */
  lemma ListingWholeSorted<P>(table: seq<Record<P>>, schema: Schema<P>, name: string, descending: bool)
    requires name != "" && HasProperty(schema, name)
    ensures Listing(table, schema, Some(Options(None, None, Some(name), descending, true))) ==
            Success(SortBy(table, OrderKey(schema, name), descending))
  {
    UnarchivedIncluding(SortBy(table, OrderKey(schema, name), descending));
  }

  lemma SortedByIdFrom4()
    ensures var s := Stored; var nil: seq<Record<()>> := [];
            SortBy(s[4..], OrderKey(PlainSchema, "Id"), false) == [s[4]] + nil
  {
    var key := OrderKey(PlainSchema, "Id");
    var s := Stored;
    var nil: seq<Record<()>> := [];
    StoredIdKeys();
    assert s[5..] == nil;
    SortBySuffix(s, 4, key, false);
    InsertHere(s[4], nil, key, false);
  }

  lemma SortedByIdFrom3()
    ensures var s := Stored; var nil: seq<Record<()>> := [];
            SortBy(s[3..], OrderKey(PlainSchema, "Id"), false) == [s[4]] + ([s[3]] + nil)
  {
    var key := OrderKey(PlainSchema, "Id");
    var s := Stored;
    var nil: seq<Record<()>> := [];
    StoredIdKeys();
    SortedByIdFrom4();
    SortBySuffix(s, 3, key, false);
    InsertPast(s[3], s[4], nil, key, false);
    InsertHere(s[3], nil, key, false);
  }

  lemma SortedByIdFrom2()
    ensures var s := Stored; var nil: seq<Record<()>> := [];
            SortBy(s[2..], OrderKey(PlainSchema, "Id"), false) == [s[2]] + ([s[4]] + ([s[3]] + nil))
  {
    var key := OrderKey(PlainSchema, "Id");
    var s := Stored;
    var nil: seq<Record<()>> := [];
    StoredIdKeys();
    SortedByIdFrom3();
    SortBySuffix(s, 2, key, false);
    InsertHere(s[2], [s[4]] + ([s[3]] + nil), key, false);
  }

  lemma SortedByIdFrom1()
    ensures var s := Stored; var nil: seq<Record<()>> := [];
            SortBy(s[1..], OrderKey(PlainSchema, "Id"), false) == [s[1]] + ([s[2]] + ([s[4]] + ([s[3]] + nil)))
  {
    var key := OrderKey(PlainSchema, "Id");
    var s := Stored;
    var nil: seq<Record<()>> := [];
    StoredIdKeys();
    SortedByIdFrom2();
    SortBySuffix(s, 1, key, false);
    InsertHere(s[1], [s[2]] + ([s[4]] + ([s[3]] + nil)), key, false);
  }

  lemma SortedByIdFrom0()
    ensures var s := Stored; var nil: seq<Record<()>> := [];
            SortBy(s[0..], OrderKey(PlainSchema, "Id"), false) == [s[0]] + ([s[1]] + ([s[2]] + ([s[4]] + ([s[3]] + nil))))
  {
    var key := OrderKey(PlainSchema, "Id");
    var s := Stored;
    var nil: seq<Record<()>> := [];
    StoredIdKeys();
    SortedByIdFrom1();
    SortBySuffix(s, 0, key, false);
    InsertHere(s[0], [s[1]] + ([s[2]] + ([s[4]] + ([s[3]] + nil))), key, false);
  }

  /** Sorting the stored records by Id. */
  lemma SortedById()
    ensures var s := Stored;
            SortBy(s, OrderKey(PlainSchema, "Id"), false) == [s[0], s[1], s[2], s[4], s[3]]
  {
    var s := Stored;
    SortedByIdFrom0();
    assert s[0..] == s;
    Spelled(s[0], s[1], s[2], s[4], s[3]);
  }

  lemma SortedByIdDescendingFrom4()
    ensures var s := Stored; var nil: seq<Record<()>> := [];
            SortBy(s[4..], OrderKey(PlainSchema, "Id"), true) == [s[4]] + nil
  {
    var key := OrderKey(PlainSchema, "Id");
    var s := Stored;
    var nil: seq<Record<()>> := [];
    StoredIdKeys();
    assert s[5..] == nil;
    SortBySuffix(s, 4, key, true);
    InsertHere(s[4], nil, key, true);
  }

  lemma SortedByIdDescendingFrom3()
    ensures var s := Stored; var nil: seq<Record<()>> := [];
            SortBy(s[3..], OrderKey(PlainSchema, "Id"), true) == [s[3]] + ([s[4]] + nil)
  {
    var key := OrderKey(PlainSchema, "Id");
    var s := Stored;
    var nil: seq<Record<()>> := [];
    StoredIdKeys();
    SortedByIdDescendingFrom4();
    SortBySuffix(s, 3, key, true);
    InsertHere(s[3], [s[4]] + nil, key, true);
  }

  lemma SortedByIdDescendingFrom2()
    ensures var s := Stored; var nil: seq<Record<()>> := [];
            SortBy(s[2..], OrderKey(PlainSchema, "Id"), true) == [s[3]] + ([s[4]] + ([s[2]] + nil))
  {
    var key := OrderKey(PlainSchema, "Id");
    var s := Stored;
    var nil: seq<Record<()>> := [];
    StoredIdKeys();
    SortedByIdDescendingFrom3();
    SortBySuffix(s, 2, key, true);
    InsertPast(s[2], s[3], [s[4]] + nil, key, true);
    InsertPast(s[2], s[4], nil, key, true);
    InsertHere(s[2], nil, key, true);
  }

  lemma SortedByIdDescendingFrom1()
    ensures var s := Stored; var nil: seq<Record<()>> := [];
            SortBy(s[1..], OrderKey(PlainSchema, "Id"), true) == [s[3]] + ([s[4]] + ([s[2]] + ([s[1]] + nil)))
  {
    var key := OrderKey(PlainSchema, "Id");
    var s := Stored;
    var nil: seq<Record<()>> := [];
    StoredIdKeys();
    SortedByIdDescendingFrom2();
    SortBySuffix(s, 1, key, true);
    InsertPast(s[1], s[3], [s[4]] + ([s[2]] + nil), key, true);
    InsertPast(s[1], s[4], [s[2]] + nil, key, true);
    InsertPast(s[1], s[2], nil, key, true);
    InsertHere(s[1], nil, key, true);
  }

  lemma SortedByIdDescendingFrom0()
    ensures var s := Stored; var nil: seq<Record<()>> := [];
            SortBy(s[0..], OrderKey(PlainSchema, "Id"), true) == [s[3]] + ([s[4]] + ([s[2]] + ([s[1]] + ([s[0]] + nil))))
  {
    var key := OrderKey(PlainSchema, "Id");
    var s := Stored;
    var nil: seq<Record<()>> := [];
    StoredIdKeys();
    SortedByIdDescendingFrom1();
    SortBySuffix(s, 0, key, true);
    InsertPast(s[0], s[3], [s[4]] + ([s[2]] + ([s[1]] + nil)), key, true);
    InsertPast(s[0], s[4], [s[2]] + ([s[1]] + nil), key, true);
    InsertPast(s[0], s[2], [s[1]] + nil, key, true);
    InsertPast(s[0], s[1], nil, key, true);
    InsertHere(s[0], nil, key, true);
  }

  /** Sorting the stored records by Id, descending. */
  lemma SortedByIdDescending()
    ensures var s := Stored;
            SortBy(s, OrderKey(PlainSchema, "Id"), true) == [s[3], s[4], s[2], s[1], s[0]]
  {
    var s := Stored;
    SortedByIdDescendingFrom0();
    assert s[0..] == s;
    Spelled(s[3], s[4], s[2], s[1], s[0]);
  }

  lemma ListingById()
    ensures Ids(Listing(Stored, PlainSchema, Some(Options(None, None, Some("Id"), false, true))).value) == [1, 2, 3, 4, 5]
  {
    var s := Stored;
    ListingWholeSorted(s, PlainSchema, "Id", false);
    SortedById();
    IdsSpelled(s[0], s[1], s[2], s[4], s[3]);
  }

  lemma ListingByIdDescending()
    ensures Ids(Listing(Stored, PlainSchema, Some(Options(None, None, Some("Id"), true, true))).value) == [5, 4, 3, 2, 1]
  {
    var s := Stored;
    ListingWholeSorted(s, PlainSchema, "Id", true);
    SortedByIdDescending();
    IdsSpelled(s[3], s[4], s[2], s[1], s[0]);
  }

  lemma SortedByArchivedAtFrom4()
    ensures var s := Stored; var nil: seq<Record<()>> := [];
            SortBy(s[4..], OrderKey(PlainSchema, "ArchivedAt"), false) == [s[4]] + nil
  {
    var key := OrderKey(PlainSchema, "ArchivedAt");
    var s := Stored;
    var nil: seq<Record<()>> := [];
    StoredArchivedAtKeys();
    assert s[5..] == nil;
    SortBySuffix(s, 4, key, false);
    InsertHere(s[4], nil, key, false);
  }

  lemma SortedByArchivedAtFrom3()
    ensures var s := Stored; var nil: seq<Record<()>> := [];
            SortBy(s[3..], OrderKey(PlainSchema, "ArchivedAt"), false) == [s[3]] + ([s[4]] + nil)
  {
    var key := OrderKey(PlainSchema, "ArchivedAt");
    var s := Stored;
    var nil: seq<Record<()>> := [];
    StoredArchivedAtKeys();
    SortedByArchivedAtFrom4();
    SortBySuffix(s, 3, key, false);
    InsertHere(s[3], [s[4]] + nil, key, false);
  }

  lemma SortedByArchivedAtFrom2()
    ensures var s := Stored; var nil: seq<Record<()>> := [];
            SortBy(s[2..], OrderKey(PlainSchema, "ArchivedAt"), false) == [s[3]] + ([s[2]] + ([s[4]] + nil))
  {
    var key := OrderKey(PlainSchema, "ArchivedAt");
    var s := Stored;
    var nil: seq<Record<()>> := [];
    StoredArchivedAtKeys();
    SortedByArchivedAtFrom3();
    SortBySuffix(s, 2, key, false);
    InsertPast(s[2], s[3], [s[4]] + nil, key, false);
    InsertHere(s[2], [s[4]] + nil, key, false);
  }

  lemma SortedByArchivedAtFrom1()
    ensures var s := Stored; var nil: seq<Record<()>> := [];
            SortBy(s[1..], OrderKey(PlainSchema, "ArchivedAt"), false) == [s[3]] + ([s[2]] + ([s[1]] + ([s[4]] + nil)))
  {
    var key := OrderKey(PlainSchema, "ArchivedAt");
    var s := Stored;
    var nil: seq<Record<()>> := [];
    StoredArchivedAtKeys();
    SortedByArchivedAtFrom2();
    SortBySuffix(s, 1, key, false);
    InsertPast(s[1], s[3], [s[2]] + ([s[4]] + nil), key, false);
    InsertPast(s[1], s[2], [s[4]] + nil, key, false);
    InsertHere(s[1], [s[4]] + nil, key, false);
  }

  lemma SortedByArchivedAtFrom0()
    ensures var s := Stored; var nil: seq<Record<()>> := [];
            SortBy(s[0..], OrderKey(PlainSchema, "ArchivedAt"), false) == [s[0]] + ([s[3]] + ([s[2]] + ([s[1]] + ([s[4]] + nil))))
  {
    var key := OrderKey(PlainSchema, "ArchivedAt");
    var s := Stored;
    var nil: seq<Record<()>> := [];
    StoredArchivedAtKeys();
    SortedByArchivedAtFrom1();
    SortBySuffix(s, 0, key, false);
    InsertHere(s[0], [s[3]] + ([s[2]] + ([s[1]] + ([s[4]] + nil))), key, false);
  }

  /** Sorting the stored records by ArchivedAt: absent times first, in store order. */
  lemma SortedByArchivedAt()
    ensures var s := Stored;
            SortBy(s, OrderKey(PlainSchema, "ArchivedAt"), false) == [s[0], s[3], s[2], s[1], s[4]]
  {
    var s := Stored;
    SortedByArchivedAtFrom0();
    assert s[0..] == s;
    Spelled(s[0], s[3], s[2], s[1], s[4]);
  }

  lemma ListingByArchivedAt()
    ensures Ids(Listing(Stored, PlainSchema, Some(Options(None, None, Some("ArchivedAt"), false, true))).value) == [1, 5, 3, 2, 4]
  {
    var s := Stored;
    ListingWholeSorted(s, PlainSchema, "ArchivedAt", false);
    SortedByArchivedAt();
    IdsSpelled(s[0], s[3], s[2], s[1], s[4]);
  }

  lemma ListingActiveOnly()
    ensures Ids(Listing(Stored, PlainSchema, Some(Options(None, None, None, false, false))).value) == [1, 5]
  {
    assert Unarchived(Stored, false) == [Stored[0], Stored[3]];
  }

  function Item(id: int, createdAt: Time, archivedAt: Option<Time>, text: string, todoListId: int, completedAt: Option<Time>)
    : TodoItem
  {
    Record(id, createdAt, archivedAt, ItemFields(text, todoListId, completedAt))
  }

  /** The item fixture: the same ids, times and archive stamps, with labels,
      lists and completion stamps. */
  const StoredItems: seq<TodoItem> := [
    Item(1, 14, None, "1", 123, None),
    Item(2, 14, Some(18), "2", 2, Some(20)),
    Item(3, 18, Some(14), "3", 123, None),
    Item(5, 19, None, "4", 1, Some(20)),
    Item(4, 10, Some(20), "5", 5, Some(20))
  ]

  /** Every stored item, archived ones included, neither paged nor ordered. */
  const AllItems := Options(None, None, None, false, true)

  lemma IdsOfTwo<P>(a: Record<P>, b: Record<P>)
    ensures Ids([a, b]) == [a.id, b.id]
  {
  }

  lemma IdsOfThree<P>(a: Record<P>, b: Record<P>, c: Record<P>)
    ensures Ids([a, b, c]) == [a.id, b.id, c.id]
  {
  }

  /** One step of Where on a suffix of s. */
  lemma WhereSuffix<T>(s: seq<T>, k: nat, p: T -> bool)
    requires k < |s|
    ensures Where(s[k..], p) == (if p(s[k]) then [s[k]] else []) + Where(s[k + 1..], p)
  {
    assert s[k..][0] == s[k] && s[k..][1..] == s[k + 1..];
  }

  /** The id, list and completion state of each stored item. */
  lemma StoredItemFields()
    ensures var s := StoredItems;
            s[0].id == 1 && s[1].id == 2 && s[2].id == 3 && s[3].id == 5 && s[4].id == 4 &&
            s[0].fields.todoListId == 123 && s[1].fields.todoListId == 2 && s[2].fields.todoListId == 123 &&
            s[3].fields.todoListId == 1 && s[4].fields.todoListId == 5 &&
            s[0].fields.completedAt.None? && s[1].fields.completedAt.Some? && s[2].fields.completedAt.None? &&
            s[3].fields.completedAt.Some? && s[4].fields.completedAt.Some?
  {
  }

  /** Where on five elements that keeps the second, fourth and fifth. */
  lemma WhereKeeps134<T>(s: seq<T>, p: T -> bool)
    requires |s| == 5 && !p(s[0]) && p(s[1]) && !p(s[2]) && p(s[3]) && p(s[4])
    ensures Where(s, p) == [s[1], s[3], s[4]]
  {
    assert s[5..] == [];
    WhereSuffix(s, 4, p);
    WhereSuffix(s, 3, p);
    assert Where(s[3..], p) == [s[3], s[4]];
    WhereSuffix(s, 2, p);
    WhereSuffix(s, 1, p);
    WhereSuffix(s, 0, p);
    assert s[0..] == s;
  }

  /** Where on five elements that keeps the first and third. */
  lemma WhereKeeps02<T>(s: seq<T>, p: T -> bool)
    requires |s| == 5 && p(s[0]) && !p(s[1]) && p(s[2]) && !p(s[3]) && !p(s[4])
    ensures Where(s, p) == [s[0], s[2]]
  {
    assert s[5..] == [];
    WhereSuffix(s, 4, p);
    WhereSuffix(s, 3, p);
    WhereSuffix(s, 2, p);
    assert Where(s[2..], p) == [s[2]];
    WhereSuffix(s, 1, p);
    WhereSuffix(s, 0, p);
    assert s[0..] == s;
  }

  lemma ItemListingCompleted()
    ensures Ids(ItemListing(StoredItems, ItemSchema, Some(ItemOptions(AllItems, None, Some(true)))).value) == [2, 5, 4]
  {
    var s := StoredItems;
    var o := ItemOptions(AllItems, None, Some(true));
    ListingWhole(s, ItemSchema);
    assert ItemListing(s, ItemSchema, Some(o)) == Success(ItemFilters(s, o));
    StoredItemFields();
    WhereKeeps134(s, CompletionIs(true));
    IdsOfThree(s[1], s[3], s[4]);
  }

  lemma ItemListingNotCompleted()
    ensures Ids(ItemListing(StoredItems, ItemSchema, Some(ItemOptions(AllItems, None, Some(false)))).value) == [1, 3]
  {
    var s := StoredItems;
    var o := ItemOptions(AllItems, None, Some(false));
    ListingWhole(s, ItemSchema);
    assert ItemListing(s, ItemSchema, Some(o)) == Success(ItemFilters(s, o));
    StoredItemFields();
    WhereKeeps02(s, CompletionIs(false));
    IdsOfTwo(s[0], s[2]);
  }

  lemma ItemListingOfList()
    ensures Ids(ItemListing(StoredItems, ItemSchema, Some(ItemOptions(AllItems, Some(123), None))).value) == [1, 3]
  {
    var s := StoredItems;
    var o := ItemOptions(AllItems, Some(123), None);
    ListingWhole(s, ItemSchema);
    assert ItemListing(s, ItemSchema, Some(o)) == Success(ItemFilters(s, o));
    StoredItemFields();
    WhereKeeps02(s, ListIs(123));
    IdsOfTwo(s[0], s[2]);
  }
}
