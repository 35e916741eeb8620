/**
 * OrderBy / OrderByDescending on a property value. Property values are
 * compared with absent values first; LINQ's sort is stable, so rows with
 * equal values keep the order they had.
 */
module Ordering {
  import opened Records
  import opened Sequences

  /** Ordinal comparison of two strings: -1, 0 or 1. */
  function CompareText(a: string, b: string): (c: int)
    ensures -1 <= c <= 1
    ensures c == 0 <==> a == b
  {
    if a == [] then (if b == [] then 0 else -1)
    else if b == [] then 1
    else if a[0] < b[0] then -1
    else if a[0] > b[0] then 1
    else
      var c := CompareText(a[1..], b[1..]);
      assert c == 0 ==> a == [a[0]] + a[1..] && b == [b[0]] + b[1..];
      c
  }

  lemma {:induction false} CompareTextAntisymmetric(a: string, b: string)
    ensures CompareText(b, a) == -CompareText(a, b)
  {
    if a != [] && b != [] && a[0] == b[0] {
      CompareTextAntisymmetric(a[1..], b[1..]);
    }
  }

  lemma {:induction false} CompareTextTransitive(a: string, b: string, c: string)
    requires CompareText(a, b) <= 0 && CompareText(b, c) <= 0
    ensures CompareText(a, c) <= 0
  {
    if a != [] && b != [] && c != [] && a[0] == b[0] && b[0] == c[0] {
      CompareTextTransitive(a[1..], b[1..], c[1..]);
    }
  }

  function Rank(k: Key): int
  {
    match k
    case Null => 0
    case Num(_) => 1
    case Text(_) => 2
  }

  /** Comparer<T>.Default on property values: an absent value is below every
      present one; numbers and times by value; strings ordinally. */
  function Compare(a: Key, b: Key): (c: int)
    ensures -1 <= c <= 1
    ensures c == 0 <==> a == b
  {
    if Rank(a) != Rank(b) then (if Rank(a) < Rank(b) then -1 else 1)
    else match a
      case Null => 0
      case Num(x) => if x < b.n then -1 else if x > b.n then 1 else 0
      case Text(s) => CompareText(s, b.s)
  }

  lemma CompareAntisymmetric(a: Key, b: Key)
    ensures Compare(b, a) == -Compare(a, b)
  {
    if a.Text? && b.Text? {
      CompareTextAntisymmetric(a.s, b.s);
    }
  }

  lemma CompareTransitive(a: Key, b: Key, c: Key)
    requires Compare(a, b) <= 0 && Compare(b, c) <= 0
    ensures Compare(a, c) <= 0
  {
    if a.Text? && b.Text? && c.Text? {
      CompareTextTransitive(a.s, b.s, c.s);
    }
  }

  /** In the requested direction, a row with value a may stand before one with value b. */
  predicate Precedes(a: Key, b: Key, descending: bool)
  {
    if descending then Compare(b, a) <= 0 else Compare(a, b) <= 0
  }

  lemma PrecedesTotal(a: Key, b: Key, descending: bool)
    ensures Precedes(a, b, descending) || Precedes(b, a, descending)
  {
    CompareAntisymmetric(a, b);
  }

  lemma PrecedesTransitive(a: Key, b: Key, c: Key, descending: bool)
    requires Precedes(a, b, descending) && Precedes(b, c, descending)
    ensures Precedes(a, c, descending)
  {
    if descending {
      CompareTransitive(c, b, a);
    } else {
      CompareTransitive(a, b, c);
    }
  }

  /** Places x before the first row it may precede. */
  function Insert<T>(x: T, s: seq<T>, key: T -> Key, descending: bool): (r: seq<T>)
    ensures |r| == |s| + 1
    ensures multiset(r) == multiset(s) + multiset{x}
  {
    if s == [] then [x]
    else if Precedes(key(x), key(s[0]), descending) then [x] + s
    else
      assert s == [s[0]] + s[1..];
      [s[0]] + Insert(x, s[1..], key, descending)
  }

  /** The rows ordered by key, ascending or descending, ties in their original order. */
  function SortBy<T>(s: seq<T>, key: T -> Key, descending: bool): (r: seq<T>)
    ensures |r| == |s|
    ensures multiset(r) == multiset(s)
  {
    if s == [] then []
    else
      assert s == [s[0]] + s[1..];
      Insert(s[0], SortBy(s[1..], key, descending), key, descending)
  }

  ghost predicate Sorted<T>(s: seq<T>, key: T -> Key, descending: bool)
  {
    forall i, j :: 0 <= i < j < |s| ==> Precedes(key(s[i]), key(s[j]), descending)
  }

  /** A row that may precede x and every row of s may precede every row of Insert(x, s). */
  lemma {:induction false} InsertKeepsLowerBound<T>(b: T, x: T, s: seq<T>, key: T -> Key, descending: bool)
    requires Precedes(key(b), key(x), descending)
    requires forall i :: 0 <= i < |s| ==> Precedes(key(b), key(s[i]), descending)
    ensures forall i :: 0 <= i < |s| + 1 ==> Precedes(key(b), key(Insert(x, s, key, descending)[i]), descending)
  {
    if s != [] && !Precedes(key(x), key(s[0]), descending) {
      InsertKeepsLowerBound(b, x, s[1..], key, descending);
    }
  }

  lemma {:induction false} InsertSorted<T>(x: T, s: seq<T>, key: T -> Key, descending: bool)
    requires Sorted(s, key, descending)
    ensures Sorted(Insert(x, s, key, descending), key, descending)
  {
    var r := Insert(x, s, key, descending);
    if s == [] {
    } else if Precedes(key(x), key(s[0]), descending) {
      forall j | 1 <= j < |r| ensures Precedes(key(r[0]), key(r[j]), descending) {
        if j > 1 {
          PrecedesTransitive(key(x), key(s[0]), key(s[j - 1]), descending);
        }
      }
    } else {
      InsertSorted(x, s[1..], key, descending);
      PrecedesTotal(key(x), key(s[0]), descending);
      InsertKeepsLowerBound(s[0], x, s[1..], key, descending);
      var tail := Insert(x, s[1..], key, descending);
      assert r == [s[0]] + tail;
      forall i, j | 0 <= i < j < |r| ensures Precedes(key(r[i]), key(r[j]), descending) {
        if i > 0 {
          assert r[i] == tail[i - 1] && r[j] == tail[j - 1];
        }
      }
    }
  }

  /** SortBy orders the rows in the requested direction. */
  lemma {:induction false} SortBySorted<T>(s: seq<T>, key: T -> Key, descending: bool)
    ensures Sorted(SortBy(s, key, descending), key, descending)
  {
    if s != [] {
      SortBySorted(s[1..], key, descending);
      InsertSorted(s[0], SortBy(s[1..], key, descending), key, descending);
    }
  }

  function KeyIs<T>(key: T -> Key, k: Key): T -> bool
  {
    y => key(y) == k
  }

  /** Two prefixes, one of them empty, can be swapped. */
  lemma PrependCommutes<T>(a: seq<T>, b: seq<T>, c: seq<T>)
    requires a == [] || b == []
    ensures a + (b + c) == b + (a + c)
  {
  }

  lemma {:induction false} InsertStable<T>(x: T, s: seq<T>, key: T -> Key, descending: bool, k: Key)
    ensures Where(Insert(x, s, key, descending), KeyIs(key, k))
         == (if key(x) == k then [x] else []) + Where(s, KeyIs(key, k))
  {
    var p := KeyIs(key, k);
    if s == [] {
      WhereCons(x, s, p);
      assert [x] + s == [x];
    } else if Precedes(key(x), key(s[0]), descending) {
      WhereCons(x, s, p);
    } else {
      var tail := Insert(x, s[1..], key, descending);
      InsertStable(x, s[1..], key, descending, k);
      WhereCons(s[0], tail, p);
      WhereCons(s[0], s[1..], p);
      assert s == [s[0]] + s[1..];
      assert key(s[0]) != key(x);
      PrependCommutes(if p(s[0]) then [s[0]] else [], if key(x) == k then [x] else [], Where(s[1..], p));
      assert Insert(x, s, key, descending) == [s[0]] + tail;
    }
  }

  /** SortBy is stable: the rows sharing any one key value keep their relative order. */
  lemma {:induction false} SortByStable<T>(s: seq<T>, key: T -> Key, descending: bool, k: Key)
    ensures Where(SortBy(s, key, descending), KeyIs(key, k)) == Where(s, KeyIs(key, k))
  {
    if s != [] {
      SortByStable(s[1..], key, descending, k);
      InsertStable(s[0], SortBy(s[1..], key, descending), key, descending, k);
    }
  }
}
