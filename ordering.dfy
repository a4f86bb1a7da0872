/** The orderings the queries ask the database for (`OrderBy`,
    `OrderByDescending`). A sort key is a nullable number or string; strings
    compare ordinally, character by character, and a null key sorts after
    every value when ascending (so before every value when descending), as
    PostgreSQL orders NULL. */
module Ordering {
  import opened Common

  datatype Key = Num(n: int) | Text(s: string) | Null

  /** Ordinal string comparison: `a` is a prefix of `b`, or the first
      character where they differ is smaller in `a`. */
  predicate TextLe(a: string, b: string)
    decreases |a|
  {
    |a| == 0 || (|b| > 0 && (a[0] < b[0] || (a[0] == b[0] && TextLe(a[1..], b[1..]))))
  }

  /** The ascending order on keys. Keys of different kinds never meet in one
      sort; they are ranked Num, Text, Null only to make the order total. */
  predicate KeyLe(a: Key, b: Key) {
    match (a, b)
    case (Num(x), Num(y)) => x <= y
    case (Text(x), Text(y)) => TextLe(x, y)
    case (_, Null) => true
    case (Null, _) => false
    case (Num(_), Text(_)) => true
    case (Text(_), Num(_)) => false
  }

  /** The order a sort in direction `asc` uses. */
  predicate Le(asc: bool, a: Key, b: Key) {
    if asc then KeyLe(a, b) else KeyLe(b, a)
  }

  lemma {:induction false} TextTotal(a: string, b: string)
    ensures TextLe(a, b) || TextLe(b, a)
    decreases |a|
  {
    if |a| > 0 && |b| > 0 && a[0] == b[0] {
      TextTotal(a[1..], b[1..]);
    }
  }

  lemma {:induction false} TextTransitive(a: string, b: string, c: string)
    requires TextLe(a, b) && TextLe(b, c)
    ensures TextLe(a, c)
    decreases |a|
  {
    if |a| > 0 && a[0] == b[0] && b[0] == c[0] {
      TextTransitive(a[1..], b[1..], c[1..]);
    }
  }

  /** Both directions are total preorders, which is what sorting needs. */
  lemma LeTotal(asc: bool, a: Key, b: Key)
    ensures Le(asc, a, b) || Le(asc, b, a)
  {
    if a.Text? && b.Text? {
      TextTotal(a.s, b.s);
    }
  }

  lemma LeTransitive(asc: bool, a: Key, b: Key, c: Key)
    requires Le(asc, a, b) && Le(asc, b, c)
    ensures Le(asc, a, c)
  {
    if a.Text? && b.Text? && c.Text? {
      if asc { TextTransitive(a.s, b.s, c.s); } else { TextTransitive(c.s, b.s, a.s); }
    }
  }

  /** `s` is in order by `key` in direction `asc`. */
  ghost predicate SortedBy<T>(s: seq<T>, key: T -> Key, asc: bool) {
    forall i, j :: 0 <= i < j < |s| ==> Le(asc, key(s[i]), key(s[j]))
  }

  /** Inserts `x` before the first element it does not follow. */
  function Insert<T>(x: T, s: seq<T>, key: T -> Key, asc: bool): (r: seq<T>)
    ensures multiset(r) == multiset(s) + multiset{x}
    ensures |r| == |s| + 1
  {
    if s == [] then [x]
    else if Le(asc, key(x), key(s[0])) then [x] + s
    else
      assert s == [s[0]] + s[1..];
      [s[0]] + Insert(x, s[1..], key, asc)
  }

  /** The ordered result of `OrderBy(key)` (`asc`) or
      `OrderByDescending(key)` (`!asc`). */
  function SortBy<T>(s: seq<T>, key: T -> Key, asc: bool): (r: seq<T>)
    ensures multiset(r) == multiset(s)
    ensures |r| == |s|
  {
    if s == [] then []
    else
      assert s == [s[0]] + s[1..];
      Insert(s[0], SortBy(s[1..], key, asc), key, asc)
  }

  lemma {:induction false} InsertSorted<T>(x: T, s: seq<T>, key: T -> Key, asc: bool)
    requires SortedBy(s, key, asc)
    ensures SortedBy(Insert(x, s, key, asc), key, asc)
  {
    if s == [] {
    } else if Le(asc, key(x), key(s[0])) {
      var r := [x] + s;
      forall i, j | 0 <= i < j < |r| ensures Le(asc, key(r[i]), key(r[j])) {
        if i == 0 && j > 1 {
          LeTransitive(asc, key(x), key(s[0]), key(s[j - 1]));
        }
      }
    } else {
      LeTotal(asc, key(x), key(s[0]));
      InsertSorted(x, s[1..], key, asc);
      var t := Insert(x, s[1..], key, asc);
      var r := [s[0]] + t;
      forall i, j | 0 <= i < j < |r| ensures Le(asc, key(r[i]), key(r[j])) {
        if i == 0 {
          var e := r[j];
          assert e in multiset(t);
          assert e == x || e in multiset(s[1..]);
          if e != x {
            var m :| 0 <= m < |s[1..]| && s[1..][m] == e;
            assert s[m + 1] == e;
          }
        }
      }
    }
  }

  /** The result of an `OrderBy` is in order. */
  lemma {:induction false} SortBySorted<T>(s: seq<T>, key: T -> Key, asc: bool)
    ensures SortedBy(SortBy(s, key, asc), key, asc)
  {
    if s != [] {
      SortBySorted(s[1..], key, asc);
      InsertSorted(s[0], SortBy(s[1..], key, asc), key, asc);
    }
  }
}
