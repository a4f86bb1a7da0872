/** The page arithmetic shared by every paged listing: the `PageInfoModel`
    (`Size`, `Current`, `Count`) and the `Skip((page - 1) * size).Take(size)`
    slice. The controllers reject `page <= 0` and `size <= 0` before any of
    this runs, so both are positive here. */
module Paging {
  import opened Common

  datatype PageInfo = PageInfo(size: int, current: int, count: nat)

  /** `(int)Math.Ceiling((double)total / size)`: the least number of pages of
      `size` items that hold `total` items. */
  function PageCount(total: nat, size: int): (c: nat)
    requires size > 0
    ensures c * size >= total
    ensures c == 0 || (c - 1) * size < total
  {
    var c := (total + size - 1) / size;
    assert c * size + (total + size - 1) % size == total + size - 1;
    c
  }

  /** `PageInfoModel { Size = size, Current = page, Count = ceil(total / size) }`. */
  function Pagination(total: nat, page: int, size: int): (p: PageInfo)
    requires page > 0 && size > 0
    ensures p.size == size && p.current == page
    ensures p.count * size >= total && (p.count == 0 || (p.count - 1) * size < total)
  {
    PageInfo(size, page, PageCount(total, size))
  }

  /** Where page `page` starts: `(page - 1) * size`. */
  function Offset(page: int, size: int): nat
    requires page > 0 && size > 0
  {
    (page - 1) * size
  }

  /** `Skip((page - 1) * size).Take(size)`. */
  function Page<T>(s: seq<T>, page: int, size: int): (r: seq<T>)
    requires page > 0 && size > 0
    ensures Offset(page, size) >= |s| ==> r == []
    ensures Offset(page, size) < |s| ==> |r| == Min(size, |s| - Offset(page, size))
    ensures forall k :: 0 <= k < |r| ==> r[k] == s[Offset(page, size) + k]
  {
    var start := Offset(page, size);
    if start >= |s| then [] else s[start..Min(start + size, |s|)]
  }

  /** The `foreach` that turns the entities of a page into models, one
      `Add` per entity. */
  method ModelsOf<T, U>(items: seq<T>, f: T -> U) returns (models: seq<U>)
    ensures |models| == |items|
    ensures forall j :: 0 <= j < |items| ==> models[j] == f(items[j])
  {
    models := [];
    var k := 0;
    while k < |items|
      invariant 0 <= k <= |items| && |models| == k
      invariant forall j :: 0 <= j < k ==> models[j] == f(items[j])
    {
      models := models + [f(items[k])];
      k := k + 1;
    }
  }

  /** A page shows only items of the listing: every model on it is the
      model of some item of `s`. */
  lemma PageImage<T, U>(s: seq<T>, page: int, size: int, f: T -> U)
    requires page > 0 && size > 0
    ensures forall m :: m in MapSeq(Page(s, page, size), f) ==> exists x :: x in s && m == f(x)
  {
    var p := Page(s, page, size);
    forall m | m in MapSeq(p, f) ensures exists x :: x in s && m == f(x) {
      var k :| 0 <= k < |p| && MapSeq(p, f)[k] == m;
      assert s[Offset(page, size) + k] in s && m == f(s[Offset(page, size) + k]);
    }
  }

  /** Local arithmetic helper for the page lemmas below. */
  lemma MulMonotone(a: int, b: int, size: int)
    requires 0 <= a <= b && size > 0
    ensures a * size <= b * size
  {
  }

  /** A page is empty exactly when its number exceeds the page count of the
      pagination block returned beside it. */
  lemma PageEmptyIffPastCount<T>(s: seq<T>, page: int, size: int)
    requires page > 0 && size > 0
    ensures Page(s, page, size) == [] <==> page > PageCount(|s|, size)
  {
    var c := PageCount(|s|, size);
    if page - 1 >= c {
      MulMonotone(c, page - 1, size);
    } else {
      MulMonotone(page - 1, c - 1, size);
    }
  }

  /** Every item of the listing is on exactly one page: item `i` is item
      `i % size` of page `i / size + 1`, and that page lies within the count. */
  lemma ItemOnItsPage<T>(s: seq<T>, i: nat, size: int)
    requires i < |s| && size > 0
    ensures var page := i / size + 1;
      && page <= PageCount(|s|, size)
      && i % size < |Page(s, page, size)|
      && Page(s, page, size)[i % size] == s[i]
  {
    var page := i / size + 1;
    assert Offset(page, size) == (i / size) * size;
    assert Offset(page, size) + i % size == i;
    PageEmptyIffPastCount(s, page, size);
  }

  /** No item appears on two pages: page `p` at position `k` holds item
      `(p - 1) * size + k` and no other, so two different pages hold
      different items. */
  lemma PagesDisjoint<T>(s: seq<T>, p: int, q: int, size: int, k: nat, m: nat)
    requires p > 0 && q > 0 && size > 0 && p != q
    requires k < |Page(s, p, size)| && m < |Page(s, q, size)|
    ensures Offset(p, size) + k != Offset(q, size) + m
  {
    if p < q {
      MulMonotone(p, q - 1, size);
    } else {
      MulMonotone(q, p - 1, size);
    }
  }
}
