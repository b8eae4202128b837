/** Client-side pagination as both list pages do it: the number of pages is
    `Math.ceil(count / perPage)` and page `p` (counted from 1) is
    `items.slice((p - 1) * perPage, (p - 1) * perPage + perPage)`. */
module Paging {
  import opened Seqs

  /** A page size; both pages use a positive one. */
  type PageSize = n: int | n > 0 witness 1

  function Min(a: int, b: int): int {
    if a <= b then a else b
  }

  /** `Math.ceil(n / size)`: the fewest pages of `size` items that hold `n` items. */
  function PageCount(n: nat, size: PageSize): (pages: nat)
    ensures n <= pages * size
    ensures n > 0 ==> (pages - 1) * size < n
    ensures n == 0 ==> pages == 0
  {
    (n + size - 1) / size
  }

  /** The index of the first item of page `page`. */
  function PageStart(page: int, size: PageSize): (start: int)
    ensures page >= 1 ==> start >= 0
  {
    assert page >= 1 ==> (page - 1) * size >= 0 by {
      if page >= 1 {
        MulMonotone(0, page - 1, size);
      }
    }
    (page - 1) * size
  }

  /** The items shown on page `page`, the slice of `s` from `PageStart(page, size)`
      of length `size` (shorter at the end, empty past the end). */
  function PageAt<T>(s: seq<T>, page: int, size: PageSize): (r: seq<T>)
    ensures |r| <= size
    ensures page >= 1 ==>
              r == s[Min(PageStart(page, size), |s|)..Min(PageStart(page, size) + size, |s|)]
  {
    var start := PageStart(page, size);
    SliceLength(s, start, start + size);
    assert start >= 0 ==> Slice(s, start, start + size) == s[Min(start, |s|)..Min(start + size, |s|)] by {
      if start >= 0 {
        SliceFrom(s, start, start + size);
      }
    }
    Slice(s, start, start + size)
  }

  lemma SliceLength<T>(s: seq<T>, start: int, end: int)
    requires start <= end
    ensures |Slice(s, start, end)| <= end - start
  {
  }

  lemma SliceFrom<T>(s: seq<T>, start: int, end: int)
    requires 0 <= start <= end
    ensures Slice(s, start, end) == s[Min(start, |s|)..Min(end, |s|)]
  {
  }

  /** Page `page` (counted from 1) is empty exactly when it lies past the last page. */
  lemma PageEmptyIff<T>(s: seq<T>, page: int, size: PageSize)
    requires page >= 1
    ensures PageAt(s, page, size) == [] <==> page > PageCount(|s|, size)
  {
    var n := PageCount(|s|, size);
    var start := PageStart(page, size);
    if page <= n {
      MulMonotone(page - 1, n - 1, size);
      assert start < |s|;
    } else {
      MulMonotone(n, page - 1, size);
      assert start >= |s|;
    }
  }

  lemma MulMonotone(a: int, b: int, c: nat)
    requires a <= b
    ensures a * c <= b * c
  {
  }

  lemma MulStep(k: int, size: int)
    ensures (k - 1) * size + size == k * size
  {
  }

  lemma PrefixThenSlice<T>(s: seq<T>, a: int, b: int)
    requires 0 <= a <= b
    ensures s[..Min(a, |s|)] + s[Min(a, |s|)..Min(b, |s|)] == s[..Min(b, |s|)]
  {
  }

  /** Pages `1..k` one after the other. */
  function Pages<T>(s: seq<T>, size: PageSize, k: nat): seq<T> {
    if k == 0 then [] else Pages(s, size, k - 1) + PageAt(s, k, size)
  }

  /** The first `k` pages are the first `k * size` items. */
  lemma {:induction false} PagesArePrefix<T>(s: seq<T>, size: PageSize, k: nat)
    ensures Pages(s, size, k) == s[..Min(k * size, |s|)]
  {
    if k > 0 {
      PagesArePrefix(s, size, k - 1);
      var before, upto := (k - 1) * size, k * size;
      MulStep(k, size);
      MulMonotone(0, k - 1, size);
      PrefixThenSlice(s, before, upto);
    }
  }

  /** Pages `1..PageCount(|s|, size)`, concatenated, are exactly `s`. */
  lemma AllPagesCoverAll<T>(s: seq<T>, size: PageSize)
    ensures Pages(s, size, PageCount(|s|, size)) == s
  {
    PagesArePrefix(s, size, PageCount(|s|, size));
  }
}
