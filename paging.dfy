/** Pagination of an ordered listing (`paginate_all`), with Python's slice semantics. */
module Paging {

  /** `QUESTIONS_PER_PAGE`. */
  const PageSize: nat := 10

  function Min(a: int, b: int): int { if a <= b then a else b }

  function Max0(a: int): nat { if a < 0 then 0 else a }

  /** Python's normalisation of one bound of `s[start:end]` for `|s| == n`: a negative bound
      counts back from the end, and the bound is then clipped to `[0, n]`. */
  function SliceBound(i: int, n: nat): (b: nat)
    ensures b <= n
    ensures 0 <= i ==> b == Min(i, n)
    ensures i < 0 ==> b == Max0(n + i)
  {
    if i < 0 then (if i + n < 0 then 0 else i + n)
    else if i > n then n
    else i
  }

  /** Python's `s[start:end]`: never fails, whatever the bounds. */
  function Slice<T>(s: seq<T>, start: int, end: int): (r: seq<T>)
    ensures start <= end ==> |r| <= end - start
    ensures multiset(r) <= multiset(s)
    ensures 0 <= start <= end ==> r == s[Min(start, |s|)..Min(end, |s|)]
    ensures start <= end < 0 ==> r == s[Max0(|s| + start)..Max0(|s| + end)]
    ensures end == 0 ==> r == []
  {
    var lo, hi := SliceBound(start, |s|), SliceBound(end, |s|);
    if lo <= hi then
      assert s == s[..lo] + s[lo..hi] + s[hi..];
      s[lo..hi]
    else []
  }

  /** `paginate_all`: the window of `PageSize` items that page number `page` selects.
      Pages from 1 on are consecutive windows from the front; page 0 is always empty;
      a negative page inherits Python's negative indices and selects a window counted
      back from the end. */
  function Paginate<T>(items: seq<T>, page: int): (r: seq<T>)
    ensures |r| <= PageSize
    ensures multiset(r) <= multiset(items)
    ensures page >= 1 ==> r == items[Min((page - 1) * PageSize, |items|)..Min(page * PageSize, |items|)]
    ensures page >= 1 ==> (r == [] <==> (page - 1) * PageSize >= |items|)
    ensures page == 0 ==> r == []
    ensures page < 0 ==> r == items[Max0(|items| + (page - 1) * PageSize)..Max0(|items| + page * PageSize)]
  {
    var start := (page - 1) * PageSize;
    Slice(items, start, start + PageSize)
  }

  /** Item `i` is listed on page `i / PageSize + 1`, at position `i % PageSize`. */
  lemma PageHoldsItem<T>(items: seq<T>, i: nat)
    requires i < |items|
    ensures i % PageSize < |Paginate(items, i / PageSize + 1)|
    ensures Paginate(items, i / PageSize + 1)[i % PageSize] == items[i]
  {
    var p := i / PageSize + 1;
    assert (p - 1) * PageSize <= i < p * PageSize;
  }

  /** Pages 1 to k, one after the other. */
  function FirstPages<T>(items: seq<T>, k: nat): seq<T>
  {
    if k == 0 then [] else FirstPages(items, k - 1) + Paginate(items, k)
  }

  /** Page k ends where page k + 1 starts, after it starts. */
  lemma PagesAdjacent(k: int, n: nat)
    ensures Min((k - 1) * PageSize, n) <= Min(k * PageSize, n)
  {
    assert (k - 1) * PageSize + PageSize == k * PageSize;
  }

  /** Reading pages 1 to k in turn lists the first `k * PageSize` items, in order, each once. */
  lemma {:induction false} FirstPagesArePrefix<T>(items: seq<T>, k: nat)
    ensures FirstPages(items, k) == items[..Min(k * PageSize, |items|)]
  {
    if k > 0 {
      FirstPagesArePrefix(items, k - 1);
      PagesAdjacent(k, |items|);
      PrefixJoin(items, Min((k - 1) * PageSize, |items|), Min(k * PageSize, |items|));
    }
  }

  lemma PrefixJoin<T>(s: seq<T>, a: nat, b: nat)
    requires a <= b <= |s|
    ensures s[..a] + s[a..b] == s[..b]
  {
  }

  /** The pages 1 to ceil(n / PageSize) together list the whole collection. */
  lemma PagesCoverAll<T>(items: seq<T>)
    ensures FirstPages(items, (|items| + PageSize - 1) / PageSize) == items
  {
    var k := (|items| + PageSize - 1) / PageSize;
    FirstPagesArePrefix(items, k);
    assert k * PageSize >= |items|;
  }
}
