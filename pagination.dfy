/** `Pagination.splitByPages` and what a Spring Data query does with the
    `Pageable` it yields. */
module Pagination {
  import opened Common

  /** `PageRequest.of(page, size)`. */
  datatype PageRequest = PageRequest(page: nat, size: nat)

  /** `splitByPages(from, size)`: no paging when either parameter is absent,
      otherwise page `from / size` of `size` elements. The gateway admits only
      `from >= 0` and `size >= 1`, so Java's truncating division agrees with
      Dafny's here; `size == 0` would be a division by zero. */
  function SplitByPages(from: Option<int>, size: Option<int>): (r: Option<PageRequest>)
    requires from.Some? && size.Some? ==> from.value >= 0 && size.value >= 1
    ensures r.None? <==> from.None? || size.None?
    ensures r.Some? ==> r.value.size == size.value
    ensures r.Some? ==> r.value.page * r.value.size <= from.value < r.value.page * r.value.size + r.value.size
  {
    if from.None? || size.None? then None
    else Some(PageRequest(from.value / size.value, size.value))
  }

  /** The offset at which a page starts. */
  function Offset(p: PageRequest): nat
  {
    p.page * p.size
  }

  /** How many of `n` results page `p` holds: `size` of them, fewer on the
      last page, none past the end. */
  function PageLength(n: nat, p: PageRequest): nat
  {
    if Offset(p) >= n then 0
    else if Offset(p) + p.size <= n then p.size
    else n - Offset(p)
  }

  /** The elements a query returns for an optional `Pageable`: all of them
      without one, otherwise the page-th block of `size` elements (empty past the end). */
  function ApplyPage<T>(s: seq<T>, p: Option<PageRequest>): (r: seq<T>)
    ensures p.None? ==> r == s
    ensures p.Some? ==> |r| <= p.value.size
    ensures p.Some? ==> |r| == PageLength(|s|, p.value)
    ensures p.Some? ==> forall i :: 0 <= i < |r| ==> r[i] == s[Offset(p.value) + i]
    ensures forall x :: x in r ==> x in s
    ensures p.Some? && Offset(p.value) >= |s| ==> r == []
    ensures p.Some? && Offset(p.value) < |s| ==>
              r == s[Offset(p.value)..if Offset(p.value) + p.value.size <= |s| then Offset(p.value) + p.value.size else |s|]
  {
    if p.None? then s
    else
      var lo := Offset(p.value);
      if lo >= |s| then []
      else if lo + p.value.size <= |s| then s[lo..lo + p.value.size]
      else s[lo..]
  }

  /** The page the query returns starts exactly at the requested offset `from`
      if and only if `from` is a multiple of `size`; otherwise it starts at
      `from - from % size`, before the requested element. */
  lemma PageStartsAtFromIffAligned(from: int, size: int)
    requires from >= 0 && size >= 1
    ensures var p := SplitByPages(Some(from), Some(size)).value;
            (Offset(p) == from <==> from % size == 0) && Offset(p) == from - from % size
  {
    var p := SplitByPages(Some(from), Some(size)).value;
    assert from == (from / size) * size + from % size;
    assert Offset(p) == (from / size) * size;
  }

  /** Every element of a returned page is an element of the full result,
      and the requested element `from` lies on the returned page when it exists. */
  lemma {:induction false} PageContainsFrom<T>(s: seq<T>, from: int, size: int)
    requires 0 <= from < |s| && size >= 1
    ensures var r := ApplyPage(s, SplitByPages(Some(from), Some(size)));
            (forall x :: x in r ==> x in s) && s[from] in r
  {
    var p := SplitByPages(Some(from), Some(size)).value;
    var lo := Offset(p);
    var r := ApplyPage(s, Some(p));
    assert lo <= from;
    var hi := if lo + size <= |s| then lo + size else |s|;
    assert r == s[lo..hi];
    assert from - lo < |r| && r[from - lo] == s[from];
  }
}
