/**
 * The LINQ operators the listings compose (`Where`, `Count`, `Skip`, `Take`,
 * `Select`, `Distinct`), page arithmetic (`Skip(i * n).Take(n)`, the number
 * of pages), and what they guarantee together.
 */
module Linq {
  import opened Wrappers
  import opened Strings

  /** `Where`: the elements satisfying `p`, in their original order. */
  function Where<T(!new)>(s: seq<T>, p: T -> bool): (r: seq<T>)
    ensures |r| <= |s|
    ensures forall x :: x in r ==> p(x)
    ensures forall x :: multiset(r)[x] == if p(x) then multiset(s)[x] else 0
  {
    if s == [] then []
    else
      assert s == [s[0]] + s[1..];
      (if p(s[0]) then [s[0]] else []) + Where(s[1..], p)
  }

  /** `FirstOrDefault(p)`, as the position of the first element satisfying `p`. */
  function FirstIndex<T>(s: seq<T>, p: T -> bool): (r: Option<nat>)
    ensures r.Some? ==> r.value < |s| && p(s[r.value]) && forall j :: 0 <= j < r.value ==> !p(s[j])
    ensures r.None? ==> forall j :: 0 <= j < |s| ==> !p(s[j])
  {
    if s == [] then None
    else if p(s[0]) then Some(0)
    else
      match FirstIndex(s[1..], p)
      case None => None
      case Some(i) => Some(i + 1)
  }

  /** `Select`: `f` applied to every element. */
  function Select<T, U>(s: seq<T>, f: T -> U): (r: seq<U>)
    ensures |r| == |s|
    ensures forall i :: 0 <= i < |s| ==> r[i] == f(s[i])
  {
    seq(|s|, i requires 0 <= i < |s| => f(s[i]))
  }

  /** `Skip(n)`: everything after the first `n` elements; nothing is skipped when `n <= 0`. */
  function Skip<T>(s: seq<T>, n: int): (r: seq<T>)
    ensures n <= 0 ==> r == s
    ensures n >= |s| ==> r == []
    ensures 0 <= n <= |s| ==> r == s[n..]
  {
    if n <= 0 then s else if n >= |s| then [] else s[n..]
  }

  /** `Take(n)`: the first `n` elements, or all of them; none when `n <= 0`. */
  function Take<T>(s: seq<T>, n: int): (r: seq<T>)
    ensures n <= 0 ==> r == []
    ensures n >= |s| ==> r == s
    ensures 0 <= n <= |s| ==> r == s[..n]
  {
    if n <= 0 then [] else if n >= |s| then s else s[..n]
  }

  /** `Skip(pageIndex * pageSize).Take(pageSize)`, the offset computed without overflow. */
  function Page<T>(s: seq<T>, pageIndex: int, pageSize: int): seq<T> {
    Take(Skip(s, pageIndex * pageSize), pageSize)
  }

  /**
   * `Skip(pageIndex * pageSize).Take(pageSize)` as C# evaluates it: the
   * offset is an unchecked 32-bit product, which can wrap to a negative
   * count (nothing skipped) or to a small non-negative one.
   */
  function PageAsWritten<T>(s: seq<T>, pageIndex: int, pageSize: int): seq<T> {
    Take(Skip(s, Wrap32(pageIndex * pageSize)), pageSize)
  }

  /** Wherever the offset fits in 32 bits the page as written is the page. */
  lemma PageAsWrittenAgrees<T>(s: seq<T>, pageIndex: int, pageSize: int)
    requires IsInt32(pageIndex * pageSize)
    ensures PageAsWritten(s, pageIndex, pageSize) == Page(s, pageIndex, pageSize)
  {
  }

  /** `(int)Math.Ceiling(n / (double)d)`, exact for the 32-bit operands of the source. */
  function CeilDiv(n: int, d: int): (r: int)
    requires n >= 0 && d > 0
    ensures r >= 0
    ensures n <= r * d
    ensures (r - 1) * d < n
  {
    (n + d - 1) / d
  }

  predicate NoDuplicates<T(==)>(s: seq<T>) {
    forall i, j :: 0 <= i < j < |s| ==> s[i] != s[j]
  }

  /** `Distinct`: the first occurrence of every element, in order. */
  function Distinct<T(==,!new)>(s: seq<T>): (r: seq<T>)
    ensures NoDuplicates(r)
    ensures forall x :: x in r <==> x in s
    ensures |r| <= |s|
  {
    if s == [] then []
    else
      var front := Distinct(s[..|s| - 1]);
      assert s == s[..|s| - 1] + [s[|s| - 1]];
      if s[|s| - 1] in front then front else front + [s[|s| - 1]]
  }

  // ---------------------------------------------------------------------
  // Properties of paging.
  // ---------------------------------------------------------------------

  /** A page is the slice of `s` from `pageIndex * pageSize`, at most `pageSize` long. */
  lemma PageIsSlice<T>(s: seq<T>, pageIndex: int, pageSize: int)
    requires pageIndex >= 0 && pageSize > 0
    ensures var lo := if pageIndex * pageSize < |s| then pageIndex * pageSize else |s|;
            var hi := if lo + pageSize < |s| then lo + pageSize else |s|;
            Page(s, pageIndex, pageSize) == s[lo..hi]
    ensures |Page(s, pageIndex, pageSize)| <= pageSize
  {
    var off := pageIndex * pageSize;
    assert off >= 0;
  }

  /** A page is non-empty exactly when its index is below the number of pages. */
  lemma {:induction false} PageNonEmptyIff<T>(s: seq<T>, pageIndex: int, pageSize: int)
    requires pageIndex >= 0 && pageSize > 0
    ensures Page(s, pageIndex, pageSize) != [] <==> pageIndex < CeilDiv(|s|, pageSize)
  {
    var total := CeilDiv(|s|, pageSize);
    var off := pageIndex * pageSize;
    if pageIndex < total {
      assert pageIndex <= total - 1;
      MultiplyMonotone(pageIndex, total - 1, pageSize);
      assert off < |s|;
    } else {
      MultiplyMonotone(total, pageIndex, pageSize);
      assert off >= |s|;
    }
  }

  lemma MultiplyMonotone(a: int, b: int, c: int)
    requires a <= b && c >= 0
    ensures a * c <= b * c
  {
  }

  /** Every element is reachable: `s[j]` sits at position `j % n` of page `j / n`, a page below the total. */
  lemma {:induction false} PageLocates<T>(s: seq<T>, j: int, pageSize: int)
    requires 0 <= j < |s| && pageSize > 0
    ensures j / pageSize < CeilDiv(|s|, pageSize)
    ensures j % pageSize < |Page(s, j / pageSize, pageSize)|
    ensures Page(s, j / pageSize, pageSize)[j % pageSize] == s[j]
  {
    var q, r := j / pageSize, j % pageSize;
    assert q * pageSize + r == j;
    assert q * pageSize <= j;
    PageNonEmptyIff(s, q, pageSize);
    PageIsSlice(s, q, pageSize);
  }

  /** A slice of a duplicate-free sequence is duplicate-free. */
  lemma PageKeepsNoDuplicates<T>(s: seq<T>, pageIndex: int, pageSize: int)
    requires NoDuplicates(s)
    ensures NoDuplicates(Page(s, pageIndex, pageSize))
  {
    var off := pageIndex * pageSize;
    var rest := Skip(s, off);
    assert NoDuplicates(rest) by {
      if 0 < off < |s| {
        forall i, j | 0 <= i < j < |rest| ensures rest[i] != rest[j] {
          assert rest[i] == s[off + i] && rest[j] == s[off + j];
        }
      }
    }
  }

  /** A page holds only elements of `s`, each no more often than `s` does. */
  lemma PageIsSubMultiset<T>(s: seq<T>, pageIndex: int, pageSize: int)
    ensures multiset(Page(s, pageIndex, pageSize)) <= multiset(s)
  {
    var off := pageIndex * pageSize;
    var rest := Skip(s, off);
    if 0 < off < |s| {
      assert s == s[..off] + rest;
    }
    var page := Take(rest, pageSize);
    if 0 < pageSize < |rest| {
      assert rest == page + rest[pageSize..];
    }
  }

  /** Twenty-five records in pages of ten: pages 0 and 1 are full, page 2 holds five, page 3 none. */
  lemma TwentyFiveInPagesOfTen<T>(s: seq<T>)
    requires |s| == 25
    ensures CeilDiv(|s|, 10) == 3
    ensures |Page(s, 0, 10)| == 10 && |Page(s, 1, 10)| == 10
    ensures Page(s, 2, 10) == s[20..]
    ensures Page(s, 3, 10) == []
  {
  }
}
