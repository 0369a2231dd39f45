/**
 * The query side of the repositories: `Where(predicate)`, `CountAsync`, the
 * page/pageSize normalisation and `Skip((page - 1) * pageSize).Take(pageSize)`,
 * and the `PaginationResult<T>` envelope they fill.
 */
module Query {

  const MaxPageSize: int := 100

  datatype PaginationResult<T> = PaginationResult(items: seq<T>, totalCount: int, page: int, pageSize: int)

  /** `Where(predicate)`: the elements satisfying `p`, in their original order. */
  function Filter<T(==)>(s: seq<T>, p: T -> bool): (r: seq<T>)
    ensures |r| <= |s|
    ensures forall i :: 0 <= i < |r| ==> r[i] in s && p(r[i])
    ensures forall i :: 0 <= i < |s| && p(s[i]) ==> s[i] in r
  {
    if s == [] then []
    else if p(s[0]) then [s[0]] + Filter(s[1..], p)
    else Filter(s[1..], p)
  }

  /** Filtering a concatenation filters each part: the matches keep their original order. */
  lemma {:induction false} FilterAppend<T>(a: seq<T>, b: seq<T>, p: T -> bool)
    ensures Filter(a + b, p) == Filter(a, p) + Filter(b, p)
  {
    if a == [] {
      assert a + b == b;
    } else {
      assert (a + b)[0] == a[0] && (a + b)[1..] == a[1..] + b;
      FilterAppend(a[1..], b, p);
    }
  }

  /** Each accepted element occurs as often as in the input, each rejected one not at all. */
  lemma {:induction false} FilterCounts<T>(s: seq<T>, p: T -> bool)
    ensures forall x :: multiset(Filter(s, p))[x] == if p(x) then multiset(s)[x] else 0
  {
    if s != [] {
      assert s == [s[0]] + s[1..];
      FilterCounts(s[1..], p);
    }
  }

  /** No element occurs twice. */
  predicate Distinct<T(==)>(s: seq<T>)
  {
    forall i, j :: 0 <= i < j < |s| ==> s[i] != s[j]
  }

  /** `Math.Max(1, page)`. */
  function ClampPage(page: int): (p: int)
    ensures p >= 1
    ensures page >= 1 ==> p == page
    ensures page < 1 ==> p == 1
  {
    if page < 1 then 1 else page
  }

  /** `Math.Max(1, Math.Min(100, pageSize))`. */
  function ClampPageSize(pageSize: int): (s: int)
    ensures 1 <= s <= MaxPageSize
    ensures 1 <= pageSize <= MaxPageSize ==> s == pageSize
    ensures pageSize > MaxPageSize ==> s == MaxPageSize
    ensures pageSize < 1 ==> s == 1
  {
    if pageSize > MaxPageSize then MaxPageSize else if pageSize < 1 then 1 else pageSize
  }

  /** How many matches precede the requested page, computed without overflow. */
  function SkipCount(page: int, pageSize: int): (k: int)
    requires page >= 1 && pageSize >= 1
    ensures k >= 0
    ensures page == 1 ==> k == 0
  {
    (page - 1) * pageSize
  }

  /**
   * `Skip(skip).Take(pageSize)` over the filtered sequence: the run of at most
   * `pageSize` matches that starts right after the first `skip` ones.
   */
  function Slice<T>(f: seq<T>, page: int, pageSize: int): (r: seq<T>)
    requires page >= 1 && pageSize >= 1
    ensures |r| <= pageSize
    ensures SkipCount(page, pageSize) >= |f| ==> r == []
    ensures SkipCount(page, pageSize) < |f| ==>
              |r| == (if |f| - SkipCount(page, pageSize) < pageSize then |f| - SkipCount(page, pageSize) else pageSize)
    ensures forall i :: 0 <= i < |r| ==> SkipCount(page, pageSize) + i < |f| && r[i] == f[SkipCount(page, pageSize) + i]
  {
    var skip := SkipCount(page, pageSize);
    if skip >= |f| then []
    else if skip + pageSize <= |f| then f[skip..skip + pageSize]
    else f[skip..]
  }

  /**
   * The specification of `GetPagedAsync`: normalise page and pageSize, count the
   * matches, and return the requested page of them.
   */
  function Paginate<T(==)>(all: seq<T>, matches: T -> bool, page: int, pageSize: int): (r: PaginationResult<T>)
    ensures r.page == ClampPage(page) && r.pageSize == ClampPageSize(pageSize)
    ensures r.totalCount == |Filter(all, matches)|
    ensures |r.items| <= r.pageSize && |r.items| <= r.totalCount
    ensures forall i :: 0 <= i < |r.items| ==> r.items[i] in all && matches(r.items[i])
  {
    var p := ClampPage(page);
    var size := ClampPageSize(pageSize);
    var f := Filter(all, matches);
    var items := Slice(f, p, size);
    PaginationResult(items, |f|, p, size)
  }

  /** The items of pages 1 .. n, concatenated in page order. */
  function PagesUpTo<T>(f: seq<T>, pageSize: int, n: nat): seq<T>
    requires pageSize >= 1
  {
    if n == 0 then [] else PagesUpTo(f, pageSize, n - 1) + Slice(f, n, pageSize)
  }

  /** Pages 1 .. n together are exactly the first n * pageSize matches (or all of them). */
  lemma {:induction false} PagesUpToIsPrefix<T>(f: seq<T>, pageSize: int, n: nat)
    requires pageSize >= 1
    ensures PagesUpTo(f, pageSize, n) == f[..if n * pageSize < |f| then n * pageSize else |f|]
  {
    if n > 0 {
      PagesUpToIsPrefix(f, pageSize, n - 1);
      var before := (n - 1) * pageSize;
      assert SkipCount(n, pageSize) == before;
      assert n * pageSize == before + pageSize;
      var prev := f[..if before < |f| then before else |f|];
      var page := Slice(f, n, pageSize);
      var end := if n * pageSize < |f| then n * pageSize else |f|;
      if before < |f| {
        assert page == f[before..end];
        assert f[..end] == prev + page;
      } else {
        assert page == [];
      }
    }
  }

  /** The number of pages needed to show `total` matches, `pageSize` at a time. */
  function PageCount(total: nat, pageSize: int): (n: nat)
    requires pageSize >= 1
    ensures n * pageSize >= total
    ensures n > 0 ==> (n - 1) * pageSize < total
  {
    (total + pageSize - 1) / pageSize
  }

  /** Consecutive pages 1 .. PageCount reconstruct the whole filtered sequence. */
  lemma PagesReconstruct<T>(f: seq<T>, pageSize: int)
    requires pageSize >= 1
    ensures PagesUpTo(f, pageSize, PageCount(|f|, pageSize)) == f
  {
    PagesUpToIsPrefix(f, pageSize, PageCount(|f|, pageSize));
  }

  /** Later pages start at least a whole page further into the matches. */
  lemma SkipGrows(p: int, q: int, pageSize: int)
    requires pageSize >= 1 && 1 <= p < q
    ensures SkipCount(q, pageSize) >= SkipCount(p, pageSize) + pageSize
  {
    assert (q - 1) * pageSize == (p - 1) * pageSize + (q - p) * pageSize;
    assert (q - p) * pageSize >= pageSize;
  }

  /** Over matches without repetitions, two different pages share no item. */
  lemma PagesDisjoint<T>(f: seq<T>, pageSize: int, p: int, q: int)
    requires Distinct(f) && pageSize >= 1 && 1 <= p < q
    ensures forall x :: x in Slice(f, p, pageSize) ==> x !in Slice(f, q, pageSize)
  {
    var a, b := Slice(f, p, pageSize), Slice(f, q, pageSize);
    var sp, sq := SkipCount(p, pageSize), SkipCount(q, pageSize);
    SkipGrows(p, q, pageSize);
    forall i, j | 0 <= i < |a| && 0 <= j < |b| ensures a[i] != b[j] {
      assert a[i] == f[sp + i] && b[j] == f[sq + j] && sp + i < sq + j;
    }
  }

  /** A page past the last match is empty, but still reports the total and the normalised page. */
  lemma PageBeyondEndIsEmpty<T>(all: seq<T>, matches: T -> bool, page: int, pageSize: int)
    requires page >= 1 && 1 <= pageSize <= MaxPageSize
    requires (page - 1) * pageSize >= |Filter(all, matches)|
    ensures Paginate(all, matches, page, pageSize).items == []
    ensures Paginate(all, matches, page, pageSize).page == page
  {
  }

  /** The projection of a page onto response objects: same metadata, items mapped one by one. */
  function MapPage<A, B>(p: PaginationResult<A>, f: A -> B): (r: PaginationResult<B>)
    ensures r.totalCount == p.totalCount && r.page == p.page && r.pageSize == p.pageSize
    ensures |r.items| == |p.items|
    ensures forall i :: 0 <= i < |p.items| ==> r.items[i] == f(p.items[i])
  {
    PaginationResult(seq(|p.items|, i requires 0 <= i < |p.items| => f(p.items[i])), p.totalCount, p.page, p.pageSize)
  }

  // ---- The skip count as the source computes it: 32-bit `int` arithmetic ----

  const Int32Min: int := -0x8000_0000
  const Int32Max: int := 0x7FFF_FFFF

  /** Two's-complement wrap-around of C#'s unchecked 32-bit arithmetic. */
  function Wrap32(x: int): (r: int)
    ensures Int32Min <= r <= Int32Max
    ensures Int32Min <= x <= Int32Max ==> r == x
  {
    (x - Int32Min) % 0x1_0000_0000 + Int32Min
  }

  /** `(page - 1) * pageSize` evaluated in 32-bit `int`, as the repositories do. */
  function SkipCountAsWritten(page: int, pageSize: int): int
  {
    Wrap32(Wrap32(page - 1) * pageSize)
  }

  /**
   * For page 1073741825 with pageSize 4 (both valid `int`s, both unchanged by the
   * clamps) the 32-bit product wraps to 0, so the source skips nothing and serves the
   * first page's items, where the intended skip is 4294967296 and the page is empty.
   */
  lemma SkipCountWrapsToFirstPage<T>(f: seq<T>)
    requires 4 <= |f| < 4294967296
    ensures ClampPage(1073741825) == 1073741825 && ClampPageSize(4) == 4
    ensures SkipCountAsWritten(1073741825, 4) == 0
    ensures SkipCount(1073741825, 4) == 4294967296
    ensures Slice(f, 1073741825, 4) == []
    ensures f[SkipCountAsWritten(1073741825, 4)..][..4] == f[..4] != []
  {
  }
}
