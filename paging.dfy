/** The page loop the toolkit uses for paged listings (form fills and form
    assets): request pages 1, 2, … of a fixed size, keep every page's
    elements, and stop at the first page whose reported total, minus the
    number of elements requested so far, is negative. The server is a
    sequence of responses: `pages[k]` answers the request for page k + 1. */
module Paging {
  import opened Outcomes

  /** One response of a paged listing: its elements and the reported total. */
  datatype Page<T> = Page(elements: seq<T>, total: int)

  /** The number of elements requested with pages 1 to k + 1. */
  function RequestedSoFar(k: nat, size: nat): nat
  {
    if k == 0 then size else RequestedSoFar(k - 1, size) + size
  }

  lemma {:induction false} RequestedSoFarIs(k: nat, size: nat)
    ensures RequestedSoFar(k, size) == (k + 1) * size
  {
    if k > 0 {
      RequestedSoFarIs(k - 1, size);
    }
  }

  /** The loop ends after the k-th response (page number k + 1). */
  predicate StopsAt<T>(p: Page<T>, k: nat, size: nat)
  {
    p.total - RequestedSoFar(k, size) < 0
  }

  /** The first response, at index `k` or later, after which the loop ends. */
  function FirstStop<T>(pages: seq<Page<T>>, size: nat, k: nat): (r: Option<nat>)
    requires k <= |pages|
    ensures r.Some? ==> k <= r.value < |pages| && StopsAt(pages[r.value], r.value, size)
    ensures r.Some? ==> forall j | k <= j < r.value :: !StopsAt(pages[j], j, size)
    ensures r.None? ==> forall j | k <= j < |pages| :: !StopsAt(pages[j], j, size)
    decreases |pages| - k
  {
    if k == |pages| then None
    else if StopsAt(pages[k], k, size) then Some(k)
    else FirstStop(pages, size, k + 1)
  }

  /** The elements of the first j responses, in order. */
  function Flatten<T>(pages: seq<Page<T>>, j: nat): seq<T>
    requires j <= |pages|
  {
    if j == 0 then [] else Flatten(pages, j - 1) + pages[j - 1].elements
  }

  /** The page numbers 1, 2, …, n. */
  function PageNumbers(n: nat): (r: seq<nat>)
    ensures |r| == n
    ensures forall i | 0 <= i < n :: r[i] == i + 1
  {
    if n == 0 then [] else PageNumbers(n - 1) + [n]
  }

  /** What the loop answers: the elements of every page up to and including
      the stopping one, with that page's total. A server that never sends a
      stopping page makes the loop poll for ever; here that is `None` once
      the responses run out. */
  function Collected<T>(pages: seq<Page<T>>, size: nat): Option<(seq<T>, int)>
  {
    match FirstStop(pages, size, 0)
    case None => None
    case Some(n) => Some((Flatten(pages, n + 1), pages[n].total))
  }

  /** The page numbers the loop asks for. */
  function Requested<T>(pages: seq<Page<T>>, size: nat): seq<nat>
  {
    match FirstStop(pages, size, 0)
    case None => PageNumbers(|pages|)
    case Some(n) => PageNumbers(n + 1)
  }

  /** The page loop, against the responses `pages`. */
  method Collect<T>(pages: seq<Page<T>>, size: nat) returns (r: Option<(seq<T>, int)>, requested: seq<nat>)
    ensures r == Collected(pages, size)
    ensures requested == Requested(pages, size)
  {
    var all: seq<T> := [];
    var page: nat := 1;
    requested := [];
    while page <= |pages|
      invariant 1 <= page <= |pages| + 1
      invariant all == Flatten(pages, page - 1)
      invariant requested == PageNumbers(page - 1)
      invariant FirstStop(pages, size, 0) == FirstStop(pages, size, page - 1)
      decreases |pages| + 1 - page
    {
      var fills := pages[page - 1];
      requested := requested + [page];
      all := all + fills.elements;
      RequestedSoFarIs(page - 1, size);
      if fills.total - page * size < 0 {
        return Some((all, fills.total)), requested;
      }
      page := page + 1;
    }
    r := None;
  }

  // ---------------------------------------------------------------- honest server

  function Min(a: int, b: int): int
  {
    if a <= b then a else b
  }

  /** Where the k-th page of `size` items out of `total` begins: k · size,
      capped at the total. */
  function Offset(k: nat, size: nat, total: nat): (r: nat)
    ensures r <= total
  {
    if k == 0 then 0 else Min(Offset(k - 1, size, total) + size, total)
  }

  lemma {:induction false} OffsetIsMin(k: nat, size: nat, total: nat)
    ensures Offset(k, size, total) == Min(k * size, total)
  {
    if k > 0 {
      OffsetIsMin(k - 1, size, total);
      assert (k - 1) * size + size == k * size;
    }
  }

  /** The k-th slice of `items` in pages of `size`. */
  function Chunk<T>(items: seq<T>, k: nat, size: nat): seq<T>
  {
    items[Offset(k, size, |items|)..Offset(k + 1, size, |items|)]
  }

  /** A server that reports the true total and serves `items` in pages of `size`. */
  function HonestPages<T>(items: seq<T>, size: nat, n: nat): (r: seq<Page<T>>)
    ensures |r| == n
  {
    if n == 0 then [] else HonestPages(items, size, n - 1) + [Page(Chunk(items, n - 1, size), |items|)]
  }

  lemma {:induction false} HonestPageAt<T>(items: seq<T>, size: nat, n: nat, k: nat)
    requires k < n
    ensures HonestPages(items, size, n)[k] == Page(Chunk(items, k, size), |items|)
    decreases n
  {
    if k < n - 1 {
      HonestPageAt(items, size, n - 1, k);
    }
  }

  lemma DivBounds(t: nat, size: nat)
    requires size > 0
    ensures (t / size) * size <= t < (t / size + 1) * size
  {
  }

  lemma MulMono(a: nat, b: nat, size: nat)
    requires a <= b
    ensures a * size <= b * size
  {
  }

  lemma {:induction false} FirstStopIs<T>(pages: seq<Page<T>>, size: nat, k: nat, m: nat)
    requires k <= m < |pages|
    requires StopsAt(pages[m], m, size)
    requires forall j | k <= j < m :: !StopsAt(pages[j], j, size)
    ensures FirstStop(pages, size, k) == Some(m)
    decreases m - k
  {
    if k < m {
      FirstStopIs(pages, size, k + 1, m);
    }
  }

  lemma SliceConcat<T>(items: seq<T>, a: nat, b: nat)
    requires a <= b <= |items|
    ensures items[..a] + items[a..b] == items[..b]
  {
  }

  lemma {:induction false} FlattenChunks<T>(items: seq<T>, size: nat, n: nat, j: nat)
    requires j <= n
    ensures Flatten(HonestPages(items, size, n), j) == items[..Offset(j, size, |items|)]
    decreases j
  {
    if j > 0 {
      FlattenChunks(items, size, n, j - 1);
      HonestPageAt(items, size, n, j - 1);
      SliceConcat(items, Offset(j - 1, size, |items|), Offset(j, size, |items|));
    }
  }

  lemma HonestStops(t: nat, size: nat, j: nat)
    requires size > 0
    ensures t - RequestedSoFar(j, size) < 0 <==> j >= t / size
  {
    RequestedSoFarIs(j, size);
    StopsArith(t, size, j);
  }

  lemma StopsArith(t: nat, size: nat, j: nat)
    requires size > 0
    ensures t - (j + 1) * size < 0 <==> j >= t / size
  {
    DivBounds(t, size);
    if j >= t / size {
      MulMono(t / size + 1, j + 1, size);
    } else {
      MulMono(j + 1, t / size, size);
    }
  }

  /** Against an honest server with enough pages, the loop returns every
      item, in order, with the true total, after floor(total / size) + 1
      requests (one more than needed when the total is a multiple of the
      page size). */
  lemma HonestCollect<T>(items: seq<T>, size: nat, n: nat)
    requires size > 0 && |items| / size < n
    ensures Collected(HonestPages(items, size, n), size) == Some((items, |items|))
    ensures Requested(HonestPages(items, size, n), size) == PageNumbers(|items| / size + 1)
  {
    var m := |items| / size;
    HonestFirstStop(items, size, n);
    HonestPageAt(items, size, n, m);
    FlattenChunks(items, size, n, m + 1);
    LastOffset(|items|, size);
    assert items[..|items|] == items;
  }

  /** An honest server's listing stops at page floor(total / size) + 1. */
  lemma HonestFirstStop<T>(items: seq<T>, size: nat, n: nat)
    requires size > 0 && |items| / size < n
    ensures FirstStop(HonestPages(items, size, n), size, 0) == Some(|items| / size)
  {
    var ps := HonestPages(items, size, n);
    var m := |items| / size;
    forall j | 0 <= j <= m
      ensures StopsAt(ps[j], j, size) <==> j == m
    {
      HonestTotalAt(items, size, n, j);
      HonestStops(|items|, size, j);
    }
    FirstStopIs(ps, size, 0, m);
  }

  lemma {:induction false} HonestTotalAt<T>(items: seq<T>, size: nat, n: nat, k: nat)
    requires k < n
    ensures HonestPages(items, size, n)[k].total == |items|
    decreases n
  {
    if k < n - 1 {
      HonestTotalAt(items, size, n - 1, k);
    }
  }

  /** The page after the last full one ends at the total. */
  lemma LastOffset(t: nat, size: nat)
    requires size > 0
    ensures Offset(t / size + 1, size, t) == t
  {
    DivBounds(t, size);
    OffsetIsMin(t / size + 1, size, t);
  }
}
