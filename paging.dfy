/**
 * Pagination of the movie list. The list shows 10 records per page while the
 * catalogue service returns 20 per request, so page p of the list is one half
 * of source page ceil(p * 10 / 20): the first half for odd p, the second for
 * even p.
 */
module Paging {
  import opened Records

  /** Records shown per page of the list. */
  const ItemsPerPage: nat := 10

  /** Records returned per page of the catalogue service. */
  const SourcePageSize: nat := 20

  /** Page numbers start at 1; the previous-page button never goes below it. */
  type PageNumber = p: int | p >= 1 witness 1

  function Min(a: int, b: int): int {
    if a <= b then a else b
  }

  /** The source page fetched for list page p: the ceiling of the position of
      p's last record over the source page size. */
  function SourcePage(p: PageNumber): (r: PageNumber)
    ensures (r - 1) * SourcePageSize < p * ItemsPerPage <= r * SourcePageSize
  {
    (p * ItemsPerPage + SourcePageSize - 1) / SourcePageSize
  }

  /** Where list page p starts inside the source page it was fetched from. */
  function WindowStart(p: PageNumber): (r: nat)
    ensures r + ItemsPerPage <= SourcePageSize
    ensures r == if p % 2 == 1 then 0 else ItemsPerPage
  {
    ((p - 1) * ItemsPerPage) % SourcePageSize
  }

  /** JavaScript's `slice(begin, end)` for non-negative bounds: both bounds are
      cut down to the length, and an empty range gives the empty sequence. */
  function Slice(s: seq<Movie>, begin: nat, end: nat): (r: seq<Movie>)
    ensures |r| == if begin < end && begin < |s| then Min(end, |s|) - begin else 0
    ensures forall i :: 0 <= i < |r| ==> begin + i < |s| && r[i] == s[begin + i]
  {
    if begin < end && begin < |s| then s[begin..Min(end, |s|)] else []
  }

  /** The records of list page p, taken from the filtered and sorted records
      s of its source page. */
  function Window(s: seq<Movie>, p: PageNumber): (r: seq<Movie>)
    ensures |r| <= ItemsPerPage
    ensures |r| == if WindowStart(p) < |s| then Min(WindowStart(p) + ItemsPerPage, |s|) - WindowStart(p) else 0
    ensures forall i :: 0 <= i < |r| ==> WindowStart(p) + i < |s| && r[i] == s[WindowStart(p) + i]
    ensures forall x :: x in r ==> x in s
  {
    var start := WindowStart(p);
    var r := Slice(s, start, start + ItemsPerPage);
    assert forall x :: x in r ==> x in s by {
      forall x | x in r ensures x in s {
        var i :| 0 <= i < |r| && r[i] == x;
        assert s[start + i] == x;
      }
    }
    r
  }

  /** Page p's window starts exactly at its global position: p - 1 full list
      pages lie before it, in earlier source pages or earlier in its own. */
  lemma {:induction false} PageAlignment(p: PageNumber)
    ensures (SourcePage(p) - 1) * SourcePageSize + WindowStart(p) == (p - 1) * ItemsPerPage
    ensures WindowStart(p) + ItemsPerPage <= SourcePageSize
  {
    var q := (p - 1) / 2;
    assert p == 2 * q + 1 || p == 2 * q + 2;
    if p == 2 * q + 1 {
      assert p * ItemsPerPage + SourcePageSize - 1 == (q + 1) * SourcePageSize + 9;
      assert SourcePage(p) == q + 1;
    } else {
      assert p * ItemsPerPage + SourcePageSize - 1 == (q + 1) * SourcePageSize + 19;
      assert SourcePage(p) == q + 1;
    }
  }

  /** Source page n of a catalogue, as the service returns it. */
  function SourceChunk(catalogue: seq<Movie>, n: PageNumber): (r: seq<Movie>)
    ensures |r| <= SourcePageSize
  {
    Slice(catalogue, (n - 1) * SourcePageSize, n * SourcePageSize)
  }

  /** With no filter and no reordering, page p shows records (p - 1) * 10 up
      to p * 10 of the catalogue, as a list that fetched everything at once
      would. */
  lemma PageShowsItsRecords(catalogue: seq<Movie>, p: PageNumber)
    ensures Window(SourceChunk(catalogue, SourcePage(p)), p)
         == Slice(catalogue, (p - 1) * ItemsPerPage, p * ItemsPerPage)
  {
    PageAlignment(p);
    var base := (SourcePage(p) - 1) * SourcePageSize;
    var chunk := SourceChunk(catalogue, SourcePage(p));
    var w := Window(chunk, p);
    var g := Slice(catalogue, (p - 1) * ItemsPerPage, p * ItemsPerPage);
    assert SourcePage(p) * SourcePageSize == base + SourcePageSize;
    assert |w| == |g|;
    forall i | 0 <= i < |w| ensures w[i] == g[i] {
      assert w[i] == chunk[WindowStart(p) + i];
    }
  }

  /** On an odd page, a source page of at most ten records is shown whole. */
  lemma ShortSourceShownWhole(s: seq<Movie>, p: PageNumber)
    requires p % 2 == 1 && |s| <= ItemsPerPage
    ensures Window(s, p) == s
  {
    assert WindowStart(p) == 0;
    if s != [] {
      assert Window(s, p) == s[0..|s|];
    }
  }

  /** An odd page and the page after it show a source page of at most 20
      records whole, the first ten on the odd page and the rest on the
      next. */
  lemma PagesCoverSource(s: seq<Movie>, p: PageNumber)
    requires p % 2 == 1 && |s| <= SourcePageSize
    ensures Window(s, p) + Window(s, p + 1) == s
  {
    var a, b := Window(s, p), Window(s, p + 1);
    assert WindowStart(p) == 0 && WindowStart(p + 1) == ItemsPerPage;
    assert |a + b| == |s|;
    forall i | 0 <= i < |s| ensures (a + b)[i] == s[i] {
      if i < |a| {
        assert (a + b)[i] == a[i];
      } else {
        assert (a + b)[i] == b[i - |a|];
      }
    }
  }

  /** The previous-page button: one page back, but never before page 1. */
  function PreviousPage(p: PageNumber): (r: PageNumber)
    ensures r <= p
    ensures r == p - 1 || (p == 1 && r == 1)
  {
    if p - 1 >= 1 then p - 1 else 1
  }

  /** The next-page button: one page forward, with no upper bound; the
      previous-page button undoes it. */
  function NextPage(p: PageNumber): (r: PageNumber)
    ensures r > p
    ensures PreviousPage(r) == p
  {
    p + 1
  }

  /** An odd page and the page after it are the two halves of one source
      page. */
  lemma PagesShareSource(p: PageNumber)
    requires p % 2 == 1
    ensures SourcePage(p) == SourcePage(NextPage(p))
    ensures WindowStart(p) == 0 && WindowStart(NextPage(p)) == ItemsPerPage
  {
    PageAlignment(p);
    PageAlignment(p + 1);
  }
}
