/** The paging arithmetic of the course and backup lists
    (render_course_pages and render_backup_pages in
    classes/output/renderer.php): how many pages, which entries each page
    shows, and where the two-card row containers open and close. */
module Paging {

  const PageSize: nat := 6

  /** intdiv(n, PAGE_SIZE) plus one for a partial last page: the ceiling of
      n / 6. */
  function PageCount(n: nat): (c: nat)
    ensures c * PageSize >= n
    ensures c > 0 ==> (c - 1) * PageSize < n
  {
    n / PageSize + (if n % PageSize != 0 then 1 else 0)
  }

  /** First index page p (counted from 1) shows. */
  function PageStart(page: nat): nat
    requires page >= 1
  {
    (page - 1) * PageSize
  }

  /** One past the last index page p shows: the page stops after six entries
      or at the first missing entry. */
  function PageEnd(count: nat, page: nat): nat
    requires page >= 1
  {
    if PageStart(page) + PageSize <= count then PageStart(page) + PageSize else count
  }

  /** What the inner loop emits for one entry: a row opens before an entry
      at an even index, and closes after an entry at an odd index or after
      the last entry of the list. */
  datatype Mark = OpenRow | Card(index: nat) | CloseRow

  function CardMarks(count: nat, i: nat): seq<Mark> {
    (if i % 2 == 0 then [OpenRow] else [])
    + [Card(i)]
    + (if i % 2 == 1 || i + 1 == count then [CloseRow] else [])
  }

  /** The marks for the entries lo, ..., hi - 1, in order. */
  function RangeMarks(count: nat, lo: nat, hi: nat): seq<Mark>
    decreases hi
  {
    if hi <= lo then [] else RangeMarks(count, lo, hi - 1) + CardMarks(count, hi - 1)
  }

  /** Nesting of row containers: a row opens only at depth 0, a card and a
      close occur only inside an open row. Depth -1 records a misplaced mark
      and sticks. */
  function Step(d: int, m: Mark): int {
    if d < 0 then d
    else match m
      case OpenRow => if d == 0 then 1 else -1
      case Card(_) => if d == 1 then 1 else -1
      case CloseRow => if d == 1 then 0 else -1
  }

  function DepthFrom(d: int, ms: seq<Mark>): int
    decreases |ms|
  {
    if ms == [] then d else Step(DepthFrom(d, ms[..|ms| - 1]), ms[|ms| - 1])
  }

  /** Row markup is well formed: every card sits inside a row, rows do not
      nest, and every row that opens also closes. */
  predicate Balanced(ms: seq<Mark>) {
    DepthFrom(0, ms) == 0
  }

  lemma {:induction false} DepthAppend(d: int, a: seq<Mark>, b: seq<Mark>)
    ensures DepthFrom(d, a + b) == DepthFrom(DepthFrom(d, a), b)
    decreases |b|
  {
    if b == [] {
      assert a + b == a;
    } else {
      var b' := b[..|b| - 1];
      assert (a + b)[..|a + b| - 1] == a + b';
      DepthAppend(d, a, b');
    }
  }

  /** Entry i opens a row at an even index and leaves it open unless it is
      the last entry; at an odd index it closes the row the entry before it
      opened. */
  lemma CardDepth(count: nat, i: nat)
    ensures DepthFrom(if i % 2 == 0 then 0 else 1, CardMarks(count, i))
      == (if i % 2 == 0 && i + 1 != count then 1 else 0)
  {
    if i % 2 == 0 {
      assert [OpenRow][..0] == [];
      assert DepthFrom(0, [OpenRow]) == 1;
      assert [OpenRow, Card(i)][..1] == [OpenRow];
      assert DepthFrom(0, [OpenRow, Card(i)]) == 1;
      if i + 1 == count {
        assert CardMarks(count, i) == [OpenRow, Card(i), CloseRow];
        assert [OpenRow, Card(i), CloseRow][..2] == [OpenRow, Card(i)];
      } else {
        assert CardMarks(count, i) == [OpenRow, Card(i)];
      }
    } else {
      assert CardMarks(count, i) == [Card(i), CloseRow];
      assert [Card(i)][..0] == [];
      assert DepthFrom(1, [Card(i)]) == 1;
      assert [Card(i), CloseRow][..1] == [Card(i)];
    }
  }

  /** After the entries lo, ..., hi - 1 of a page that starts at an even index,
      a row is still open exactly when the last entry emitted sits at an even
      index and is not the last entry of the list. */
  lemma {:induction false} RangeDepth(count: nat, lo: nat, hi: nat)
    requires lo % 2 == 0 && lo <= hi <= count
    ensures DepthFrom(0, RangeMarks(count, lo, hi)) == (if hi > lo && hi % 2 == 1 && hi < count then 1 else 0)
    decreases hi
  {
    if hi > lo {
      var i := hi - 1;
      RangeDepth(count, lo, i);
      assert DepthFrom(0, RangeMarks(count, lo, i)) == (if i % 2 == 0 then 0 else 1);
      DepthAppend(0, RangeMarks(count, lo, i), CardMarks(count, i));
      CardDepth(count, i);
    }
  }

  /** The marks of entry i hold exactly one card, that of i. */
  lemma CardMarksCards(count: nat, i: nat)
    ensures forall j: nat :: Card(j) in CardMarks(count, i) <==> j == i
  {
    var open: seq<Mark> := if i % 2 == 0 then [OpenRow] else [];
    var close: seq<Mark> := if i % 2 == 1 || i + 1 == count then [CloseRow] else [];
    assert CardMarks(count, i) == open + [Card(i)] + close;
    assert forall j: nat :: Card(j) !in open && Card(j) !in close;
  }

  /** The entries lo, ..., hi - 1 each appear as exactly the cards emitted. */
  lemma {:induction false} RangeCards(count: nat, lo: nat, hi: nat)
    ensures forall j: nat :: Card(j) in RangeMarks(count, lo, hi) <==> lo <= j < hi
    decreases hi
  {
    if hi > lo {
      RangeCards(count, lo, hi - 1);
      CardMarksCards(count, hi - 1);
      assert RangeMarks(count, lo, hi) == RangeMarks(count, lo, hi - 1) + CardMarks(count, hi - 1);
    }
  }

  /** Entry j of a list of count entries is shown on page j / 6 + 1. */
  lemma PageOfEntry(count: nat, j: nat)
    requires j < count
    ensures j / PageSize < PageCount(count)
    ensures PageStart(j / PageSize + 1) <= j < PageEnd(count, j / PageSize + 1)
  {
  }

  /** One page of the inner loop: entries from (page - 1) * 6 up to six of
      them, stopping at the first index past the end of the list. The page
      shows exactly those entries and its rows are balanced. */
  method RenderPageRows(count: nat, page: nat) returns (marks: seq<Mark>)
    requires page >= 1
    ensures marks == RangeMarks(count, PageStart(page), PageEnd(count, page))
    ensures forall j: nat :: Card(j) in marks <==> PageStart(page) <= j < PageEnd(count, page)
    ensures Balanced(marks)
  {
    var start := PageStart(page);
    var stop := PageEnd(count, page);
    marks := [];
    var i := start;
    while i <= start + PageSize - 1
      invariant start <= i <= start + PageSize
      invariant i == start || i <= count
      invariant marks == RangeMarks(count, start, i)
    {
      if i >= count {
        break;
      }
      var emitted: seq<Mark> := [];
      if i % 2 == 0 {
        emitted := emitted + [OpenRow];
      }
      emitted := emitted + [Card(i)];
      if i % 2 == 1 || i == count - 1 {
        emitted := emitted + [CloseRow];
      }
      assert emitted == CardMarks(count, i);
      marks := marks + emitted;
      i := i + 1;
    }
    assert marks == RangeMarks(count, start, stop) by {
      if start < count {
        assert i == stop;
      } else {
        assert RangeMarks(count, start, stop) == [];
      }
    }
    PageShape(count, page);
  }

  /** The entries of a page are exactly its cards, and its rows balance. */
  lemma PageShape(count: nat, page: nat)
    requires page >= 1
    ensures var marks := RangeMarks(count, PageStart(page), PageEnd(count, page));
      && (forall j: nat :: Card(j) in marks <==> PageStart(page) <= j < PageEnd(count, page))
      && Balanced(marks)
  {
    var lo := PageStart(page);
    var hi := PageEnd(count, page);
    RangeCards(count, lo, hi);
    if lo < count {
      var half := 3 * (page - 1);
      assert lo == 2 * half;
      RangeDepth(count, lo, hi);
    }
  }

  datatype Page = Page(number: nat, hidden: bool, marks: seq<Mark>)

  /** Page number n of a list of count entries, as the outer loop renders it
      when selectedPage is the page to show. */
  predicate Rendered(count: nat, selectedPage: int, n: nat, pg: Page)
    requires n >= 1
  {
    && pg.number == n
    && (pg.hidden <==> n != selectedPage)
    && pg.marks == RangeMarks(count, PageStart(n), PageEnd(count, n))
    && Balanced(pg.marks)
  }

  /** More than one page exactly when the list holds more than six entries. */
  lemma SeveralPages(count: nat)
    ensures PageCount(count) > 1 <==> count > PageSize
  {
  }

  /** The outer loop: one page per PageCount, every page but the selected one
      hidden, and a page bar only when there is more than one page. Every
      entry of the list appears on the page its index falls in. */
  method RenderPages(count: nat, selectedPage: int) returns (pages: seq<Page>, pageBar: bool)
    ensures |pages| == PageCount(count)
    ensures forall p :: 0 <= p < |pages| ==> Rendered(count, selectedPage, p + 1, pages[p])
    ensures forall j :: 0 <= j < count ==> j / PageSize < |pages| && Card(j) in pages[j / PageSize].marks
    ensures pageBar <==> count > PageSize
  {
    var pageCount := count / PageSize + (if count % PageSize != 0 then 1 else 0);
    pages := [];
    var page := 1;
    while page <= pageCount
      invariant 1 <= page <= pageCount + 1
      invariant |pages| == page - 1
      invariant forall p :: 0 <= p < |pages| ==> Rendered(count, selectedPage, p + 1, pages[p])
    {
      var marks := RenderPageRows(count, page);
      var pg := Page(page, page != selectedPage, marks);
      assert Rendered(count, selectedPage, page, pg);
      pages := pages + [pg];
      page := page + 1;
    }
    assert pageCount == PageCount(count);
    SeveralPages(count);
    pageBar := pageCount > 1;
    EntriesOnPages(count, selectedPage, pages);
  }

  /** Pages rendered one per page count show every entry of the list on the
      page its index falls in. */
  lemma EntriesOnPages(count: nat, selectedPage: int, pages: seq<Page>)
    requires |pages| == PageCount(count)
    requires forall p :: 0 <= p < |pages| ==> Rendered(count, selectedPage, p + 1, pages[p])
    ensures forall j :: 0 <= j < count ==> j / PageSize < |pages| && Card(j) in pages[j / PageSize].marks
  {
    forall j | 0 <= j < count
      ensures j / PageSize < |pages| && Card(j) in pages[j / PageSize].marks
    {
      var p := j / PageSize;
      PageOfEntry(count, j);
      assert pages[p].marks == RangeMarks(count, PageStart(p + 1), PageEnd(count, p + 1));
      RangeCards(count, PageStart(p + 1), PageEnd(count, p + 1));
    }
  }
}
